# Broadcast relay and accumulating calculator, modelled in Dafny

This project models two small Python programs.

**`server.py`** is an aiohttp WebSocket chat relay with one route, `GET /`.
- A request that cannot be upgraded gets a static HTML page as `text/html`.
- An upgraded connection is sent `"Welcome!!!"`.
- Every connection already in the shared list `app["sockets"]` is then sent `"Someone joined"`, and only after that is the newcomer appended.
- Each text message the connection sends is relayed verbatim to every other member.
- The first non-text message, or the end of the stream, ends the session. The connection is then removed from the list, and every remaining member is sent `"Someone disconnected."`.
- On shutdown every member is closed (each phase atomic; see ## Left out).

Module `Server` (`server.dfy`) has these parts:
- `Connection` is a class. Each request creates a new response object, so Python's `is not` is reference inequality.
- `Room` is a class with `registry: seq<Connection>` (the list) and `outbox: seq<Event>`. The outbox is a log of `Send(target, text)` and `Close(target)` events, in the order the program issues them.
- The methods `Join`, `RelayText`, `RelayLoop`, `Leave`, `Shutdown` and `Serve` follow the loops of `wshandler` and `on_shutdown`.
- Each method is proved against specification functions: `Notify`, `Keep`, `Remove`, `Closes`, `Relayed` and `Texts`.
- A ghost `trace` records the joins and leaves so far. `Room.Valid()` says that replaying that trace from the empty list gives the registry. Lemma `ReplayLive` then proves that the registry is the joined connections minus the departed ones, in join order, with no duplicates.

**`coroutine.py`** is a generator `calc` that keeps a `result` (initially 0) and a `history` list.
- Sending `(x, y)` sets `result` to `x + y`, appends it to `history` and yields it.
- Sending `('h', _)` changes nothing and yields the old result again.

Module `Coroutine` (`coroutine.dfy`) has these parts:
- `Calc` is a class with fields `result`, `history` and `primed`.
- `primed` records that `next(c)` has run.
- A ghost field `sent` holds the inputs so far. `Valid()` ties the fields to the functions `HistoryOf(sent)` and `ResultOf(sent)`.
- `Script` replays the driver at the end of the file and returns the values it yields and the history it prints.

### What the code does on failure

- The code has no best-effort fan-out: an exception from `send_str` propagates and ends the loop.
- `list.remove` is not idempotent: it raises when the connection is absent, so `Leave` requires the connection to be registered, and `Replay` yields `None` for a leave whose connection is absent.
- Shutdown closes members in registry order (each phase atomic; see ## Left out).

## Model

| member | source | states |
|---|---|---|
| Server.Route | PythonTestFiles/server.py:30-33 | an immediate reply exists exactly when the request cannot be upgraded, and it is the page with the bytes read from the file and content type `text/html` |
| Server.Keep | PythonTestFiles/server.py:51-53 | the filtered list holds exactly the members not in the excluded set and is no longer than the original |
| Server.FirstIndex | PythonTestFiles/server.py:62 | the index found holds `c` and no earlier position does, as `list.remove` searches |
| Server.Remove | PythonTestFiles/server.py:62 | removal drops exactly one occurrence of the connection: one fewer element, same multiset minus `c` |
| Server.Notify | PythonTestFiles/server.py:44-45 | one send per target, with target i as the i-th event and the given text |
| Server.Closes | PythonTestFiles/server.py:82-83 | one close per target, with target i as the i-th event |
| Server.Relayed | PythonTestFiles/server.py:49-53 | the sends of a whole relay loop: one batch per text read, each batch as long as the number of members other than the sender (RelayedNeverEchoes gives the targets and texts) |
| Server.StopIndex | PythonTestFiles/server.py:49-56 | the relay loop's stopping point: every earlier message is text, and the message there (if any) is not |
| Server.Texts | PythonTestFiles/server.py:49-53 | the relayed payloads are those of the leading text messages, unmodified and in arrival order |
| Server.NotifyReaches | PythonTestFiles/server.py:44-45 | a notice reaches a connection if and only if it is one of the targets, and always carries the fixed text |
| Server.RelayReachesOthers | PythonTestFiles/server.py:51-53 | a relayed payload reaches a connection if and only if it is registered and is not the sender, and it arrives unmodified |
| Server.RelayedNeverEchoes | PythonTestFiles/server.py:49-53 | over a whole relay loop, every event is a send of a text that was read, to a registered connection other than the sender |
| Server.ClosesOnce | PythonTestFiles/server.py:82-83 | with no duplicates, shutdown closes each registered connection exactly once, closes nothing else and sends no text |
| Server.StopIndexUnique | PythonTestFiles/server.py:49-55 | the stopping point is the unique position with all text before it and non-text (or the end) at it |
| Server.StopIgnoresRest | PythonTestFiles/server.py:54-56 | once a non-text message has been read, nothing that follows it is ever relayed |
| Server.RemoveDistinct | PythonTestFiles/server.py:62 | in a duplicate-free list, removal equals filtering the connection out: it is gone, the others keep their order, and no duplicate appears |
| Server.RemoveLast | PythonTestFiles/server.py:46 | removing a connection just appended by a join restores the previous list |
| Server.Replay | PythonTestFiles/server.py:46-62 | the list `app["sockets"]` after a sequence of appends and removals from `[]`; `None` stands for a `remove` that raises; every connection it holds has joined (ReplayLive gives the full characterisation) |
| Server.ReplayLive | PythonTestFiles/server.py:98 | from the empty list, after well-formed joins and leaves, the registry is the joined connections minus the departed ones, in join order, with no duplicates |
| Server.Registered | PythonTestFiles/server.py:46 | in every valid room the registry has no duplicates and equals the joined connections minus the departed ones, in join order |
| Server.JoinStep | PythonTestFiles/server.py:46 | a connection that never joined is not in the registry, and appending it keeps the membership history well formed, so the registry stays duplicate-free |
| Server.LeaveStep | PythonTestFiles/server.py:62 | removing a registered connection keeps the history well formed; the connection is gone and the rest stay duplicate-free |
| Server.Room.constructor | PythonTestFiles/server.py:98 | the registry starts empty and nothing has been sent |
| Server.Room.Broadcast | PythonTestFiles/server.py:64-65 | one send of the text to each member, in registry order; the registry is untouched |
| Server.Room.Join | PythonTestFiles/server.py:39-46 | the welcome goes to the newcomer first, then the join notice goes to each earlier member in order, then the newcomer is appended; the newcomer was not registered before, so it never gets its own join notice; the room stays valid |
| Server.Room.RelayText | PythonTestFiles/server.py:50-53 | the payload, unmodified, goes to every member other than the sender, in registry order; the registry is untouched |
| Server.Room.RelayLoop | PythonTestFiles/server.py:49-56 | each leading text payload is broadcast in arrival order; reading stops after the first non-text message or at the end of the stream |
| Server.Room.Leave | PythonTestFiles/server.py:60-65 | the one occurrence of the connection is removed, then each remaining member, in order, is sent the leave notice; the leaver is not sent it |
| Server.Room.Shutdown | PythonTestFiles/server.py:71-83 | exactly one close per member, in registry order; the registry is not cleared |
| Server.Room.Session | PythonTestFiles/server.py:36-65 | a fresh connection is welcomed, announced to the earlier members, relays its leading texts to them, and leaves; the registry returns to what it was |
| Server.Room.Serve | PythonTestFiles/server.py:26-65 | a request that cannot be upgraded gets the page and leaves the state untouched; otherwise a fresh connection joins, relays its texts and leaves, and the registry returns to what it was |
| Coroutine.HistoryOf | PythonTestFiles/coroutine.py:9-11 | the history after any inputs has exactly one entry per addition (HistoryCountsAdds places each sum, HistoryAppend gives the order) |
| Coroutine.ResultOf | PythonTestFiles/coroutine.py:3-9 | the result after any inputs; it is still the initial 0 while no addition has been sent (ResultIsLastEntry ties it to the history) |
| Coroutine.ResultIsLastEntry | PythonTestFiles/coroutine.py:3-11 | the current result is the last history entry, or 0 while there is none |
| Coroutine.HistoryAppend | PythonTestFiles/coroutine.py:11 | later sends only extend the history; earlier entries never change |
| Coroutine.HistoryCountsAdds | PythonTestFiles/coroutine.py:9-11 | the history has one entry per addition, and each addition contributes its sum at the position given by the number of additions before it |
| Coroutine.Calc.constructor | PythonTestFiles/coroutine.py:2-3 | a new generator has result 0 and an empty history |
| Coroutine.Calc.Prime | PythonTestFiles/coroutine.py:17 | priming yields 0 and changes neither result nor history |
| Coroutine.Calc.Send | PythonTestFiles/coroutine.py:5-11 | an addition sets the result to `x + y`, appends it to the history and yields it; a history query ignores its second value, changes nothing and yields the old result |
| Coroutine.Script | PythonTestFiles/coroutine.py:13-22 | the driver's run: `next(c)` and the four sends yield 0, 3, 130, 666 and 666, and the history the query prints is `[3, 130, 666]` |

## Left out

- The aiohttp handshake (`can_prepare`, `prepare`) is a parameter. Reading `websocket.html` is a parameter too: the page bytes are passed in.
- `send_str` and `close` are recorded as outbox events and not performed.
- `print` calls and the `web.run_app`/`init` bootstrap are not modelled. That includes printing the history in `calc`.
- Interleaving between sessions at each `await` is not modelled. Each phase (join, one relay, leave, shutdown) is one atomic step. `Serve` runs a whole session with no other session in between. Interleaved sessions are the phase methods called in any order.
- Shutdown is not interleaved with sessions. In the source, `await ws.close()` can let that session's `finally` remove it from the list while the shutdown loop walks the same list, so a member could be skipped and leave notices could go out during shutdown; `Shutdown` closes a registry that no session changes meanwhile.
- Send failures and other exceptions are not modelled. This includes the `ValueError` from `list.remove` when a join fails before its append. `Leave` requires the connection to be registered instead.
- Server.Room.Join: requires a connection that never joined before. The source guarantees this by creating a new response object per request.
- Python generator mechanics are not modelled: a send before `next(c)` (Python raises `TypeError`; `Calc.Send` requires `primed`), closing the generator, a second `next`, and `+` on non-integer operands. Inputs are integers or the history query.
