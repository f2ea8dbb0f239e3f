/** The broadcast relay of server.py: the shared list of live connections
    (`app["sockets"]`), the three phases of a WebSocket session (join, relay,
    leave), the fallback page for plain GET requests and the shutdown hook.
    Every phase is one atomic step; what a connection is sent or told to do
    is recorded as an event in an outbox instead of being performed. */
module Server {

  newtype byte = b: int | 0 <= b < 256

  datatype Option<T> = None | Some(value: T)

  /** One upgraded connection. Each request creates a new response object,
      so the identity test `ws is not resp` is reference inequality. */
  class Connection {
    constructor () { }
  }

  /** What the server asks of a connection: send it a text, or close it. */
  datatype Event = Send(target: Connection, text: string) | Close(target: Connection)

  /** An item of a connection's incoming stream. The stream itself ends when
      the peer closes; a binary frame or an error ends the relay loop too. */
  datatype Message = Text(data: string) | Binary(bytes: seq<byte>) | Error

  /** The handler's answer: the static page, or the upgraded connection. */
  datatype Reply = Page(body: seq<byte>, contentType: string) | Socket(conn: Connection)

  const Welcome := "Welcome!!!"
  const JoinNotice := "Someone joined"
  const LeaveNotice := "Someone disconnected."
  const HtmlType := "text/html"

  // ---------------------------------------------------------------------
  // Routing

  /** The routing decision, taken before any state is touched: a request
      that cannot be upgraded is answered at once with the page (the bytes of
      the HTML file, read by the caller) as `text/html`; `None` means the
      request is upgraded. */
  function Route(canPrepare: bool, page: seq<byte>): (r: Option<Reply>)
    ensures r.Some? <==> !canPrepare
    ensures r.Some? ==> r.value == Page(page, HtmlType)
  {
    if canPrepare then None else Some(Page(page, HtmlType))
  }

  // ---------------------------------------------------------------------
  // Sequences of connections

  predicate Distinct(s: seq<Connection>) {
    forall i, j | 0 <= i < j < |s| :: s[i] != s[j]
  }

  /** The members of `s` that are not in `gone`, in their order in `s`. */
  function Keep(s: seq<Connection>, gone: set<Connection>): (r: seq<Connection>)
    ensures |r| <= |s|
    ensures forall c | c in r :: c in s && c !in gone
    ensures forall c | c in s && c !in gone :: c in r
  {
    if s == [] then []
    else
      var init := Keep(s[..|s| - 1], gone);
      assert s == s[..|s| - 1] + [s[|s| - 1]];
      if s[|s| - 1] in gone then init else init + [s[|s| - 1]]
  }

  /** The position of the first occurrence of `c` in `s`. */
  function FirstIndex(s: seq<Connection>, c: Connection): (i: nat)
    requires c in s
    ensures i < |s| && s[i] == c && c !in s[..i]
  {
    if s[0] == c then 0
    else
      assert s == [s[0]] + s[1..];
      var k := FirstIndex(s[1..], c);
      assert s[..k + 1] == [s[0]] + s[1..][..k];
      1 + k
  }

  /** Python's `list.remove`: drops the first occurrence of `c`. */
  function Remove(s: seq<Connection>, c: Connection): (r: seq<Connection>)
    requires c in s
    ensures |r| == |s| - 1
    ensures multiset(r) == multiset(s) - multiset{c}
  {
    var i := FirstIndex(s, c);
    assert s == s[..i] + [c] + s[i + 1..];
    s[..i] + s[i + 1..]
  }

  // ---------------------------------------------------------------------
  // Fan-out

  /** One `Send(w, text)` per target, in target order. */
  function Notify(targets: seq<Connection>, text: string): (r: seq<Event>)
    ensures |r| == |targets|
    ensures forall i | 0 <= i < |targets| :: r[i] == Send(targets[i], text)
  {
    if targets == [] then []
    else Notify(targets[..|targets| - 1], text) + [Send(targets[|targets| - 1], text)]
  }

  /** One `Close(w)` per target, in target order. */
  function Closes(targets: seq<Connection>): (r: seq<Event>)
    ensures |r| == |targets|
    ensures forall i | 0 <= i < |targets| :: r[i] == Close(targets[i])
  {
    if targets == [] then []
    else Closes(targets[..|targets| - 1]) + [Close(targets[|targets| - 1])]
  }

  /** The fan-out of each text in turn from `sender` to every other member. */
  function Relayed(registry: seq<Connection>, sender: Connection, texts: seq<string>): (r: seq<Event>)
    ensures |r| == |texts| * |Keep(registry, {sender})|
  {
    if texts == [] then []
    else
      var others := Keep(registry, {sender});
      var n := |texts| - 1;
      assert n * |others| + |others| == |texts| * |others|;
      Relayed(registry, sender, texts[..n]) + Notify(others, texts[n])
  }

  /** Where the relay loop stops: the first message that is not text, or
      the end of the stream. */
  function StopIndex(msgs: seq<Message>): (k: nat)
    ensures k <= |msgs|
    ensures forall i | 0 <= i < k :: msgs[i].Text?
    ensures k < |msgs| ==> !msgs[k].Text?
  {
    if msgs == [] || !msgs[0].Text? then 0
    else
      var k := StopIndex(msgs[1..]);
      assert forall i | 1 <= i < k + 1 :: msgs[i] == msgs[1..][i - 1];
      1 + k
  }

  /** The payloads the relay loop consumes: those of the leading run of
      text messages, in arrival order. */
  function Texts(msgs: seq<Message>): (r: seq<string>)
    ensures |r| == StopIndex(msgs)
    ensures forall i | 0 <= i < |r| :: msgs[i] == Text(r[i])
  {
    seq(StopIndex(msgs), i requires 0 <= i < StopIndex(msgs) => msgs[i].data)
  }

  // ---------------------------------------------------------------------
  // Lemmas about the fan-out

  /** A notice goes to exactly the given targets, with exactly its text. */
  lemma NotifyReaches(targets: seq<Connection>, text: string, e: Event)
    ensures e in Notify(targets, text) <==> e.Send? && e.target in targets && e.text == text
  {
    if e.Send? && e.target in targets && e.text == text {
      var i :| 0 <= i < |targets| && targets[i] == e.target;
      assert Notify(targets, text)[i] == e;
    }
  }

  /** A relayed text reaches exactly the other members, unmodified. */
  lemma RelayReachesOthers(registry: seq<Connection>, sender: Connection, payload: string, e: Event)
    ensures e in Notify(Keep(registry, {sender}), payload) <==>
            e.Send? && e.target in registry && e.target != sender && e.text == payload
  {
    NotifyReaches(Keep(registry, {sender}), payload, e);
  }

  /** A relay loop sends only texts it read, only to members, never to the
      sender. */
  lemma {:induction false} RelayedNeverEchoes(registry: seq<Connection>, sender: Connection, texts: seq<string>)
    ensures forall e | e in Relayed(registry, sender, texts) ::
              e.Send? && e.target in registry && e.target != sender && e.text in texts
  {
    if texts != [] {
      var init := texts[..|texts| - 1];
      var t := texts[|texts| - 1];
      RelayedNeverEchoes(registry, sender, init);
      forall e | e in Notify(Keep(registry, {sender}), t)
        ensures e.Send? && e.target in registry && e.target != sender && e.text == t
      {
        RelayReachesOthers(registry, sender, t, e);
      }
      assert forall x | x in init :: x in texts;
    }
  }

  /** Each member of a duplicate-free registry is closed exactly once, and
      nothing else is closed or sent. */
  lemma {:induction false} ClosesOnce(s: seq<Connection>, w: Connection)
    requires Distinct(s)
    ensures multiset(Closes(s))[Close(w)] == if w in s then 1 else 0
    ensures forall e | e in Closes(s) :: e.Close? && e.target in s
  {
    if s != [] {
      var init := s[..|s| - 1];
      var x := s[|s| - 1];
      assert s == init + [x];
      assert Distinct(init);
      ClosesOnce(init, w);
      assert Closes(s) == Closes(init) + [Close(x)];
      if w == x {
        assert x !in init;
      }
    }
  }

  /** The stop position is the only one before which everything is text
      and at which a non-text message (or the end) is found. */
  lemma {:induction false} StopIndexUnique(msgs: seq<Message>, k: nat)
    requires k <= |msgs|
    requires forall i | 0 <= i < k :: msgs[i].Text?
    requires k < |msgs| ==> !msgs[k].Text?
    ensures StopIndex(msgs) == k
  {
    if k > 0 {
      assert forall i | 0 <= i < k - 1 :: msgs[1..][i] == msgs[i + 1];
      StopIndexUnique(msgs[1..], k - 1);
    }
  }

  /** Once a non-text message has been read, nothing after it is relayed. */
  lemma StopIgnoresRest(msgs: seq<Message>, rest: seq<Message>)
    requires StopIndex(msgs) < |msgs|
    ensures Texts(msgs + rest) == Texts(msgs)
  {
    var k := StopIndex(msgs);
    assert forall i | 0 <= i <= k :: (msgs + rest)[i] == msgs[i];
    StopIndexUnique(msgs + rest, k);
  }

  // The next two lemmas are solver hints: plain sequence identities, kept
  // apart so that the methods using them stay cheap to verify.

  lemma TwoSteps(a: seq<Step>, x: Step, y: Step)
    ensures a + [x] + [y] == a + [x, y]
  {
  }

  lemma AppendAssoc(a: seq<Event>, b: seq<Event>, c: seq<Event>)
    ensures (a + b) + c == a + (b + c)
  {
  }

  lemma RelayedStep(registry: seq<Connection>, sender: Connection, texts: seq<string>, t: string)
    ensures Relayed(registry, sender, texts + [t])
         == Relayed(registry, sender, texts) + Notify(Keep(registry, {sender}), t)
  {
    assert (texts + [t])[..|texts|] == texts;
  }

  // ---------------------------------------------------------------------
  // Lemmas about Keep and Remove

  lemma {:induction false} KeepAppend(s: seq<Connection>, t: seq<Connection>, gone: set<Connection>)
    ensures Keep(s + t, gone) == Keep(s, gone) + Keep(t, gone)
  {
    if t == [] {
      assert s + t == s;
    } else {
      var init := t[..|t| - 1];
      assert (s + t)[..|s + t| - 1] == s + init;
      KeepAppend(s, init, gone);
    }
  }

  lemma {:induction false} KeepNothing(s: seq<Connection>, gone: set<Connection>)
    requires forall c | c in s :: c !in gone
    ensures Keep(s, gone) == s
  {
    if s != [] {
      assert s == s[..|s| - 1] + [s[|s| - 1]];
      KeepNothing(s[..|s| - 1], gone);
    }
  }

  lemma {:induction false} KeepTwice(s: seq<Connection>, a: set<Connection>, b: set<Connection>)
    ensures Keep(Keep(s, a), b) == Keep(s, a + b)
  {
    if s != [] {
      var init := s[..|s| - 1];
      var x := s[|s| - 1];
      KeepTwice(init, a, b);
      if x !in a {
        KeepAppend(Keep(init, a), [x], b);
        assert [x][..0] == [];
      }
    }
  }

  lemma {:induction false} KeepDistinct(s: seq<Connection>, gone: set<Connection>)
    requires Distinct(s)
    ensures Distinct(Keep(s, gone))
  {
    if s != [] {
      var init := s[..|s| - 1];
      var x := s[|s| - 1];
      assert s == init + [x];
      assert Distinct(init);
      KeepDistinct(init, gone);
      assert x !in init;
    }
  }

  /** In a duplicate-free list, removing `c` is filtering it out: the others
      keep their relative order, and `c` is gone for good. */
  lemma RemoveDistinct(s: seq<Connection>, c: Connection)
    requires Distinct(s) && c in s
    ensures Remove(s, c) == Keep(s, {c})
    ensures c !in Remove(s, c) && Distinct(Remove(s, c))
  {
    var i := FirstIndex(s, c);
    var before, after := s[..i], s[i + 1..];
    assert s == before + [c] + after;
    assert c !in after by {
      forall j | 0 <= j < |after| ensures after[j] != c {
        assert after[j] == s[i + 1 + j];
      }
    }
    KeepNothing(before, {c});
    KeepNothing(after, {c});
    KeepAppend(before + [c], after, {c});
    KeepAppend(before, [c], {c});
    assert [c][..0] == [];
    KeepDistinct(s, {c});
  }

  /** Removing the member that was appended last restores the list. */
  lemma RemoveLast(s: seq<Connection>, c: Connection)
    requires c !in s
    ensures Remove(s + [c], c) == s
  {
    var i := FirstIndex(s + [c], c);
    assert forall j | 0 <= j < |s| :: (s + [c])[j] == s[j];
    assert i == |s|;
    assert (s + [c])[..|s|] == s;
  }

  // ---------------------------------------------------------------------
  // Registry history from joins and leaves

  /** A membership change: an append at join time, a removal at leave time. */
  datatype Step = Joined(conn: Connection) | Left(conn: Connection)

  /** The registry after `steps`, starting from the empty list; `None` once a
      leave finds its connection absent (`list.remove` raises). */
  function Replay(steps: seq<Step>): (r: Option<seq<Connection>>)
    ensures r.Some? ==> forall c | c in r.value :: Joined(c) in steps
  {
    if steps == [] then Some([])
    else
      match Replay(steps[..|steps| - 1])
      case None => None
      case Some(reg) =>
        match steps[|steps| - 1]
        case Joined(c) => Some(reg + [c])
        case Left(c) => if c in reg then Some(Remove(reg, c)) else None
  }

  /** The connections that joined, in join order. */
  function JoinOrder(steps: seq<Step>): seq<Connection> {
    if steps == [] then []
    else
      var init := JoinOrder(steps[..|steps| - 1]);
      match steps[|steps| - 1]
      case Joined(c) => init + [c]
      case Left(_) => init
  }

  lemma {:induction false} JoinOrderFromTrace(steps: seq<Step>)
    ensures forall c | c in JoinOrder(steps) :: Joined(c) in steps
  {
    if steps != [] {
      JoinOrderFromTrace(steps[..|steps| - 1]);
      assert steps == steps[..|steps| - 1] + [steps[|steps| - 1]];
    }
  }

  /** The connections that left. */
  function Departed(steps: seq<Step>): set<Connection> {
    if steps == [] then {}
    else
      var init := Departed(steps[..|steps| - 1]);
      match steps[|steps| - 1]
      case Joined(_) => init
      case Left(c) => init + {c}
  }

  /** Every connection joins at most once and leaves at most once, after it
      joined: what one session per fresh connection produces. */
  predicate WellFormed(steps: seq<Step>) {
    steps == [] ||
    (var init := steps[..|steps| - 1];
     WellFormed(init) &&
     match steps[|steps| - 1]
     case Joined(c) => c !in JoinOrder(init)
     case Left(c) => c in JoinOrder(init) && c !in Departed(init))
  }

  /** Starting from the empty list, the registry is the joined connections
      minus the departed ones, in join order, and never holds a duplicate. */
  lemma {:induction false} ReplayLive(steps: seq<Step>)
    requires WellFormed(steps)
    ensures Replay(steps) == Some(Keep(JoinOrder(steps), Departed(steps)))
    ensures Distinct(JoinOrder(steps)) && Distinct(Keep(JoinOrder(steps), Departed(steps)))
    ensures forall c | c in Departed(steps) :: c in JoinOrder(steps)
  {
    if steps != [] {
      var init := steps[..|steps| - 1];
      ReplayLive(init);
      var order, gone := JoinOrder(init), Departed(init);
      var reg := Keep(order, gone);
      match steps[|steps| - 1]
      case Joined(c) =>
        KeepAppend(order, [c], gone);
        assert [c][..0] == [];
        assert Distinct(order + [c]);
        KeepDistinct(order + [c], gone);
      case Left(c) =>
        assert c in reg;
        RemoveDistinct(reg, c);
        KeepTwice(order, gone, {c});
    }
  }

  /** A join of a connection that never joined keeps the trace well formed
      and appends the connection to the registry. */
  lemma JoinStep(steps: seq<Step>, reg: seq<Connection>, c: Connection)
    requires WellFormed(steps) && Replay(steps) == Some(reg) && Joined(c) !in steps
    ensures WellFormed(steps + [Joined(c)]) && Replay(steps + [Joined(c)]) == Some(reg + [c])
    ensures c !in reg
    ensures Distinct(reg + [c]) && reg + [c] == Keep(JoinOrder(steps + [Joined(c)]), Departed(steps + [Joined(c)]))
  {
    JoinOrderFromTrace(steps);
    ReplayLive(steps);
    assert (steps + [Joined(c)])[..|steps|] == steps;
    ReplayLive(steps + [Joined(c)]);
  }

  /** A leave of a registered connection keeps the trace well formed and
      removes the connection from the registry. */
  lemma LeaveStep(steps: seq<Step>, reg: seq<Connection>, c: Connection)
    requires WellFormed(steps) && Replay(steps) == Some(reg) && c in reg
    ensures WellFormed(steps + [Left(c)]) && Replay(steps + [Left(c)]) == Some(Remove(reg, c))
    ensures c !in Remove(reg, c) && Distinct(Remove(reg, c))
    ensures Remove(reg, c) == Keep(JoinOrder(steps + [Left(c)]), Departed(steps + [Left(c)]))
  {
    ReplayLive(steps);
    RemoveDistinct(reg, c);
    assert (steps + [Left(c)])[..|steps|] == steps;
    ReplayLive(steps + [Left(c)]);
  }

  // ---------------------------------------------------------------------
  // The shared state

  /** The application's state: `app["sockets"]`, the log of what was sent
      or closed, and (ghost) the membership changes so far. */
  class Room {
    var registry: seq<Connection>
    var outbox: seq<Event>
    ghost var trace: seq<Step>

    ghost predicate Valid()
      reads this
    {
      WellFormed(trace) && Replay(trace) == Some(registry)
    }

    /** `app["sockets"] = []`. */
    constructor ()
      ensures Valid() && registry == [] && outbox == [] && trace == []
    {
      registry, outbox, trace := [], [], [];
    }

    /** Send `text` to every member, in registry order. */
    method Broadcast(text: string)
      modifies this`outbox
      ensures outbox == old(outbox) + Notify(registry, text)
    {
      var i := 0;
      while i < |registry|
        invariant 0 <= i <= |registry|
        invariant outbox == old(outbox) + Notify(registry[..i], text)
      {
        assert registry[..i + 1][..i] == registry[..i];
        outbox := outbox + [Send(registry[i], text)];
        i := i + 1;
      }
      assert registry[..i] == registry;
    }

    /** Welcome the newcomer, tell every present member, then register it. */
    method Join(h: Connection)
      requires Valid() && Joined(h) !in trace
      modifies this
      ensures Valid() && trace == old(trace) + [Joined(h)]
      ensures registry == old(registry) + [h]
      ensures outbox == old(outbox) + [Send(h, Welcome)] + Notify(old(registry), JoinNotice)
      ensures h !in old(registry) && Send(h, JoinNotice) !in Notify(old(registry), JoinNotice)
    {
      outbox := outbox + [Send(h, Welcome)];
      Broadcast(JoinNotice);
      JoinStep(trace, registry, h);
      NotifyReaches(registry, JoinNotice, Send(h, JoinNotice));
      registry := registry + [h];
      trace := trace + [Joined(h)];
    }

    /** Send one text payload, unchanged, to every member except its sender. */
    method RelayText(sender: Connection, payload: string)
      modifies this`outbox
      ensures outbox == old(outbox) + Notify(Keep(registry, {sender}), payload)
    {
      var i := 0;
      while i < |registry|
        invariant 0 <= i <= |registry|
        invariant outbox == old(outbox) + Notify(Keep(registry[..i], {sender}), payload)
      {
        assert registry[..i + 1][..i] == registry[..i];
        if registry[i] != sender {
          outbox := outbox + [Send(registry[i], payload)];
        }
        i := i + 1;
      }
      assert registry[..i] == registry;
    }

    /** `async for msg in resp`: relay text messages until the stream ends or
        a non-text message arrives; `read` is how many items were taken. */
    method RelayLoop(sender: Connection, incoming: seq<Message>) returns (read: nat)
      modifies this`outbox
      ensures outbox == old(outbox) + Relayed(registry, sender, Texts(incoming))
      ensures read == if StopIndex(incoming) < |incoming| then StopIndex(incoming) + 1 else |incoming|
    {
      ghost var texts := Texts(incoming);
      var i := 0;
      while i < |incoming| && incoming[i].Text?
        invariant 0 <= i <= |texts|
        invariant outbox == old(outbox) + Relayed(registry, sender, texts[..i])
      {
        var payload := incoming[i].data;
        assert incoming[i] == Text(texts[i]);
        ghost var before := outbox;
        RelayText(sender, payload);
        ghost var batch := Notify(Keep(registry, {sender}), payload);
        assert outbox == before + batch;
        AppendAssoc(old(outbox), Relayed(registry, sender, texts[..i]), batch);
        RelayedStep(registry, sender, texts[..i], payload);
        assert texts[..i] + [payload] == texts[..i + 1];
        i := i + 1;
      }
      assert texts[..i] == texts;
      read := if i < |incoming| then i + 1 else i;
    }

    /** Deregister `h`, then tell every remaining member. */
    method Leave(h: Connection)
      requires Valid() && h in registry
      modifies this
      ensures Valid() && trace == old(trace) + [Left(h)]
      ensures registry == Remove(old(registry), h)
      ensures h !in registry
      ensures outbox == old(outbox) + Notify(registry, LeaveNotice)
    {
      LeaveStep(trace, registry, h);
      registry := Remove(registry, h);
      trace := trace + [Left(h)];
      Broadcast(LeaveNotice);
    }

    /** `on_shutdown`: close every member, in order; the list is kept. */
    method Shutdown()
      modifies this`outbox
      ensures outbox == old(outbox) + Closes(registry)
    {
      var i := 0;
      while i < |registry|
        invariant 0 <= i <= |registry|
        invariant outbox == old(outbox) + Closes(registry[..i])
      {
        assert registry[..i + 1][..i] == registry[..i];
        outbox := outbox + [Close(registry[i])];
        i := i + 1;
      }
      assert registry[..i] == registry;
    }

    /** The upgraded branch of `wshandler`, run without interleaving: a
        fresh connection joins, relays its incoming texts and leaves. */
    method Session(incoming: seq<Message>) returns (conn: Connection)
      requires Valid()
      modifies this
      ensures Valid() && registry == old(registry) && fresh(conn)
      ensures trace == old(trace) + [Joined(conn), Left(conn)]
      ensures outbox == old(outbox) + [Send(conn, Welcome)] + Notify(old(registry), JoinNotice)
                        + Relayed(old(registry) + [conn], conn, Texts(incoming))
                        + Notify(old(registry), LeaveNotice)
    {
      conn := new Connection();
      assert Joined(conn) !in trace;
      ghost var members, steps := registry, trace;
      Join(conn);
      var _ := RelayLoop(conn, incoming);
      RemoveLast(members, conn);
      Leave(conn);
      TwoSteps(steps, Joined(conn), Left(conn));
    }

    /** `wshandler` for one request: the static page when the connection
        cannot be upgraded, otherwise a whole session. */
    method Serve(canPrepare: bool, page: seq<byte>, incoming: seq<Message>) returns (reply: Reply)
      requires Valid()
      modifies this
      ensures Valid() && registry == old(registry)
      ensures !canPrepare ==> reply == Page(page, HtmlType) && outbox == old(outbox) && trace == old(trace)
      ensures canPrepare ==>
        reply.Socket? && fresh(reply.conn) &&
        trace == old(trace) + [Joined(reply.conn), Left(reply.conn)] &&
        outbox == old(outbox) + [Send(reply.conn, Welcome)] + Notify(old(registry), JoinNotice)
                  + Relayed(old(registry) + [reply.conn], reply.conn, Texts(incoming))
                  + Notify(old(registry), LeaveNotice)
    {
      match Route(canPrepare, page)
      case Some(answer) =>
        reply := answer;
      case None =>
        var conn := Session(incoming);
        reply := Socket(conn);
    }
  }

  /** In every reachable state the registry holds no duplicate and is the
      joined connections minus the departed ones, in join order. */
  lemma Registered(room: Room)
    requires room.Valid()
    ensures Distinct(room.registry)
    ensures room.registry == Keep(JoinOrder(room.trace), Departed(room.trace))
  {
    ReplayLive(room.trace);
  }
}
