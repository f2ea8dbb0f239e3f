/** The accumulating calculator of coroutine.py: a generator that keeps the
    last result and the list of all results, and is driven by `send`. */
module Coroutine {

  /** What is sent into the generator: a pair of numbers to add, or the pair
      `('h', y)`, which asks for the history and ignores `y`. */
  datatype Input = Add(x: int, y: int) | ShowHistory(y: int)

  /** How many of the inputs are additions. */
  function AddCount(inputs: seq<Input>): nat {
    if inputs == [] then 0
    else AddCount(inputs[..|inputs| - 1]) + if inputs[|inputs| - 1].Add? then 1 else 0
  }

  /** The history after the given inputs: each sum, in the order sent. */
  function HistoryOf(inputs: seq<Input>): (h: seq<int>)
    ensures |h| == AddCount(inputs)
  {
    if inputs == [] then []
    else
      var init := HistoryOf(inputs[..|inputs| - 1]);
      match inputs[|inputs| - 1]
      case Add(x, y) => init + [x + y]
      case ShowHistory(_) => init
  }

  /** The result after the given inputs: the latest sum, or the initial 0. */
  function ResultOf(inputs: seq<Input>): (r: int)
    ensures AddCount(inputs) == 0 ==> r == 0
  {
    if inputs == [] then 0
    else
      match inputs[|inputs| - 1]
      case Add(x, y) => x + y
      case ShowHistory(_) => ResultOf(inputs[..|inputs| - 1])
  }

  /** The result is always the last entry of the history, or 0 while the
      history is empty. */
  lemma {:induction false} ResultIsLastEntry(inputs: seq<Input>)
    ensures ResultOf(inputs) == if HistoryOf(inputs) == [] then 0 else HistoryOf(inputs)[|HistoryOf(inputs)| - 1]
  {
    if inputs != [] {
      ResultIsLastEntry(inputs[..|inputs| - 1]);
    }
  }

  /** Feeding two runs of inputs one after the other: later sends only append
      to the history and never change an earlier entry. */
  lemma {:induction false} HistoryAppend(a: seq<Input>, b: seq<Input>)
    ensures HistoryOf(a + b) == HistoryOf(a) + HistoryOf(b)
  {
    if b == [] {
      assert a + b == a;
    } else {
      assert (a + b)[..|a + b| - 1] == a + b[..|b| - 1];
      HistoryAppend(a, b[..|b| - 1]);
    }
  }

  /** The history has one entry per `Add` input, and an `Add` input preceded
      by i additions contributes its sum as entry i. */
  lemma {:induction false} HistoryCountsAdds(inputs: seq<Input>, j: nat)
    requires j < |inputs| && inputs[j].Add?
    ensures AddCount(inputs[..j]) < |HistoryOf(inputs)|
    ensures HistoryOf(inputs)[AddCount(inputs[..j])] == inputs[j].x + inputs[j].y
  {
    assert inputs == inputs[..j] + ([inputs[j]] + inputs[j + 1..]);
    HistoryAppend(inputs[..j], [inputs[j]] + inputs[j + 1..]);
    HistoryAppend([inputs[j]], inputs[j + 1..]);
    assert HistoryOf([inputs[j]]) == [inputs[j].x + inputs[j].y] by {
      assert [inputs[j]][..0] == [];
    }
  }

  /** One more input: an addition appends its sum and becomes the result; a
      history query leaves both as they were. */
  lemma HistoryStep(inputs: seq<Input>, input: Input)
    ensures HistoryOf(inputs + [input]) ==
            if input.Add? then HistoryOf(inputs) + [input.x + input.y] else HistoryOf(inputs)
    ensures ResultOf(inputs + [input]) == if input.Add? then input.x + input.y else ResultOf(inputs)
  {
    assert (inputs + [input])[..|inputs|] == inputs;
  }

  /** The suspended generator `c = calc()`. */
  class Calc {
    var result: int
    var history: seq<int>
    /** Whether `next(c)` has run the body up to its first `yield`. */
    var primed: bool
    /** Everything sent so far. */
    ghost var sent: seq<Input>

    ghost predicate Valid()
      reads this
    {
      history == HistoryOf(sent) && result == ResultOf(sent) && (!primed ==> sent == [])
    }

    /** `calc()`: the body has not started; `history = []`, `result = 0`. */
    constructor ()
      ensures Valid() && !primed && sent == []
      ensures result == 0 && history == []
    {
      result, history, primed, sent := 0, [], false, [];
    }

    /** `next(c)`: run to the first `yield`, which gives the initial 0. */
    method Prime() returns (out: int)
      requires Valid() && !primed
      modifies this`primed
      ensures Valid() && primed && sent == old(sent)
      ensures out == 0 && result == 0 && history == []
    {
      primed := true;
      out := result;
    }

    /** `c.send(input)`: resume the loop and return what it yields next. */
    method Send(input: Input) returns (out: int)
      requires Valid() && primed
      modifies this`result, this`history, this`sent
      ensures Valid() && sent == old(sent) + [input]
      ensures input.Add? ==> result == input.x + input.y && history == old(history) + [result]
      ensures input.ShowHistory? ==> result == old(result) && history == old(history)
      ensures out == result
    {
      HistoryStep(sent, input);
      sent := sent + [input];
      match input {
        case Add(x, y) =>
          result := x + y;
          history := history + [result];
        case ShowHistory(_) =>
      }
      out := result;
    }
  }

  /** The driver at the end of coroutine.py: `outs` are the values that
      `next(c)` and the four sends return, `history` is what the history
      query prints. */
  method Script() returns (outs: seq<int>, history: seq<int>)
    ensures outs == [0, 3, 130, 666, 666] && history == [3, 130, 666]
  {
    var c := new Calc();
    var out := c.Prime();
    outs := [out];
    out := c.Send(Add(1, 2));
    outs := outs + [out];
    out := c.Send(Add(100, 30));
    outs := outs + [out];
    out := c.Send(Add(666, 0));
    outs := outs + [out];
    out := c.Send(ShowHistory(0));
    outs := outs + [out];
    history := c.history;
  }
}
