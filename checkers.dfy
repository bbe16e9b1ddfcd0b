/** The earlier, recursive checkers: one checker per language node, each
    answering every pushed event with a verdict and updating its own state
    (src/aido_nodes/test_protocol.py). A checker's state is a value here;
    `ProtocolChecker` is the object that holds it and changes it in place. */
module CombinatorCheckers {
  import opened Protocol
  import opened Wrappers

  /** The verdicts of these checkers (they carry no message). */
  datatype Result = Enough | Unexpected | NeedMore

  /** The state of one checker. The repetition checkers keep `initial`, the
      state of a fresh checker for their child, and restart from it. */
  datatype Checker =
    | IRChecker(channel: ChannelName, received: bool)
    | OPChecker(channel: ChannelName, received: bool)
    | SequenceChecker(toBeSatisfied: seq<Checker>)
    | EitherChecker(branches: map<nat, Checker>)
    | ZeroOrMoreChecker(initial: Checker, current: Option<Checker>)
    | OneOrMoreChecker(initial: Checker, nfound: nat, current: Option<Checker>)
    | ZeroOrOneChecker(initial: Checker, nfound: nat, current: Option<Checker>)

  /** The fresh checker for a language. */
  function GetChecker(l: Language): Checker
  {
    match l
    case ExpectOutputProduced(c) => OPChecker(c, false)
    case ExpectInputReceived(c) => IRChecker(c, false)
    case InSequence(ls) => SequenceChecker(seq(|ls|, i requires 0 <= i < |ls| => GetChecker(ls[i])))
    case ZeroOrMore(c) => ZeroOrMoreChecker(GetChecker(c), None)
    case OneOrMore(c) => OneOrMoreChecker(GetChecker(c), 0, None)
    case ZeroOrOne(c) => ZeroOrOneChecker(GetChecker(c), 0, None)
    case Either(ls) => EitherChecker(map i | 0 <= i < |ls| :: GetChecker(ls[i]))
  }

  /** The checker a repetition pushes into: the one in progress, or a fresh
      one. */
  function Inner(c: Checker): Checker
    requires c.ZeroOrMoreChecker? || c.OneOrMoreChecker? || c.ZeroOrOneChecker?
  {
    if c.current.Some? then c.current.value else c.initial
  }

  // ---------------------------------------------------------------------
  // push

  function PushState(c: Checker, e: Event): (Result, Checker)
    decreases c, 2
  {
    match c
    case IRChecker(_, _) => PushIR(c, e)
    case OPChecker(_, _) => PushOP(c, e)
    case SequenceChecker(_) => PushSequence(c, e)
    case EitherChecker(_) => PushEither(c, e)
    case ZeroOrMoreChecker(_, _) => PushZeroOrMore(c, e)
    case OneOrMoreChecker(_, _, _) => PushOneOrMore(c, e)
    case ZeroOrOneChecker(_, _, _) => PushZeroOrOne(c, e)
  }

  /** Enough exactly once, for an input on the right channel; anything else
      is Unexpected and leaves the checker as it was. */
  function PushIR(c: Checker, e: Event): (r: (Result, Checker))
    requires c.IRChecker?
    ensures r.0 == Enough <==> !c.received && e == InputReceived(c.channel)
    ensures r.0 != NeedMore
    ensures r.1 == IRChecker(c.channel, c.received || r.0 == Enough)
    decreases c, 0
  {
    if c.received then (Unexpected, c)
    else if !e.InputReceived? then (Unexpected, c)
    else if e.channel != c.channel then (Unexpected, c)
    else (Enough, IRChecker(c.channel, true))
  }

  /** Enough exactly once, for an output on the right channel; anything else
      is Unexpected and leaves the checker as it was. */
  function PushOP(c: Checker, e: Event): (r: (Result, Checker))
    requires c.OPChecker?
    ensures r.0 == Enough <==> !c.received && e == OutputProduced(c.channel)
    ensures r.0 != NeedMore
    ensures r.1 == OPChecker(c.channel, c.received || r.0 == Enough)
    decreases c, 0
  {
    if c.received then (Unexpected, c)
    else if !e.OutputProduced? then (Unexpected, c)
    else if e.channel != c.channel then (Unexpected, c)
    else (Enough, OPChecker(c.channel, true))
  }

  /** Delegates to the head; the head is dropped exactly when it answers
      Enough, and the sequence is Enough only when that head was the last. */
  function PushSequence(c: Checker, e: Event): (r: (Result, Checker))
    requires c.SequenceChecker?
    ensures r.1.SequenceChecker?
    ensures |c.toBeSatisfied| == 0 ==> r == (Unexpected, c)
    decreases c, 0
  {
    var items := c.toBeSatisfied;
    if |items| == 0 then (Unexpected, c)
    else
      var head := PushState(items[0], e);
      match head.0
      case Enough => (if |items| > 1 then NeedMore else Enough, SequenceChecker(items[1..]))
      case Unexpected => (Unexpected, SequenceChecker([head.1] + items[1..]))
      case NeedMore => (NeedMore, SequenceChecker([head.1] + items[1..]))
  }

  /** Pushes into every branch and drops the branches that answer
      Unexpected; Enough if any branch is, else NeedMore if any branch is,
      and Unexpected exactly when no branch is left. */
  function PushEither(c: Checker, e: Event): (r: (Result, Checker))
    requires c.EitherChecker?
    ensures r.1.EitherChecker?
    ensures r.0 == Unexpected <==> r.1.branches == map[]
    decreases c, 1
  {
    var kept := Survivors(c, e);
    if exists k | k in c.branches :: PushState(c.branches[k], e).0 == Enough then
      var k :| k in c.branches && PushState(c.branches[k], e).0 == Enough;
      assert k in kept;
      (Enough, EitherChecker(kept))
    else if exists k | k in c.branches :: PushState(c.branches[k], e).0 == NeedMore then
      var k :| k in c.branches && PushState(c.branches[k], e).0 == NeedMore;
      assert k in kept;
      (NeedMore, EitherChecker(kept))
    else if kept == map[] then (Unexpected, EitherChecker(kept))
    else assert false; (Unexpected, EitherChecker(kept))
  }

  /** The branches that did not fail, each pushed. */
  function Survivors(c: Checker, e: Event): map<nat, Checker>
    requires c.EitherChecker?
    decreases c, 0
  {
    map k | k in c.branches && PushState(c.branches[k], e).0 != Unexpected :: PushState(c.branches[k], e).1
  }

  /** Passes on the verdict of the checker in progress (a fresh one when
      idle) and becomes idle again exactly when that checker is Enough. */
  function PushZeroOrMore(c: Checker, e: Event): (r: (Result, Checker))
    requires c.ZeroOrMoreChecker?
    ensures r.1.ZeroOrMoreChecker? && r.1.initial == c.initial
    ensures r.1.current.None? <==> r.0 == Enough
    decreases c, 0
  {
    var inner := if c.current.Some? then PushState(c.current.value, e) else PushState(c.initial, e);
    match inner.0
    case Unexpected => (Unexpected, ZeroOrMoreChecker(c.initial, Some(inner.1)))
    case Enough => (Enough, ZeroOrMoreChecker(c.initial, None))
    case NeedMore => (NeedMore, ZeroOrMoreChecker(c.initial, Some(inner.1)))
  }

  /** As ZeroOrMore, and `nfound` counts the completed occurrences. */
  function PushOneOrMore(c: Checker, e: Event): (r: (Result, Checker))
    requires c.OneOrMoreChecker?
    ensures r.1.OneOrMoreChecker? && r.1.initial == c.initial
    ensures r.1.current.None? <==> r.0 == Enough
    ensures r.1.nfound == c.nfound + (if r.0 == Enough then 1 else 0)
    decreases c, 0
  {
    var inner := if c.current.Some? then PushState(c.current.value, e) else PushState(c.initial, e);
    match inner.0
    case Unexpected => (Unexpected, OneOrMoreChecker(c.initial, c.nfound, Some(inner.1)))
    case Enough => (Enough, OneOrMoreChecker(c.initial, c.nfound + 1, None))
    case NeedMore => (NeedMore, OneOrMoreChecker(c.initial, c.nfound, Some(inner.1)))
  }

  /** Once one occurrence is complete every push is Unexpected and changes
      nothing; before that, passes on the inner verdict and keeps the inner
      checker, counting a completion in `nfound`. */
  function PushZeroOrOne(c: Checker, e: Event): (r: (Result, Checker))
    requires c.ZeroOrOneChecker?
    ensures c.nfound == 1 ==> r == (Unexpected, c)
    ensures r.1.ZeroOrOneChecker? && r.1.initial == c.initial && r.1.nfound <= c.nfound + 1
    decreases c, 0
  {
    if c.nfound == 1 then (Unexpected, c)
    else
      var inner := if c.current.Some? then PushState(c.current.value, e) else PushState(c.initial, e);
      match inner.0
      case Unexpected => (Unexpected, ZeroOrOneChecker(c.initial, c.nfound, Some(inner.1)))
      case Enough => (Enough, ZeroOrOneChecker(c.initial, c.nfound + 1, Some(inner.1)))
      case NeedMore => (NeedMore, ZeroOrOneChecker(c.initial, c.nfound, Some(inner.1)))
  }

  // ---------------------------------------------------------------------
  // What a push does, in terms of the children's pushes. These are lemmas
  // rather than postconditions so that a push on a checker of unknown shape
  // does not unfold its descendants without end.

  /** Delegates to the head; the head is dropped exactly when it answers
      Enough, the rest is kept in order, and the sequence is Enough only
      when that head was the last. */
  lemma PushSequenceSpec(c: Checker, e: Event)
    requires c.SequenceChecker? && |c.toBeSatisfied| > 0
    ensures var head := PushState(c.toBeSatisfied[0], e);
            var r := PushState(c, e);
            && (r.0 == Unexpected <==> head.0 == Unexpected)
            && (r.0 == Enough <==> head.0 == Enough && |c.toBeSatisfied| == 1)
            && (head.0 == Enough ==> r.1 == SequenceChecker(c.toBeSatisfied[1..]))
            && (head.0 != Enough ==> r.1 == SequenceChecker([head.1] + c.toBeSatisfied[1..]))
  {
  }

  /** An alternative keeps exactly the branches that did not answer
      Unexpected, each pushed once. */
  lemma PushEitherBranches(c: Checker, e: Event)
    requires c.EitherChecker?
    ensures var r := PushState(c, e);
            && r.1.EitherChecker?
            && r.1.branches.Keys == set k | k in c.branches && PushState(c.branches[k], e).0 != Unexpected
            && (forall k | k in r.1.branches :: k in c.branches && r.1.branches[k] == PushState(c.branches[k], e).1)
  {
    assert PushState(c, e).1 == EitherChecker(Survivors(c, e));
  }

  /** An alternative is Enough if one of its branches is, else NeedMore if
      one of them is. */
  lemma PushEitherVerdict(c: Checker, e: Event)
    requires c.EitherChecker?
    ensures var r := PushState(c, e);
            && (r.0 == Enough <==> exists k | k in c.branches :: PushState(c.branches[k], e).0 == Enough)
            && (r.0 == NeedMore <==>
                  && (forall k | k in c.branches :: PushState(c.branches[k], e).0 != Enough)
                  && (exists k | k in c.branches :: PushState(c.branches[k], e).0 == NeedMore))
  {
  }

  /** The repetitions pass on the verdict of the checker they push into and
      keep it unless it completed (`ZeroOrOne` keeps it even then); once
      `ZeroOrOne` has its occurrence it rejects and stays as it is. */
  lemma PushRepetitionSpec(c: Checker, e: Event)
    requires c.ZeroOrMoreChecker? || c.OneOrMoreChecker? || (c.ZeroOrOneChecker? && c.nfound != 1)
    ensures var inner := PushState(Inner(c), e);
            var r := PushState(c, e);
            && r.0 == inner.0
            && (c.ZeroOrMoreChecker? ==>
                  r.1 == ZeroOrMoreChecker(c.initial, if r.0 == Enough then None else Some(inner.1)))
            && (c.OneOrMoreChecker? ==>
                  r.1 == OneOrMoreChecker(c.initial, c.nfound + (if r.0 == Enough then 1 else 0),
                                          if r.0 == Enough then None else Some(inner.1)))
            && (c.ZeroOrOneChecker? ==>
                  r.1 == ZeroOrOneChecker(c.initial, c.nfound + (if r.0 == Enough then 1 else 0), Some(inner.1)))
  {
  }

  /** An alternative finishes Enough exactly when one of its branches does;
      a repetition with an occurrence in progress finishes as that
      occurrence does. */
  lemma FinishSpec(c: Checker)
    ensures c.EitherChecker? ==>
              (FinishState(c) == Enough <==> exists k | k in c.branches :: FinishState(c.branches[k]) == Enough)
    ensures c.OneOrMoreChecker? && c.nfound > 0 && c.current.Some? ==>
              FinishState(c) == FinishState(c.current.value)
    ensures c.ZeroOrOneChecker? && c.current.Some? ==> FinishState(c) == FinishState(c.current.value)
  {
  }

  // ---------------------------------------------------------------------
  // finish

  function FinishState(c: Checker): Result
    decreases c, 1
  {
    match c
    case IRChecker(_, _) => FinishLeaf(c)
    case OPChecker(_, _) => FinishLeaf(c)
    case SequenceChecker(_) => FinishSequence(c)
    case EitherChecker(_) => FinishEither(c)
    case ZeroOrMoreChecker(_, _) => FinishZeroOrMore(c)
    case OneOrMoreChecker(_, _, _) => FinishOneOrMore(c)
    case ZeroOrOneChecker(_, _, _) => FinishZeroOrOne(c)
  }

  /** Enough exactly when the expected event has been received. */
  function FinishLeaf(c: Checker): (r: Result)
    requires c.IRChecker? || c.OPChecker?
    ensures r == Enough <==> c.received
    ensures r != Unexpected
    decreases c, 0
  {
    if c.received then Enough else NeedMore
  }

  /** NeedMore exactly while items remain, Enough once none do. */
  function FinishSequence(c: Checker): (r: Result)
    requires c.SequenceChecker?
    ensures r == NeedMore <==> |c.toBeSatisfied| > 0
    ensures r != Unexpected
    decreases c, 0
  {
    if |c.toBeSatisfied| > 0 then NeedMore else Enough
  }

  /** Unexpected with no branch left, Enough when some remaining branch
      finishes Enough, NeedMore otherwise. */
  function FinishEither(c: Checker): (r: Result)
    requires c.EitherChecker?
    ensures r == Unexpected <==> c.branches == map[]
    decreases c, 0
  {
    if c.branches == map[] then Unexpected
    else if exists k | k in c.branches :: FinishState(c.branches[k]) == Enough then Enough
    else NeedMore
  }

  /** Enough exactly when idle. */
  function FinishZeroOrMore(c: Checker): (r: Result)
    requires c.ZeroOrMoreChecker?
    ensures r == Enough <==> c.current.None?
    ensures r != Unexpected
    decreases c, 0
  {
    if c.current.Some? then NeedMore else Enough
  }

  /** NeedMore until one occurrence is complete; then the verdict of the
      occurrence in progress, or Enough when idle. */
  function FinishOneOrMore(c: Checker): (r: Result)
    requires c.OneOrMoreChecker?
    ensures c.nfound == 0 ==> r == NeedMore
    ensures c.nfound > 0 && c.current.None? ==> r == Enough
    decreases c, 0
  {
    if c.nfound == 0 then NeedMore
    else if c.current.Some? then FinishState(c.current.value)
    else Enough
  }

  /** Enough when nothing has started, else the verdict of the occurrence
      (complete or not). */
  function FinishZeroOrOne(c: Checker): (r: Result)
    requires c.ZeroOrOneChecker?
    ensures c.current.None? ==> r == Enough
    decreases c, 0
  {
    if c.current.Some? then FinishState(c.current.value) else Enough
  }

  // ---------------------------------------------------------------------
  // The checker object and the test driver

  /** Pushes `events` in order: the verdict after each, and the final state. */
  function Replay(c: Checker, events: seq<Event>): (r: (seq<Result>, Checker))
    ensures |r.0| == |events|
  {
    if |events| == 0 then ([], c)
    else
      var before := Replay(c, events[..|events| - 1]);
      var last := PushState(before.1, events[|events| - 1]);
      (before.0 + [last.0], last.1)
  }

  /** What a test run checks: pushing as many events as there are expected
      verdicts (the shorter of the two lists decides) gives those verdicts,
      and `finish` then gives `final`. */
  predicate Passes(l: Language, events: seq<Event>, expected: seq<Result>, final: Result)
  {
    var n := if |events| < |expected| then |events| else |expected|;
    var run := Replay(GetChecker(l), events[..n]);
    run.0 == expected[..n] && FinishState(run.1) == final
  }

  class ProtocolChecker {
    var state: Checker

    constructor (l: Language)
      ensures state == GetChecker(l)
    {
      state := GetChecker(l);
    }

    method Push(e: Event) returns (r: Result)
      modifies this
      ensures (r, state) == PushState(old(state), e)
    {
      var res := PushState(state, e);
      r, state := res.0, res.1;
    }

    method Finish() returns (r: Result)
      ensures r == FinishState(state)
    {
      r := FinishState(state);
    }
  }

  /** Runs a fresh checker over the events and reports whether every verdict
      and the final one are as expected (the source raises otherwise). */
  method AssertSeq(l: Language, events: seq<Event>, expected: seq<Result>, final: Result) returns (ok: bool)
    ensures ok <==> Passes(l, events, expected, final)
  {
    var pc := new ProtocolChecker(l);
    var n := if |events| < |expected| then |events| else |expected|;
    ghost var start := GetChecker(l);
    var i := 0;
    while i < n
      invariant 0 <= i <= n
      invariant pc.state == Replay(start, events[..i]).1
      invariant Replay(start, events[..i]).0 == expected[..i]
    {
      var res := pc.Push(events[i]);
      ReplayStep(start, events, i);
      if res != expected[i] {
        MismatchFails(l, events, expected, final, i);
        return false;
      }
      assert expected[..i + 1] == expected[..i] + [expected[i]];
      i := i + 1;
    }
    var res := pc.Finish();
    ok := res == final;
    assert events[..n] == events[..i];
  }

  /** A verdict that differs from the expected one fails the run. */
  lemma MismatchFails(l: Language, events: seq<Event>, expected: seq<Result>, final: Result, i: nat)
    requires i < |events| && i < |expected|
    requires Replay(GetChecker(l), events[..i + 1]).0[i] != expected[i]
    ensures !Passes(l, events, expected, final)
  {
    var n := if |events| < |expected| then |events| else |expected|;
    ReplayPrefix(GetChecker(l), events[..n], i + 1);
    assert events[..n][..i + 1] == events[..i + 1];
  }

  /** Replaying one more event extends the verdicts by that event's push. */
  lemma ReplayStep(c: Checker, events: seq<Event>, i: nat)
    requires i < |events|
    ensures Replay(c, events[..i + 1]).0
            == Replay(c, events[..i]).0 + [PushState(Replay(c, events[..i]).1, events[i]).0]
    ensures Replay(c, events[..i + 1]).1 == PushState(Replay(c, events[..i]).1, events[i]).1
  {
    assert events[..i + 1][..i] == events[..i];
  }

  /** Replaying a prefix gives a prefix of the verdicts. */
  lemma {:induction false} ReplayPrefix(c: Checker, events: seq<Event>, k: nat)
    requires k <= |events|
    ensures Replay(c, events[..k]).0 == Replay(c, events).0[..k]
    decreases |events|
  {
    if k < |events| {
      var m := |events| - 1;
      assert events[..m][..k] == events[..k];
      ReplayPrefix(c, events[..m], k);
    } else {
      assert events[..k] == events;
    }
  }
}
