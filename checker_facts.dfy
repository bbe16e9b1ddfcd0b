/** Properties of the recursive checkers of module CombinatorCheckers that
    relate several pushes, or a fresh checker to its language. */
module CheckerFacts {
  import opened Protocol
  import opened Wrappers
  import opened CombinatorCheckers

  // ---------------------------------------------------------------------
  // A fresh checker's finish

  /** The languages whose fresh checker finishes Enough: the ones with an
      optional or repeatable top, an empty sequence, or an alternative with
      such a branch. `OneOrMore` needs one occurrence whatever its child. */
  predicate DoneWhenFresh(l: Language)
  {
    match l
    case ExpectInputReceived(_) => false
    case ExpectOutputProduced(_) => false
    case InSequence(ls) => |ls| == 0
    case Either(ls) => exists i | 0 <= i < |ls| :: DoneWhenFresh(ls[i])
    case ZeroOrOne(_) => true
    case ZeroOrMore(_) => true
    case OneOrMore(_) => false
  }

  /** Finishing a fresh checker: Enough exactly for the languages above, and
      Unexpected only for the alternative with no branch. */
  lemma {:induction false} FreshFinish(l: Language)
    ensures FinishState(GetChecker(l)) == Enough <==> DoneWhenFresh(l)
    ensures FinishState(GetChecker(l)) == Unexpected <==> l == Either([])
  {
    match l
    case Either(ls) =>
      var c := GetChecker(l);
      FinishSpec(c);
      if DoneWhenFresh(l) {
        var i :| 0 <= i < |ls| && DoneWhenFresh(ls[i]);
        FreshFinish(ls[i]);
        assert i in c.branches;
      }
      if FinishState(c) == Enough {
        var k :| k in c.branches && FinishState(c.branches[k]) == Enough;
        FreshFinish(ls[k]);
      }
      if |ls| > 0 {
        assert 0 in c.branches;
      }
    case _ =>
  }

  /** A language whose fresh checker is already satisfied admits the empty
      sequence. */
  lemma {:induction false} DoneWhenFreshIsNullable(l: Language)
    requires DoneWhenFresh(l)
    ensures Nullable(l)
  {
    match l
    case Either(ls) =>
      var i :| 0 <= i < |ls| && DoneWhenFresh(ls[i]);
      DoneWhenFreshIsNullable(ls[i]);
    case _ =>
  }

  // ---------------------------------------------------------------------
  // Checkers that can take no more events

  /** A leaf that has received its event, a sequence with nothing left, an
      alternative with no branch left, and an optional that has completed its
      one occurrence. */
  predicate Exhausted(c: Checker)
  {
    match c
    case IRChecker(_, received) => received
    case OPChecker(_, received) => received
    case SequenceChecker(items) => |items| == 0
    case EitherChecker(branches) => branches == map[]
    case ZeroOrMoreChecker(_, _) => false
    case OneOrMoreChecker(_, _, _) => false
    case ZeroOrOneChecker(_, nfound, _) => nfound == 1
  }

  /** An exhausted checker answers every event Unexpected and stays as it
      is. */
  lemma ExhaustedPush(c: Checker, e: Event)
    requires Exhausted(c)
    ensures PushState(c, e) == (Unexpected, c)
  {
    if c.EitherChecker? {
      assert PushState(c, e).1.branches.Keys == {};
    }
  }

  /** The same for any number of events. */
  lemma {:induction false} ExhaustedReplay(c: Checker, events: seq<Event>)
    requires Exhausted(c)
    ensures Replay(c, events).1 == c
    ensures forall i | 0 <= i < |events| :: Replay(c, events).0[i] == Unexpected
    decreases |events|
  {
    if |events| > 0 {
      var before := events[..|events| - 1];
      ExhaustedReplay(c, before);
      ExhaustedPush(c, events[|events| - 1]);
    }
  }

  /** An alternative whose last branch is dropped stays exhausted: once one
      push is Unexpected, so is every later one. */
  lemma EitherUnexpectedIsSticky(c: Checker, e: Event, events: seq<Event>)
    requires c.EitherChecker?
    requires PushState(c, e).0 == Unexpected
    ensures forall i | 0 <= i < |events| :: Replay(PushState(c, e).1, events).0[i] == Unexpected
  {
    ExhaustedReplay(PushState(c, e).1, events);
  }

  // ---------------------------------------------------------------------
  // Counting verdicts

  function CountEnough(rs: seq<Result>): (n: nat)
    ensures n <= |rs|
  {
    if |rs| == 0 then 0
    else CountEnough(rs[..|rs| - 1]) + (if rs[|rs| - 1] == Enough then 1 else 0)
  }

  /** A leaf answers Enough at most once over its whole life, and has received
      its event exactly when it has (or had before) answered Enough. */
  lemma {:induction false} LeafEnoughOnce(c: Checker, events: seq<Event>)
    requires c.IRChecker? || c.OPChecker?
    ensures var run := Replay(c, events);
            && (c.IRChecker? ==> run.1.IRChecker? && run.1.channel == c.channel)
            && (c.OPChecker? ==> run.1.OPChecker? && run.1.channel == c.channel)
            && CountEnough(run.0) + (if c.received then 1 else 0) <= 1
            && (run.1.received <==> c.received || CountEnough(run.0) == 1)
    decreases |events|
  {
    if |events| > 0 {
      var before := events[..|events| - 1];
      LeafEnoughOnce(c, before);
      var run := Replay(c, events);
      assert run.0[..|run.0| - 1] == Replay(c, before).0;
    }
  }

  /** `OneOrMore` counts in `nfound` exactly the occurrences it has answered
      Enough for. */
  lemma {:induction false} OneOrMoreCounts(c: Checker, events: seq<Event>)
    requires c.OneOrMoreChecker?
    ensures Replay(c, events).1.OneOrMoreChecker?
    ensures Replay(c, events).1.initial == c.initial
    ensures Replay(c, events).1.nfound == c.nfound + CountEnough(Replay(c, events).0)
    decreases |events|
  {
    if |events| > 0 {
      var before := events[..|events| - 1];
      OneOrMoreCounts(c, before);
      var run := Replay(c, events);
      assert run.0[..|run.0| - 1] == Replay(c, before).0;
    }
  }

  /** A fresh `OneOrMore` finishes Enough only after some push answered
      Enough. */
  lemma OneOrMoreNeedsOne(l: Language, events: seq<Event>)
    requires l.OneOrMore?
    requires CountEnough(Replay(GetChecker(l), events).0) == 0
    ensures FinishState(Replay(GetChecker(l), events).1) == NeedMore
  {
    OneOrMoreCounts(GetChecker(l), events);
  }

  /** `ZeroOrMore` is idle (and so finishes Enough) exactly after a push that
      answered Enough, or before any push. */
  lemma ZeroOrMoreIdle(c: Checker, events: seq<Event>)
    requires c.ZeroOrMoreChecker? && c.current.None?
    ensures FinishState(Replay(c, events).1) == Enough
            <==> |events| == 0 || Replay(c, events).0[|events| - 1] == Enough
  {
    if |events| > 0 {
      ZeroOrMoreShape(c, events[..|events| - 1]);
    }
  }

  /** `ZeroOrMore` stays a `ZeroOrMore` over the same child. */
  lemma {:induction false} ZeroOrMoreShape(c: Checker, events: seq<Event>)
    requires c.ZeroOrMoreChecker?
    ensures Replay(c, events).1.ZeroOrMoreChecker?
    ensures Replay(c, events).1.initial == c.initial
    decreases |events|
  {
    if |events| > 0 {
      ZeroOrMoreShape(c, events[..|events| - 1]);
    }
  }

  // ---------------------------------------------------------------------
  // Runs given push by push

  /** A run is determined by its pushes: if each state answers its event with
      the given verdict and the next state, replaying the events gives those
      verdicts and the last state. */
  lemma {:induction false} ReplayThrough(states: seq<Checker>, events: seq<Event>, verdicts: seq<Result>)
    requires |states| == |events| + 1 && |verdicts| == |events|
    requires forall i | 0 <= i < |events| :: PushState(states[i], events[i]) == (verdicts[i], states[i + 1])
    ensures Replay(states[0], events) == (verdicts, states[|events|])
    decreases |events|
  {
    if |events| > 0 {
      var k := |events| - 1;
      ReplayThrough(states[..k + 1], events[..k], verdicts[..k]);
      assert verdicts == verdicts[..k] + [verdicts[k]];
    }
  }
}
