/** Single pushes of the recursive checkers, stated for any children, and
    short runs assembled from them. The unit tests in CheckerScenarios are
    put together from these, so that each test only has to name its states. */
module CheckerSteps {
  import opened Protocol
  import opened Wrappers
  import opened CombinatorCheckers

  // ---------------------------------------------------------------------
  // Leaves

  lemma OutputAccepted(ch: ChannelName, e: Event)
    requires e == OutputProduced(ch)
    ensures PushState(OPChecker(ch, false), e) == (Enough, OPChecker(ch, true))
  {
  }

  lemma InputAccepted(ch: ChannelName, e: Event)
    requires e == InputReceived(ch)
    ensures PushState(IRChecker(ch, false), e) == (Enough, IRChecker(ch, true))
  {
  }

  /** A leaf rejects any event but its own, and its own a second time. */
  lemma OutputRejected(ch: ChannelName, received: bool, e: Event)
    requires received || e != OutputProduced(ch)
    ensures PushState(OPChecker(ch, received), e) == (Unexpected, OPChecker(ch, received))
  {
  }

  lemma InputRejected(ch: ChannelName, received: bool, e: Event)
    requires received || e != InputReceived(ch)
    ensures PushState(IRChecker(ch, received), e) == (Unexpected, IRChecker(ch, received))
  {
  }

  // ---------------------------------------------------------------------
  // Sequences

  /** The head completes and more items follow. */
  lemma HeadOfTwoCompletes(x: Checker, y: Checker, e: Event, x': Checker)
    requires PushState(x, e) == (Enough, x')
    ensures PushState(SequenceChecker([x, y]), e) == (NeedMore, SequenceChecker([y]))
  {
    assert [x, y][1..] == [y];
  }

  lemma HeadOfThreeCompletes(x: Checker, y: Checker, z: Checker, e: Event, x': Checker)
    requires PushState(x, e) == (Enough, x')
    ensures PushState(SequenceChecker([x, y, z]), e) == (NeedMore, SequenceChecker([y, z]))
  {
    assert [x, y, z][1..] == [y, z];
  }

  /** A head that rejects makes the sequence reject. */
  lemma HeadOfTwoRejects(x: Checker, y: Checker, e: Event)
    requires PushState(x, e).0 == Unexpected
    ensures PushState(SequenceChecker([x, y]), e).0 == Unexpected
    ensures PushState(SequenceChecker([x, y]), e).1 == SequenceChecker([PushState(x, e).1, y])
  {
    assert [PushState(x, e).1] + [x, y][1..] == [PushState(x, e).1, y];
  }

  /** The last item completes, and so does the sequence. */
  lemma LastCompletes(x: Checker, e: Event, x': Checker)
    requires PushState(x, e) == (Enough, x')
    ensures PushState(SequenceChecker([x]), e) == (Enough, SequenceChecker([]))
  {
    assert [x][1..] == [];
  }

  /** The last item goes on, and so does the sequence. */
  lemma LastGoesOn(x: Checker, e: Event, x': Checker)
    requires PushState(x, e) == (NeedMore, x')
    ensures PushState(SequenceChecker([x]), e) == (NeedMore, SequenceChecker([x']))
  {
    assert [x'] + [x][1..] == [x'];
  }

  /** A sequence with nothing left rejects. */
  lemma EmptyRejects(e: Event)
    ensures PushState(SequenceChecker([]), e) == (Unexpected, SequenceChecker([]))
  {
  }

  // ---------------------------------------------------------------------
  // Alternatives

  /** An alternative keeps exactly the branches that did not answer
      Unexpected, each pushed once. */
  lemma EitherKeeps(c: Checker, e: Event, kept: map<nat, Checker>)
    requires c.EitherChecker?
    requires forall k | k in c.branches :: (k in kept <==> PushState(c.branches[k], e).0 != Unexpected)
    requires forall k | k in kept :: k in c.branches && PushState(c.branches[k], e).1 == kept[k]
    ensures PushState(c, e).1 == EitherChecker(kept)
  {
    assert PushState(c, e).1 == EitherChecker(Survivors(c, e));
    assert Survivors(c, e).Keys == kept.Keys;
  }

  /** One branch of two completes and the other fails. */
  lemma OneOfTwoCompletes(x: Checker, y: Checker, e: Event, k: nat, next: Checker)
    requires k == 0 || k == 1
    requires PushState(if k == 0 then x else y, e) == (Enough, next)
    requires PushState(if k == 0 then y else x, e).0 == Unexpected
    ensures PushState(EitherChecker(map[0 := x, 1 := y]), e) == (Enough, EitherChecker(map[k := next]))
  {
    var c := EitherChecker(map[0 := x, 1 := y]);
    EitherKeeps(c, e, map[k := next]);
    assert PushState(c.branches[k], e).0 == Enough;
  }

  /** One branch of two goes on and the other fails. */
  lemma OneOfTwoGoesOn(x: Checker, y: Checker, e: Event, k: nat, next: Checker)
    requires k == 0 || k == 1
    requires PushState(if k == 0 then x else y, e) == (NeedMore, next)
    requires PushState(if k == 0 then y else x, e).0 == Unexpected
    ensures PushState(EitherChecker(map[0 := x, 1 := y]), e) == (NeedMore, EitherChecker(map[k := next]))
  {
    var c := EitherChecker(map[0 := x, 1 := y]);
    EitherKeeps(c, e, map[k := next]);
    assert PushState(c.branches[k], e).0 == NeedMore;
  }

  /** The third branch of three completes and the others fail. */
  lemma ThirdOfThreeCompletes(x: Checker, y: Checker, z: Checker, e: Event, next: Checker)
    requires PushState(x, e).0 == Unexpected && PushState(y, e).0 == Unexpected
    requires PushState(z, e) == (Enough, next)
    ensures PushState(EitherChecker(map[0 := x, 1 := y, 2 := z]), e) == (Enough, EitherChecker(map[2 := next]))
  {
    var c := EitherChecker(map[0 := x, 1 := y, 2 := z]);
    EitherKeeps(c, e, map[2 := next]);
    assert PushState(c.branches[2], e).0 == Enough;
  }

  /** The one branch left completes. */
  lemma OnlyBranchCompletes(x: Checker, e: Event, k: nat, next: Checker)
    requires PushState(x, e) == (Enough, next)
    ensures PushState(EitherChecker(map[k := x]), e) == (Enough, EitherChecker(map[k := next]))
  {
    var c := EitherChecker(map[k := x]);
    EitherKeeps(c, e, map[k := next]);
    assert PushState(c.branches[k], e).0 == Enough;
  }

  /** An alternative whose one branch finishes Enough does too. */
  lemma OnlyBranchFinishes(x: Checker, k: nat)
    requires FinishState(x) == Enough
    ensures FinishState(EitherChecker(map[k := x])) == Enough
  {
    var c := EitherChecker(map[k := x]);
    assert FinishState(c.branches[k]) == Enough;
  }

  // ---------------------------------------------------------------------
  // Repetitions

  /** An idle `ZeroOrMore` whose fresh child completes stays idle. */
  lemma ZeroOrMoreCompletes(init: Checker, e: Event, next: Checker)
    requires PushState(init, e) == (Enough, next)
    ensures PushState(ZeroOrMoreChecker(init, None), e) == (Enough, ZeroOrMoreChecker(init, None))
  {
  }

  /** An idle `ZeroOrMore` whose fresh child goes on keeps that child. */
  lemma ZeroOrMoreStarts(init: Checker, e: Event, next: Checker)
    requires PushState(init, e) == (NeedMore, next)
    ensures PushState(ZeroOrMoreChecker(init, None), e) == (NeedMore, ZeroOrMoreChecker(init, Some(next)))
  {
  }

  /** A busy `ZeroOrMore` whose child goes on keeps the new child. */
  lemma ZeroOrMoreGoesOn(init: Checker, current: Checker, e: Event, next: Checker)
    requires PushState(current, e) == (NeedMore, next)
    ensures PushState(ZeroOrMoreChecker(init, Some(current)), e)
            == (NeedMore, ZeroOrMoreChecker(init, Some(next)))
  {
  }

  /** A busy `ZeroOrMore` whose child completes becomes idle. */
  lemma ZeroOrMoreFinishesOne(init: Checker, current: Checker, e: Event, next: Checker)
    requires PushState(current, e) == (Enough, next)
    ensures PushState(ZeroOrMoreChecker(init, Some(current)), e) == (Enough, ZeroOrMoreChecker(init, None))
  {
  }

  /** An idle `ZeroOrMore` whose fresh child rejects keeps the rejected
      child as its occurrence in progress. */
  lemma ZeroOrMoreRejects(init: Checker, e: Event, next: Checker)
    requires PushState(init, e) == (Unexpected, next)
    ensures PushState(ZeroOrMoreChecker(init, None), e) == (Unexpected, ZeroOrMoreChecker(init, Some(next)))
  {
  }

  /** An idle `OneOrMore` whose fresh child completes counts one more. */
  lemma OneOrMoreCompletes(init: Checker, n: nat, e: Event, next: Checker)
    requires PushState(init, e) == (Enough, next)
    ensures PushState(OneOrMoreChecker(init, n, None), e) == (Enough, OneOrMoreChecker(init, n + 1, None))
  {
  }

  /** A fresh `ZeroOrOne` whose child completes has found its one
      occurrence. */
  lemma ZeroOrOneCompletes(init: Checker, e: Event, next: Checker)
    requires PushState(init, e) == (Enough, next)
    ensures PushState(ZeroOrOneChecker(init, 0, None), e) == (Enough, ZeroOrOneChecker(init, 1, Some(next)))
  {
  }

  /** A fresh `ZeroOrOne` whose child rejects keeps the rejected child. */
  lemma ZeroOrOneRejects(init: Checker, e: Event, next: Checker)
    requires PushState(init, e) == (Unexpected, next)
    ensures PushState(ZeroOrOneChecker(init, 0, None), e) == (Unexpected, ZeroOrOneChecker(init, 0, Some(next)))
  {
  }

  /** After its one occurrence, `ZeroOrOne` rejects and stays as it is. */
  lemma ZeroOrOneFull(init: Checker, current: Option<Checker>, e: Event)
    ensures PushState(ZeroOrOneChecker(init, 1, current), e) == (Unexpected, ZeroOrOneChecker(init, 1, current))
  {
  }

  // ---------------------------------------------------------------------
  // Fresh checkers

  lemma FreshSequenceOfTwo(x: Language, y: Language)
    ensures GetChecker(InSequence([x, y])) == SequenceChecker([GetChecker(x), GetChecker(y)])
  {
  }

  lemma FreshSequenceOfThree(x: Language, y: Language, z: Language)
    ensures GetChecker(InSequence([x, y, z])) == SequenceChecker([GetChecker(x), GetChecker(y), GetChecker(z)])
  {
  }

  lemma FreshEitherOfTwo(x: Language, y: Language)
    ensures GetChecker(Either([x, y])) == EitherChecker(map[0 := GetChecker(x), 1 := GetChecker(y)])
  {
    assert GetChecker(Either([x, y])).branches.Keys == {0, 1};
  }

  lemma FreshEitherOfThree(x: Language, y: Language, z: Language)
    ensures GetChecker(Either([x, y, z]))
            == EitherChecker(map[0 := GetChecker(x), 1 := GetChecker(y), 2 := GetChecker(z)])
  {
    assert GetChecker(Either([x, y, z])).branches.Keys == {0, 1, 2};
  }

  // ---------------------------------------------------------------------
  // Runs

  lemma ReplayOne(c0: Checker, c1: Checker, e0: Event, r0: Result)
    requires PushState(c0, e0) == (r0, c1)
    ensures Replay(c0, [e0]) == ([r0], c1)
  {
    assert [e0][..0] == [];
    assert Replay(c0, []) == ([], c0);
    assert [] + [r0] == [r0];
  }

  lemma ReplayTwo(c0: Checker, c1: Checker, c2: Checker, e0: Event, e1: Event, r0: Result, r1: Result)
    requires PushState(c0, e0) == (r0, c1)
    requires PushState(c1, e1) == (r1, c2)
    ensures Replay(c0, [e0, e1]) == ([r0, r1], c2)
  {
    ReplayOne(c0, c1, e0, r0);
    assert [e0, e1][..1] == [e0];
    assert [r0] + [r1] == [r0, r1];
  }

  lemma ReplayThree(c0: Checker, c1: Checker, c2: Checker, c3: Checker, e0: Event, e1: Event, e2: Event,
                    r0: Result, r1: Result, r2: Result)
    requires PushState(c0, e0) == (r0, c1)
    requires PushState(c1, e1) == (r1, c2)
    requires PushState(c2, e2) == (r2, c3)
    ensures Replay(c0, [e0, e1, e2]) == ([r0, r1, r2], c3)
  {
    ReplayTwo(c0, c1, c2, e0, e1, r0, r1);
    assert [e0, e1, e2][..2] == [e0, e1];
    assert [r0, r1] + [r2] == [r0, r1, r2];
  }

  /** A test run with as many expected verdicts as events passes exactly
      when replaying the events from the fresh checker gives those verdicts
      and finishing then gives the expected final verdict. */
  lemma PassesWhen(l: Language, events: seq<Event>, expected: seq<Result>, final: Result)
    requires |events| == |expected|
    ensures Passes(l, events, expected, final)
            <==> Replay(GetChecker(l), events).0 == expected && FinishState(Replay(GetChecker(l), events).1) == final
  {
    assert events[..|events|] == events;
    assert expected[..|expected|] == expected;
  }

  /** The same, given the fresh checker and the last state. */
  lemma PassesBy(l: Language, events: seq<Event>, expected: seq<Result>, final: Result, c0: Checker, last: Checker)
    requires |events| == |expected|
    requires GetChecker(l) == c0
    requires Replay(c0, events) == (expected, last)
    requires FinishState(last) == final
    ensures Passes(l, events, expected, final)
  {
    PassesWhen(l, events, expected, final);
  }
}
