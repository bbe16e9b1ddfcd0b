/** The unit tests of the recursive checkers (src/aido_nodes/test_protocol.py:320-465),
    each stated as a run of `AssertSeq` that passes or fails. Each lemma
    takes the language and the events as parameters, fixed by its
    preconditions, and follows the checker's state push by push with the
    lemmas of module CheckerSteps. */
module CheckerScenarios {
  import opened Protocol
  import opened Wrappers
  import opened CombinatorCheckers
  import opened CheckerSteps
  import G = Grammars

  const A: Language := ExpectOutputProduced("a")
  const B: Language := ExpectOutputProduced("b")
  const C: Language := ExpectOutputProduced("c")
  const IN_A: Language := ExpectInputReceived("a")

  // ---------------------------------------------------------------------
  // Leaves

  /** `out:a` and `in:a` accept their own event (lines 320-327). */
  lemma LeavesAccept(a: Event, ia: Event)
    requires a == OutputProduced("a") && ia == InputReceived("a")
    ensures Passes(A, [a], [Enough], Enough)
    ensures Passes(IN_A, [ia], [Enough], Enough)
  {
    OutputAccepted("a", a);
    ReplayOne(OPChecker("a", false), OPChecker("a", true), a, Enough);
    PassesBy(A, [a], [Enough], Enough, OPChecker("a", false), OPChecker("a", true));
    InputAccepted("a", ia);
    ReplayOne(IRChecker("a", false), IRChecker("a", true), ia, Enough);
    PassesBy(IN_A, [ia], [Enough], Enough, IRChecker("a", false), IRChecker("a", true));
  }

  /** A wrong kind or channel is Unexpected, after which `finish` still says
      NeedMore (lines 330-347). */
  lemma LeavesReject(ia: Event, a: Event, ib: Event, b: Event)
    requires ia == InputReceived("a") && a == OutputProduced("a")
    requires ib == InputReceived("b") && b == OutputProduced("b")
    ensures Passes(A, [ia], [Unexpected], NeedMore)
    ensures Passes(IN_A, [a], [Unexpected], NeedMore)
    ensures Passes(IN_A, [ib], [Unexpected], NeedMore)
    ensures Passes(IN_A, [b], [Unexpected], NeedMore)
  {
    var oa, na := OPChecker("a", false), IRChecker("a", false);
    OutputRejected("a", false, ia);
    ReplayOne(oa, oa, ia, Unexpected);
    PassesBy(A, [ia], [Unexpected], NeedMore, oa, oa);
    InputRejected("a", false, a);
    ReplayOne(na, na, a, Unexpected);
    PassesBy(IN_A, [a], [Unexpected], NeedMore, na, na);
    InputRejected("a", false, ib);
    ReplayOne(na, na, ib, Unexpected);
    PassesBy(IN_A, [ib], [Unexpected], NeedMore, na, na);
    InputRejected("a", false, b);
    ReplayOne(na, na, b, Unexpected);
    PassesBy(IN_A, [b], [Unexpected], NeedMore, na, na);
  }

  // ---------------------------------------------------------------------
  // Sequences

  /** `out:a ; out:b`: NeedMore until the last item, Enough on it, and
      Unexpected for anything after (lines 350-353, 360-367). */
  lemma SequenceOfTwo(l: Language, a: Event, b: Event, c: Event)
    requires l == InSequence([A, B])
    requires a == OutputProduced("a") && b == OutputProduced("b") && c == OutputProduced("c")
    ensures Passes(l, [a, b], [NeedMore, Enough], Enough)
    ensures Passes(l, [a], [NeedMore], NeedMore)
    ensures Passes(l, [a, b, c], [NeedMore, Enough, Unexpected], Enough)
  {
    var oa, ob := OPChecker("a", false), OPChecker("b", false);
    var s0, s1, s2 := SequenceChecker([oa, ob]), SequenceChecker([ob]), SequenceChecker([]);
    FreshSequenceOfTwo(A, B);
    OutputAccepted("a", a);
    HeadOfTwoCompletes(oa, ob, a, OPChecker("a", true));
    OutputAccepted("b", b);
    LastCompletes(ob, b, OPChecker("b", true));
    EmptyRejects(c);
    ReplayThree(s0, s1, s2, s2, a, b, c, NeedMore, Enough, Unexpected);
    PassesBy(l, [a, b, c], [NeedMore, Enough, Unexpected], Enough, s0, s2);
    ReplayTwo(s0, s1, s2, a, b, NeedMore, Enough);
    PassesBy(l, [a, b], [NeedMore, Enough], Enough, s0, s2);
    ReplayOne(s0, s1, a, NeedMore);
    PassesBy(l, [a], [NeedMore], NeedMore, s0, s1);
  }

  /** `out:a ; out:b ; out:b` still needs its last item (lines 355-357). */
  lemma SequenceOfThree(l: Language, a: Event, b: Event)
    requires l == InSequence([A, B, B])
    requires a == OutputProduced("a") && b == OutputProduced("b")
    ensures Passes(l, [a, b], [NeedMore, NeedMore], NeedMore)
  {
    var oa, ob := OPChecker("a", false), OPChecker("b", false);
    var t0, t1, t2 := SequenceChecker([oa, ob, ob]), SequenceChecker([ob, ob]), SequenceChecker([ob]);
    FreshSequenceOfThree(A, B, B);
    OutputAccepted("a", a);
    HeadOfThreeCompletes(oa, ob, ob, a, OPChecker("a", true));
    OutputAccepted("b", b);
    HeadOfTwoCompletes(ob, ob, b, OPChecker("b", true));
    ReplayTwo(t0, t1, t2, a, b, NeedMore, NeedMore);
    PassesBy(l, [a, b], [NeedMore, NeedMore], NeedMore, t0, t2);
  }

  // ---------------------------------------------------------------------
  // Repetitions

  /** `out:a *` finishes Enough with no event and accepts any number of
      them (lines 370-382). */
  lemma ZeroOrMoreRepeats(l: Language, a: Event)
    requires l == ZeroOrMore(A)
    requires a == OutputProduced("a")
    ensures Passes(l, [], [], Enough)
    ensures Passes(l, [a], [Enough], Enough)
    ensures Passes(l, [a, a], [Enough, Enough], Enough)
  {
    var oa := OPChecker("a", false);
    var z := ZeroOrMoreChecker(oa, None);
    assert GetChecker(l) == z;
    PassesBy(l, [], [], Enough, z, z);
    OutputAccepted("a", a);
    ZeroOrMoreCompletes(oa, a, OPChecker("a", true));
    ReplayOne(z, z, a, Enough);
    PassesBy(l, [a], [Enough], Enough, z, z);
    ReplayTwo(z, z, z, a, a, Enough, Enough);
    PassesBy(l, [a, a], [Enough, Enough], Enough, z, z);
  }

  /** `out:a +` needs one event and accepts more (lines 410-422). */
  lemma OneOrMoreRepeats(l: Language, a: Event)
    requires l == OneOrMore(A)
    requires a == OutputProduced("a")
    ensures Passes(l, [], [], NeedMore)
    ensures Passes(l, [a], [Enough], Enough)
    ensures Passes(l, [a, a], [Enough, Enough], Enough)
  {
    var oa := OPChecker("a", false);
    var o0, o1, o2 := OneOrMoreChecker(oa, 0, None), OneOrMoreChecker(oa, 1, None), OneOrMoreChecker(oa, 2, None);
    assert GetChecker(l) == o0;
    PassesBy(l, [], [], NeedMore, o0, o0);
    OutputAccepted("a", a);
    OneOrMoreCompletes(oa, 0, a, OPChecker("a", true));
    OneOrMoreCompletes(oa, 1, a, OPChecker("a", true));
    ReplayOne(o0, o1, a, Enough);
    PassesBy(l, [a], [Enough], Enough, o0, o1);
    ReplayTwo(o0, o1, o2, a, a, Enough, Enough);
    PassesBy(l, [a, a], [Enough, Enough], Enough, o0, o2);
  }

  /** `out:a ?` finishes Enough with none or one event, and rejects a second
      one without changing its finish (lines 425-437). */
  lemma ZeroOrOneAtMostOnce(l: Language, a: Event)
    requires l == ZeroOrOne(A)
    requires a == OutputProduced("a")
    ensures Passes(l, [], [], Enough)
    ensures Passes(l, [a], [Enough], Enough)
    ensures Passes(l, [a, a], [Enough, Unexpected], Enough)
  {
    var oa := OPChecker("a", false);
    var z0, z1 := ZeroOrOneChecker(oa, 0, None), ZeroOrOneChecker(oa, 1, Some(OPChecker("a", true)));
    assert GetChecker(l) == z0;
    PassesBy(l, [], [], Enough, z0, z0);
    OutputAccepted("a", a);
    ZeroOrOneCompletes(oa, a, OPChecker("a", true));
    ZeroOrOneFull(oa, Some(OPChecker("a", true)), a);
    FinishSpec(z1);
    ReplayOne(z0, z1, a, Enough);
    PassesBy(l, [a], [Enough], Enough, z0, z1);
    ReplayTwo(z0, z1, z1, a, a, Enough, Unexpected);
    PassesBy(l, [a, a], [Enough, Unexpected], Enough, z0, z1);
  }

  // ---------------------------------------------------------------------
  // Alternatives

  /** `out:a | out:b` takes either event (lines 385-392). */
  lemma EitherOfTwo(l: Language, a: Event, b: Event)
    requires l == Either([A, B])
    requires a == OutputProduced("a") && b == OutputProduced("b")
    ensures Passes(l, [a], [Enough], Enough)
    ensures Passes(l, [b], [Enough], Enough)
  {
    var oa, ob := OPChecker("a", false), OPChecker("b", false);
    var e0 := EitherChecker(map[0 := oa, 1 := ob]);
    FreshEitherOfTwo(A, B);
    OutputAccepted("a", a);
    OutputRejected("b", false, a);
    OneOfTwoCompletes(oa, ob, a, 0, OPChecker("a", true));
    ReplayOne(e0, EitherChecker(map[0 := OPChecker("a", true)]), a, Enough);
    OnlyBranchFinishes(OPChecker("a", true), 0);
    PassesBy(l, [a], [Enough], Enough, e0, EitherChecker(map[0 := OPChecker("a", true)]));
    OutputAccepted("b", b);
    OutputRejected("a", false, b);
    OneOfTwoCompletes(oa, ob, b, 1, OPChecker("b", true));
    ReplayOne(e0, EitherChecker(map[1 := OPChecker("b", true)]), b, Enough);
    OnlyBranchFinishes(OPChecker("b", true), 1);
    PassesBy(l, [b], [Enough], Enough, e0, EitherChecker(map[1 := OPChecker("b", true)]));
  }

  /** `out:a | out:b | out:c` takes its last branch's event (lines 395-397). */
  lemma EitherThirdOfThree(l: Language, c: Event)
    requires l == Either([A, B, C])
    requires c == OutputProduced("c")
    ensures Passes(l, [c], [Enough], Enough)
  {
    var oa, ob, oc := OPChecker("a", false), OPChecker("b", false), OPChecker("c", false);
    var f0, f1 := EitherChecker(map[0 := oa, 1 := ob, 2 := oc]), EitherChecker(map[2 := OPChecker("c", true)]);
    FreshEitherOfThree(A, B, C);
    OutputRejected("a", false, c);
    OutputRejected("b", false, c);
    OutputAccepted("c", c);
    ThirdOfThreeCompletes(oa, ob, oc, c, OPChecker("c", true));
    ReplayOne(f0, f1, c, Enough);
    OnlyBranchFinishes(OPChecker("c", true), 2);
    PassesBy(l, [c], [Enough], Enough, f0, f1);
  }

  const BOTH_ORDERS: Language := Either([InSequence([A, B]), InSequence([B, A])])

  /** `(out:a ; out:b) | (out:b ; out:a)` takes `a` then `b`: the first
      event keeps only the branch it starts and the second completes it
      (lines 400-402). */
  lemma BothOrdersAThenB(l: Language, a: Event, b: Event)
    requires l == BOTH_ORDERS
    requires a == OutputProduced("a") && b == OutputProduced("b")
    ensures Passes(l, [a, b], [NeedMore, Enough], Enough)
  {
    var oa, ob := OPChecker("a", false), OPChecker("b", false);
    var ab, ba := SequenceChecker([oa, ob]), SequenceChecker([ob, oa]);
    FreshSequenceOfTwo(A, B);
    FreshSequenceOfTwo(B, A);
    FreshEitherOfTwo(InSequence([A, B]), InSequence([B, A]));
    var e0 := EitherChecker(map[0 := ab, 1 := ba]);
    OutputAccepted("a", a);
    HeadOfTwoCompletes(oa, ob, a, OPChecker("a", true));
    OutputRejected("b", false, a);
    HeadOfTwoRejects(ob, oa, a);
    OneOfTwoGoesOn(ab, ba, a, 0, SequenceChecker([ob]));
    OutputAccepted("b", b);
    LastCompletes(ob, b, OPChecker("b", true));
    OnlyBranchCompletes(SequenceChecker([ob]), b, 0, SequenceChecker([]));
    var e2 := EitherChecker(map[0 := SequenceChecker([])]);
    ReplayTwo(e0, EitherChecker(map[0 := SequenceChecker([ob])]), e2, a, b, NeedMore, Enough);
    OnlyBranchFinishes(SequenceChecker([]), 0);
    PassesBy(l, [a, b], [NeedMore, Enough], Enough, e0, e2);
  }

  /** And `b` then `a` (lines 405-407). */
  lemma BothOrdersBThenA(l: Language, a: Event, b: Event)
    requires l == BOTH_ORDERS
    requires a == OutputProduced("a") && b == OutputProduced("b")
    ensures Passes(l, [b, a], [NeedMore, Enough], Enough)
  {
    var oa, ob := OPChecker("a", false), OPChecker("b", false);
    var ab, ba := SequenceChecker([oa, ob]), SequenceChecker([ob, oa]);
    FreshSequenceOfTwo(A, B);
    FreshSequenceOfTwo(B, A);
    FreshEitherOfTwo(InSequence([A, B]), InSequence([B, A]));
    var e0 := EitherChecker(map[0 := ab, 1 := ba]);
    OutputAccepted("b", b);
    HeadOfTwoCompletes(ob, oa, b, OPChecker("b", true));
    OutputRejected("a", false, b);
    HeadOfTwoRejects(oa, ob, b);
    OneOfTwoGoesOn(ab, ba, b, 1, SequenceChecker([oa]));
    OutputAccepted("a", a);
    LastCompletes(oa, a, OPChecker("a", true));
    OnlyBranchCompletes(SequenceChecker([oa]), a, 1, SequenceChecker([]));
    var e2 := EitherChecker(map[1 := SequenceChecker([])]);
    ReplayTwo(e0, EitherChecker(map[1 := SequenceChecker([oa])]), e2, b, a, NeedMore, Enough);
    OnlyBranchFinishes(SequenceChecker([]), 1);
    PassesBy(l, [b, a], [NeedMore, Enough], Enough, e0, e2);
  }

  // ---------------------------------------------------------------------
  // The image-source test (lines 440-465), which these checkers fail

  /** The fresh image-source checker, from the inside out. */
  lemma ImageSourceFresh(l: Language, answer: Checker, reply: Checker)
    requires l == G.IMAGE_SOURCE
    requires answer == EitherChecker(map[0 := OPChecker("image", false), 1 := OPChecker("no_more_images", false)])
    requires reply == EitherChecker(map[
               0 := OPChecker("no_more_episodes", false),
               1 := SequenceChecker([OPChecker("episode_start", false),
                                     ZeroOrMoreChecker(SequenceChecker([IRChecker("next_image", false), answer]), None)])])
    ensures GetChecker(l) == ZeroOrMoreChecker(SequenceChecker([IRChecker("next_episode", false), reply]), None)
  {
    var answerL := Either([ExpectOutputProduced("image"), ExpectOutputProduced("no_more_images")]);
    FreshEitherOfTwo(ExpectOutputProduced("image"), ExpectOutputProduced("no_more_images"));
    var loopL := InSequence([ExpectInputReceived("next_image"), answerL]);
    FreshSequenceOfTwo(ExpectInputReceived("next_image"), answerL);
    var startedL := InSequence([ExpectOutputProduced("episode_start"), ZeroOrMore(loopL)]);
    FreshSequenceOfTwo(ExpectOutputProduced("episode_start"), ZeroOrMore(loopL));
    var replyL := Either([ExpectOutputProduced("no_more_episodes"), startedL]);
    FreshEitherOfTwo(ExpectOutputProduced("no_more_episodes"), startedL);
    FreshSequenceOfTwo(ExpectInputReceived("next_episode"), replyL);
    assert G.IMAGE_SOURCE == ZeroOrMore(InSequence([ExpectInputReceived("next_episode"), replyL]));
  }

  /** `episode_start` drops the `no_more_episodes` branch and leaves the
      image loop, which is not marked done. */
  lemma ImageSourceReplyStarts(reply: Checker, loop: Checker, es: Event)
    requires reply == EitherChecker(map[
               0 := OPChecker("no_more_episodes", false),
               1 := SequenceChecker([OPChecker("episode_start", false), loop])])
    requires es == OutputProduced("episode_start")
    ensures PushState(reply, es) == (NeedMore, EitherChecker(map[1 := SequenceChecker([loop])]))
  {
    var started := SequenceChecker([OPChecker("episode_start", false), loop]);
    OutputAccepted("episode_start", es);
    HeadOfTwoCompletes(OPChecker("episode_start", false), loop, es, OPChecker("episode_start", true));
    OutputRejected("no_more_episodes", false, es);
    OneOfTwoGoesOn(OPChecker("no_more_episodes", false), started, es, 1, SequenceChecker([loop]));
  }

  /** The image-source test expects Enough after `next_episode ;
      episode_start`, as the automaton of module Recognize answers; these
      checkers answer NeedMore twice and finish NeedMore, since a sequence
      only completes when its last item does, and the image loop left in it
      never answers Enough before an image. */
  lemma ImageSourceEpisodeStartNeedsMore(l: Language, ne: Event, es: Event)
    requires l == G.IMAGE_SOURCE
    requires ne == InputReceived("next_episode") && es == OutputProduced("episode_start")
    ensures Passes(l, [ne, es], [NeedMore, NeedMore], NeedMore)
    ensures !Passes(l, [ne, es], [NeedMore, Enough], Enough)
  {
    var answer := EitherChecker(map[0 := OPChecker("image", false), 1 := OPChecker("no_more_images", false)]);
    var loop := ZeroOrMoreChecker(SequenceChecker([IRChecker("next_image", false), answer]), None);
    var reply := EitherChecker(map[
                   0 := OPChecker("no_more_episodes", false),
                   1 := SequenceChecker([OPChecker("episode_start", false), loop])]);
    var episode := SequenceChecker([IRChecker("next_episode", false), reply]);
    var c0 := ZeroOrMoreChecker(episode, None);
    ImageSourceFresh(l, answer, reply);
    InputAccepted("next_episode", ne);
    HeadOfTwoCompletes(IRChecker("next_episode", false), reply, ne, IRChecker("next_episode", true));
    ZeroOrMoreStarts(episode, ne, SequenceChecker([reply]));
    var c1 := ZeroOrMoreChecker(episode, Some(SequenceChecker([reply])));
    var next := EitherChecker(map[1 := SequenceChecker([loop])]);
    ImageSourceReplyStarts(reply, loop, es);
    LastGoesOn(reply, es, next);
    ZeroOrMoreGoesOn(episode, SequenceChecker([reply]), es, SequenceChecker([next]));
    var c2 := ZeroOrMoreChecker(episode, Some(SequenceChecker([next])));
    ReplayTwo(c0, c1, c2, ne, es, NeedMore, NeedMore);
    PassesBy(l, [ne, es], [NeedMore, NeedMore], NeedMore, c0, c2);
    PassesWhen(l, [ne, es], [NeedMore, Enough], Enough);
  }

  /** After `next_episode ; no_more_episodes` the repetition is idle again,
      and a request for an image is rejected: a fresh episode must start
      with `next_episode`. The automaton of module Recognize answers NeedMore
      to the same request, because its image loop hangs on the shared accept
      node. */
  lemma ImageSourceImageAfterLastEpisodeRejected(l: Language, ne: Event, nme: Event, ni: Event)
    requires l == G.IMAGE_SOURCE
    requires ne == InputReceived("next_episode") && nme == OutputProduced("no_more_episodes")
    requires ni == InputReceived("next_image")
    ensures Passes(l, [ne, nme, ni], [NeedMore, Enough, Unexpected], NeedMore)
  {
    var answer := EitherChecker(map[0 := OPChecker("image", false), 1 := OPChecker("no_more_images", false)]);
    var loop := ZeroOrMoreChecker(SequenceChecker([IRChecker("next_image", false), answer]), None);
    var started := SequenceChecker([OPChecker("episode_start", false), loop]);
    var reply := EitherChecker(map[0 := OPChecker("no_more_episodes", false), 1 := started]);
    var episode := SequenceChecker([IRChecker("next_episode", false), reply]);
    var c0 := ZeroOrMoreChecker(episode, None);
    ImageSourceFresh(l, answer, reply);
    // next_episode
    InputAccepted("next_episode", ne);
    HeadOfTwoCompletes(IRChecker("next_episode", false), reply, ne, IRChecker("next_episode", true));
    ZeroOrMoreStarts(episode, ne, SequenceChecker([reply]));
    var c1 := ZeroOrMoreChecker(episode, Some(SequenceChecker([reply])));
    // no_more_episodes
    OutputAccepted("no_more_episodes", nme);
    OutputRejected("episode_start", false, nme);
    HeadOfTwoRejects(OPChecker("episode_start", false), loop, nme);
    OneOfTwoCompletes(OPChecker("no_more_episodes", false), started, nme, 0, OPChecker("no_more_episodes", true));
    var answered := EitherChecker(map[0 := OPChecker("no_more_episodes", true)]);
    LastCompletes(reply, nme, answered);
    ZeroOrMoreFinishesOne(episode, SequenceChecker([reply]), nme, SequenceChecker([]));
    // next_image
    InputRejected("next_episode", false, ni);
    HeadOfTwoRejects(IRChecker("next_episode", false), reply, ni);
    ZeroOrMoreRejects(episode, ni, episode);
    var c3 := ZeroOrMoreChecker(episode, Some(episode));
    ReplayThree(c0, c1, c0, c3, ne, nme, ni, NeedMore, Enough, Unexpected);
    PassesBy(l, [ne, nme, ni], [NeedMore, Enough, Unexpected], NeedMore, c0, c3);
  }

  // ---------------------------------------------------------------------
  // The agent protocol

  /** A fresh agent checker needs more, and an episode that starts before
      the optional seed is rejected, as on the automaton of module
      Recognize: the optional seed's checker is the sequence's head, and it
      rejects `episode_start`. */
  lemma AgentEpisodeStartFirst(l: Language, es: Event)
    requires l == G.AGENT
    requires es == InputReceived("episode_start")
    ensures Passes(l, [], [], NeedMore)
    ensures Passes(l, [es], [Unexpected], NeedMore)
  {
    var seedL := ZeroOrOne(ExpectInputReceived("seed"));
    var episodesL := l.ls[1];
    assert l == InSequence([seedL, episodesL]);
    FreshSequenceOfTwo(seedL, episodesL);
    var seed := IRChecker("seed", false);
    var opt := ZeroOrOneChecker(seed, 0, None);
    var rest := GetChecker(episodesL);
    var c0 := SequenceChecker([opt, rest]);
    assert GetChecker(l) == c0;
    InputRejected("seed", false, es);
    ZeroOrOneRejects(seed, es, seed);
    HeadOfTwoRejects(opt, rest, es);
    var c1 := SequenceChecker([ZeroOrOneChecker(seed, 0, Some(seed)), rest]);
    ReplayOne(c0, c1, es, Unexpected);
    PassesBy(l, [es], [Unexpected], NeedMore, c0, c1);
    assert Replay(c0, []) == ([], c0);
    PassesBy(l, [], [], NeedMore, c0, c0);
  }
}
