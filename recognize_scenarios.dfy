/** Runs of `LanguageChecker` on the repository's protocols and on the
    languages of its unit tests (src/aido_nodes/test_protocol.py). */
module RecognizeScenarios {
  import opened Protocol
  import opened Recognize
  import opened RecognizeEdges
  import G = Grammars

  /** The compiled image-source protocol: node 2 waits for the episode
      answer, 3 is after `episode_start`, 4 waits for the image answer; the
      image loop hangs on the shared accept node. */
  const IMAGE_SOURCE_EDGES: seq<Edge> := [
    Edge(0, Always, 1),
    Edge(1, In("next_episode"), 2),
    Edge(2, Out("no_more_episodes"), 1),
    Edge(2, Out("episode_start"), 3),
    Edge(3, Always, 1),
    Edge(1, In("next_image"), 4),
    Edge(4, Out("image"), 1),
    Edge(4, Out("no_more_images"), 1)
  ]

  lemma ImageSourceCompiles(l: Language)
    requires l == G.IMAGE_SOURCE
    ensures Compile(l).edges == IMAGE_SOURCE_EDGES
  {
    var answer := Either([ExpectOutputProduced("image"), ExpectOutputProduced("no_more_images")]);
    var imageLoop := InSequence([ExpectInputReceived("next_image"), answer]);
    var started := InSequence([ExpectOutputProduced("episode_start"), ZeroOrMore(imageLoop)]);
    var reply := Either([ExpectOutputProduced("no_more_episodes"), started]);
    var episode := InSequence([ExpectInputReceived("next_episode"), reply]);
    assert G.IMAGE_SOURCE == ZeroOrMore(episode);
    assert UnionNfa([ExpectOutputProduced("no_more_images")], 4, 1, 5).edges == [Edge(4, Out("no_more_images"), 1)];
    assert Nfa(answer, 4, 1, 5).edges == IMAGE_SOURCE_EDGES[6..8];
    assert ChainNfa([answer], 4, 1, 5) == Nfa(answer, 4, 1, 5);
    assert Nfa(imageLoop, 1, 1, 4).edges == IMAGE_SOURCE_EDGES[5..8];
    assert Nfa(ZeroOrMore(imageLoop), 3, 1, 4).edges == IMAGE_SOURCE_EDGES[4..8];
    assert ChainNfa([ZeroOrMore(imageLoop)], 3, 1, 4) == Nfa(ZeroOrMore(imageLoop), 3, 1, 4);
    assert Nfa(started, 2, 1, 3).edges == IMAGE_SOURCE_EDGES[3..8];
    assert UnionNfa([started], 2, 1, 3).edges == IMAGE_SOURCE_EDGES[3..8];
    assert Nfa(reply, 2, 1, 3).edges == IMAGE_SOURCE_EDGES[2..8];
    assert ChainNfa([reply], 2, 1, 3) == Nfa(reply, 2, 1, 3);
    assert Nfa(episode, 1, 1, 2).edges == IMAGE_SOURCE_EDGES[1..8];
  }

  // The lemmas below evaluate the edge-by-edge functions of module
  // RecognizeEdges on the literal edge list, one small fact group each, and
  // then carry the facts over to `Advance` on a list only known to be equal
  // to it: evaluating the set-builder functions on the literal itself is far
  // more expensive.

  /** Nodes 1, 2 and 4 wait for an event; no `Always` edge leaves them. */
  lemma ImageSourceWaitingNodes()
    ensures MatcherEdgeEach(IMAGE_SOURCE_EDGES, 1) && AlwaysEach(IMAGE_SOURCE_EDGES, {1}) == {}
    ensures MatcherEdgeEach(IMAGE_SOURCE_EDGES, 2) && AlwaysEach(IMAGE_SOURCE_EDGES, {2}) == {}
    ensures MatcherEdgeEach(IMAGE_SOURCE_EDGES, 4) && AlwaysEach(IMAGE_SOURCE_EDGES, {4}) == {}
  {
  }

  /** Nodes 0 and 3 only pass on to the accept node. */
  lemma ImageSourcePassingNodes()
    ensures !MatcherEdgeEach(IMAGE_SOURCE_EDGES, 0) && AlwaysEdgeEach(IMAGE_SOURCE_EDGES, 0)
    ensures AlwaysEach(IMAGE_SOURCE_EDGES, {0}) == {1}
    ensures !MatcherEdgeEach(IMAGE_SOURCE_EDGES, 3) && AlwaysEdgeEach(IMAGE_SOURCE_EDGES, 3)
    ensures AlwaysEach(IMAGE_SOURCE_EDGES, {3}) == {1}
  {
  }

  lemma ImageSourceRequests()
    ensures StepEach(IMAGE_SOURCE_EDGES, {1}, InputReceived("next_episode")) == {2}
    ensures StepEach(IMAGE_SOURCE_EDGES, {1}, InputReceived("next_image")) == {4}
  {
  }

  lemma ImageSourceAnswers()
    ensures StepEach(IMAGE_SOURCE_EDGES, {2}, OutputProduced("episode_start")) == {3}
    ensures StepEach(IMAGE_SOURCE_EDGES, {2}, OutputProduced("no_more_episodes")) == {1}
  {
  }

  /** A fresh image-source checker starts on the accept node alone. */
  lemma ImageSourceInitial(l: Language)
    requires l == G.IMAGE_SOURCE
    ensures Initial(l) == {ACCEPT}
  {
    ImageSourceCompiles(l);
    ImageSourcePassingNodes();
    EvolveSingle(Compile(l).edges, START);
  }

  /** `next_episode` leads from the accept node to node 2, which waits. */
  lemma ImageSourceNextEpisode(es: seq<Edge>, e: Event)
    requires es == IMAGE_SOURCE_EDGES && e == InputReceived("next_episode")
    ensures Advance(es, {ACCEPT}, e) == {2}
  {
    ImageSourceRequests();
    ImageSourceWaitingNodes();
    AdvanceToSingle(es, {ACCEPT}, e, 2);
  }

  /** `episode_start` leads to node 3, whose one `Always` edge returns to
      the accept node within the same pass. */
  lemma ImageSourceEpisodeStartStep(es: seq<Edge>, e: Event)
    requires es == IMAGE_SOURCE_EDGES && e == OutputProduced("episode_start")
    ensures Advance(es, {2}, e) == {ACCEPT}
  {
    ImageSourceAnswers();
    ImageSourcePassingNodes();
    AdvanceToSingle(es, {2}, e, 3);
  }

  lemma ImageSourceNoMoreEpisodes(es: seq<Edge>, e: Event)
    requires es == IMAGE_SOURCE_EDGES && e == OutputProduced("no_more_episodes")
    ensures Advance(es, {2}, e) == {ACCEPT}
  {
    ImageSourceAnswers();
    ImageSourceWaitingNodes();
    AdvanceToSingle(es, {2}, e, ACCEPT);
  }

  lemma ImageSourceNextImage(es: seq<Edge>, e: Event)
    requires es == IMAGE_SOURCE_EDGES && e == InputReceived("next_image")
    ensures Advance(es, {ACCEPT}, e) == {4}
  {
    ImageSourceRequests();
    ImageSourceWaitingNodes();
    AdvanceToSingle(es, {ACCEPT}, e, 4);
  }

  /** Replaying a sequence whose first event leads to `now`. */
  lemma RunFirst(es: seq<Edge>, active: set<Node>, e: Event, rest: seq<Event>, now: set<Node>)
    requires Advance(es, active, e) == now
    ensures Replay(es, active, [e] + rest).0 == [Verdict(now)] + Replay(es, now, rest).0
    ensures Replay(es, active, [e] + rest).1 == Replay(es, now, rest).1
  {
    assert ([e] + rest)[1..] == rest;
  }

  lemma RunOne(es: seq<Edge>, a0: set<Node>, e1: Event, a1: set<Node>)
    requires Advance(es, a0, e1) == a1
    ensures Replay(es, a0, [e1]) == ([Verdict(a1)], a1)
  {
    assert Replay(es, a1, []) == ([], a1);
    RunFirst(es, a0, e1, [], a1);
    assert [e1] == [e1] + [];
    assert [Verdict(a1)] + [] == [Verdict(a1)];
  }

  lemma RunTwo(es: seq<Edge>, a0: set<Node>, e1: Event, a1: set<Node>, e2: Event, a2: set<Node>)
    requires Advance(es, a0, e1) == a1 && Advance(es, a1, e2) == a2
    ensures Replay(es, a0, [e1, e2]) == ([Verdict(a1), Verdict(a2)], a2)
  {
    RunOne(es, a1, e2, a2);
    RunFirst(es, a0, e1, [e2], a1);
    assert [e1, e2] == [e1] + [e2];
    assert [Verdict(a1)] + [Verdict(a2)] == [Verdict(a1), Verdict(a2)];
  }

  lemma RunThree(es: seq<Edge>, a0: set<Node>, e1: Event, a1: set<Node>, e2: Event, a2: set<Node>,
                    e3: Event, a3: set<Node>)
    requires Advance(es, a0, e1) == a1 && Advance(es, a1, e2) == a2 && Advance(es, a2, e3) == a3
    ensures Replay(es, a0, [e1, e2, e3]) == ([Verdict(a1), Verdict(a2), Verdict(a3)], a3)
  {
    RunTwo(es, a1, e2, a2, e3, a3);
    RunFirst(es, a0, e1, [e2, e3], a1);
    assert [e1, e2, e3] == [e1] + [e2, e3];
    assert [Verdict(a1)] + [Verdict(a2), Verdict(a3)] == [Verdict(a1), Verdict(a2), Verdict(a3)];
  }

  /** The image-source run of the unit test: a new episode needs an answer,
      and `episode_start` completes a valid sequence
      (src/aido_nodes/test_protocol.py:440-451). */
  lemma ImageSourceEpisodeStart(l: Language, e1: Event, e2: Event)
    requires l == G.IMAGE_SOURCE
    requires e1 == InputReceived("next_episode") && e2 == OutputProduced("episode_start")
    ensures Verdicts(l, [e1, e2]) == [NeedMore, Enough]
  {
    ImageSourceCompiles(l);
    ImageSourceInitial(l);
    var es := Compile(l).edges;
    ImageSourceNextEpisode(es, e1);
    ImageSourceEpisodeStartStep(es, e2);
    RunTwo(es, {ACCEPT}, e1, {2}, e2, {ACCEPT});
  }

  /** Because the image loop hangs on the shared accept node, a request for
      an image is still accepted after the source said there are no more
      episodes. */
  lemma ImageSourceImageAfterLastEpisode(l: Language, e1: Event, e2: Event, e3: Event)
    requires l == G.IMAGE_SOURCE
    requires e1 == InputReceived("next_episode") && e2 == OutputProduced("no_more_episodes")
    requires e3 == InputReceived("next_image")
    ensures Verdicts(l, [e1, e2, e3]) == [NeedMore, Enough, NeedMore]
  {
    ImageSourceCompiles(l);
    ImageSourceInitial(l);
    var es := Compile(l).edges;
    ImageSourceNextEpisode(es, e1);
    ImageSourceNoMoreEpisodes(es, e2);
    ImageSourceNextImage(es, e3);
    RunThree(es, {ACCEPT}, e1, {2}, e2, {ACCEPT}, e3, {4});
  }

  /** The same run through the checker object: construct, push twice,
      finish. */
  method ImageSourceRun() returns (first: Result, second: Result, last: Result)
    ensures first == NeedMore && second == Enough && last == Enough
  {
    var l, e1, e2 := G.IMAGE_SOURCE, InputReceived("next_episode"), OutputProduced("episode_start");
    ImageSourceCompiles(l);
    ImageSourceInitial(l);
    ImageSourceNextEpisode(Compile(l).edges, e1);
    ImageSourceEpisodeStartStep(Compile(l).edges, e2);
    var checker := new LanguageChecker(l);
    first := checker.Push(e1);
    second := checker.Push(e2);
    last := checker.Finish();
  }

  // ---------------------------------------------------------------------
  // The unit-test languages

  const OUT_A: Language := ExpectOutputProduced("a")
  const OUT_A_EDGES: seq<Edge> := [Edge(0, Out("a"), 1)]

  const OUT_A_THEN_B: Language := InSequence([ExpectOutputProduced("a"), ExpectOutputProduced("b")])
  const OUT_A_THEN_B_EDGES: seq<Edge> := [Edge(0, Out("a"), 2), Edge(2, Out("b"), 1)]

  lemma OutAThenBNodes()
    ensures MatcherEdgeEach(OUT_A_THEN_B_EDGES, 0) && AlwaysEach(OUT_A_THEN_B_EDGES, {0}) == {}
    ensures MatcherEdgeEach(OUT_A_THEN_B_EDGES, 2) && AlwaysEach(OUT_A_THEN_B_EDGES, {2}) == {}
    ensures !MatcherEdgeEach(OUT_A_THEN_B_EDGES, 1) && !AlwaysEdgeEach(OUT_A_THEN_B_EDGES, 1)
    ensures AlwaysEach(OUT_A_THEN_B_EDGES, {1}) == {}
  {
  }

  lemma OutAThenBSteps()
    ensures StepEach(OUT_A_THEN_B_EDGES, {0}, OutputProduced("a")) == {2}
    ensures StepEach(OUT_A_THEN_B_EDGES, {2}, OutputProduced("b")) == {1}
    ensures StepEach(OUT_A_THEN_B_EDGES, {1}, OutputProduced("c")) == {}
  {
  }

  lemma OutAThenBAdvances(es: seq<Edge>, e1: Event, e2: Event, e3: Event)
    requires es == OUT_A_THEN_B_EDGES
    requires e1 == OutputProduced("a") && e2 == OutputProduced("b") && e3 == OutputProduced("c")
    ensures Advance(es, {START}, e1) == {2}
    ensures Advance(es, {2}, e2) == {ACCEPT}
    ensures Advance(es, {ACCEPT}, e3) == {}
  {
    OutAThenBNodes();
    OutAThenBSteps();
    AdvanceToSingle(es, {START}, e1, 2);
    AdvanceToSingle(es, {2}, e2, ACCEPT);
    AdvanceToNothing(es, {ACCEPT}, e3);
  }

  lemma OutAThenBCompiles(l: Language)
    requires l == OUT_A_THEN_B
    ensures Compile(l).edges == OUT_A_THEN_B_EDGES
    ensures Initial(l) == {START}
  {
    assert ChainNfa([ExpectOutputProduced("b")], 2, ACCEPT, 3) == Nfa(ExpectOutputProduced("b"), 2, ACCEPT, 3);
    OutAThenBNodes();
    EvolveSingle(Compile(l).edges, START);
  }

  /** `out:a ; out:b` answers a, b, c with NeedMore, Enough and then
      Unexpected, after which no node is active
      (src/aido_nodes/test_protocol.py:365-367). */
  lemma OutAThenBOverrun(l: Language, e1: Event, e2: Event, e3: Event)
    requires l == OUT_A_THEN_B
    requires e1 == OutputProduced("a") && e2 == OutputProduced("b") && e3 == OutputProduced("c")
    ensures var run := Replay(Compile(l).edges, Initial(l), [e1, e2, e3]);
            run.0 == [NeedMore, Enough, Unexpected("no active")] && run.1 == {}
  {
    OutAThenBCompiles(l);
    OutAThenBAdvances(Compile(l).edges, e1, e2, e3);
    RunThree(Compile(l).edges, {START}, e1, {2}, e2, {ACCEPT}, e3, {});
  }

  lemma OutAFacts()
    ensures MatcherEdgeEach(OUT_A_EDGES, 0) && AlwaysEach(OUT_A_EDGES, {0}) == {}
    ensures StepEach(OUT_A_EDGES, {0}, InputReceived("a")) == {}
  {
  }

  /** `out:a` pushed an input: Unexpected, and since no node stays active a
      later `finish` is Unexpected too, where the recursive checker of the
      unit test finishes NeedMore (src/aido_nodes/test_protocol.py:330-332). */
  lemma OutAWrongKind(l: Language, e: Event)
    requires l == OUT_A
    requires e == InputReceived("a")
    ensures var run := Replay(Compile(l).edges, Initial(l), [e]);
            run.0 == [Unexpected("no active")] && Verdict(run.1) == Unexpected("no active")
  {
    assert Compile(l).edges == OUT_A_EDGES;
    OutAFacts();
    var es := Compile(l).edges;
    EvolveSingle(es, START);
    AdvanceToNothing(es, {START}, e);
    RunOne(es, {START}, e, {});
  }

  // ---------------------------------------------------------------------
  // The agent protocol: one evolve pass is not enough for `in:seed?`

  /** The compiled agent protocol: node 2 is after the optional seed, 3 after
      `episode_start`, 4 after `get_commands`. */
  const AGENT_EDGES: seq<Edge> := [
    Edge(0, Always, 2),
    Edge(0, In("seed"), 2),
    Edge(2, Always, 1),
    Edge(1, In("episode_start"), 3),
    Edge(3, Always, 1),
    Edge(1, In("observations"), 1),
    Edge(1, In("get_commands"), 4),
    Edge(4, Out("commands"), 1)
  ]

  lemma AgentCompiles(l: Language)
    requires l == G.AGENT
    ensures Compile(l).edges == AGENT_EDGES
  {
    var answer := InSequence([ExpectInputReceived("get_commands"), ExpectOutputProduced("commands")]);
    var request := Either([ExpectInputReceived("observations"), answer]);
    var episode := InSequence([ExpectInputReceived("episode_start"), ZeroOrMore(request)]);
    var seed := ZeroOrOne(ExpectInputReceived("seed"));
    assert G.AGENT == InSequence([seed, ZeroOrMore(episode)]);
    assert ChainNfa([ExpectOutputProduced("commands")], 4, 1, 5) == Nfa(ExpectOutputProduced("commands"), 4, 1, 5);
    assert Nfa(answer, 1, 1, 4).edges == AGENT_EDGES[6..8];
    assert UnionNfa([answer], 1, 1, 4).edges == AGENT_EDGES[6..8];
    assert Nfa(request, 1, 1, 4).edges == AGENT_EDGES[5..8];
    assert Nfa(ZeroOrMore(request), 3, 1, 4).edges == AGENT_EDGES[4..8];
    assert ChainNfa([ZeroOrMore(request)], 3, 1, 4) == Nfa(ZeroOrMore(request), 3, 1, 4);
    assert Nfa(episode, 1, 1, 3).edges == AGENT_EDGES[3..8];
    assert Nfa(ZeroOrMore(episode), 2, 1, 3).edges == AGENT_EDGES[2..8];
    assert ChainNfa([ZeroOrMore(episode)], 2, 1, 3) == Nfa(ZeroOrMore(episode), 2, 1, 3);
    assert Nfa(seed, 0, 2, 3).edges == AGENT_EDGES[0..2];
  }

  /** The start node both waits for the seed and skips to node 2; node 2
      only passes on to the accept node. */
  lemma AgentNodes()
    ensures MatcherEdgeEach(AGENT_EDGES, 0) && AlwaysEach(AGENT_EDGES, {0}) == {2}
    ensures !MatcherEdgeEach(AGENT_EDGES, 2) && AlwaysEdgeEach(AGENT_EDGES, 2)
    ensures AlwaysEach(AGENT_EDGES, {2}) == {1}
  {
  }

  lemma AgentSteps()
    ensures StepEach(AGENT_EDGES, {0, 2}, InputReceived("episode_start")) == {}
    ensures StepEach(AGENT_EDGES, {0, 2}, InputReceived("seed")) == {2}
  {
  }

  lemma AgentEvolveStart(es: seq<Edge>)
    requires es == AGENT_EDGES
    ensures Evolve(es, {START}) == {START, 2}
  {
    AgentNodes();
    EvolveSingle(es, START);
  }

  lemma AgentAdvances(es: seq<Edge>, start: Event, seed: Event)
    requires es == AGENT_EDGES
    requires start == InputReceived("episode_start") && seed == InputReceived("seed")
    ensures Advance(es, {START, 2}, start) == {}
    ensures Advance(es, {START, 2}, seed) == {ACCEPT}
  {
    AgentNodes();
    AgentSteps();
    AdvanceToNothing(es, {START, 2}, start);
    AdvanceToSingle(es, {START, 2}, seed, 2);
  }

  /** The start node waits for the seed and one pass reaches node 2 but not
      the accept node behind it: a fresh agent checker finishes NeedMore
      although the language admits the empty sequence. */
  lemma AgentInitial(l: Language)
    requires l == G.AGENT
    ensures Initial(l) == {START, 2}
    ensures Verdict(Initial(l)) == NeedMore
  {
    AgentCompiles(l);
    AgentEvolveStart(Compile(l).edges);
  }

  /** The agent language does admit the empty sequence. */
  lemma AgentNullable()
    ensures Nullable(G.AGENT)
  {
    var episode := G.AGENT.ls[1];
    assert Nullable(G.AGENT.ls[0]) && Nullable(episode);
  }

  /** For the same reason an episode that skips the optional seed is
      rejected, while one after a seed is accepted. */
  lemma AgentSeedDecides(l: Language, start: Event, seed: Event)
    requires l == G.AGENT
    requires start == InputReceived("episode_start") && seed == InputReceived("seed")
    ensures Advance(Compile(l).edges, Initial(l), start) == {}
    ensures Advance(Compile(l).edges, Initial(l), seed) == {ACCEPT}
  {
    AgentInitial(l);
    AgentCompiles(l);
    AgentAdvances(Compile(l).edges, start, seed);
  }
}
