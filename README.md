# Interaction-protocol checkers of aido-protocols

A node of the Duckietown AI-DO runtime talks to the outside world through
named channels. Its *interaction protocol* pairs the tables of input and
output channels with an *interaction language*, a regular grammar over
events such as "input received on channel `c`" and "output produced on
channel `c`". The runtime checks each observed event against the language
and answers with a verdict:

- `Enough` means the events so far form a complete sequence;
- `NeedMore` means they are a valid prefix;
- `Unexpected` means they are a violation.

This project models the three core files of the repository:

- **language.py** (module `Protocol`). It defines the events, the seven
  grammar combinators as an immutable syntax tree, and the protocol record.
  It also defines the channel sets of a language and the empty-sequence
  test used to state properties.
- **language_recognize.py** (modules `Recognize`, `RecognizeEdges`,
  `RecognizeFacts` and `RecognizeScenarios`). It is the checker the runtime
  uses. `Graph` is a class that grows an edge list in place. Its
  `Compile` method is proved against the pure fragment functions `Nfa`,
  `ChainNfa` and `UnionNfa`. `LanguageChecker` is a class that holds the
  active node set. `EvolveEmpty` and `Push` are the source's nested loops,
  proved against the set functions `Evolve`, `Step` and `Advance`.
  `Finish` reads off the verdict. `RecognizeEdges` gives an independent,
  edge-by-edge reading of the set functions and proves it equal to them.
- **test_protocol.py** (modules `CombinatorCheckers`, `CheckerFacts`,
  `CheckerSteps` and `CheckerScenarios`). It holds the earlier recursive
  checkers, one per combinator, each with `push` and `finish`. A checker's
  state is the datatype `Checker`, and `PushState` and `FinishState` give
  what one call does to it. `ProtocolChecker` is the object that holds a
  state and changes it in place. `AssertSeq` is the test driver's loop,
  proved against the predicate `Passes`. The unit tests at
  test_protocol.py:320-465 are stated as lemmas about `Passes`.

`Grammars` writes the repository's protocols as syntax trees, and
`RepositoryProtocols` applies the general facts to them.

The two checkers are modelled separately and their verdicts are not
identified. They differ in three places:

- **After a violation.**
  - The automaton has no active node left. Every later push is
    `Unexpected`, and so is the final verdict
    (`RecognizeFacts.UnexpectedIsSticky`).
  - A recursive leaf or sequence keeps its state. Its `finish` is `NeedMore`
    after a rejected first event (test_protocol.py:330-347).
- **The image-source test.** The test at test_protocol.py:440-451 expects
  `NeedMore, Enough` and a final `Enough`.
  - The recursive checkers give `NeedMore, NeedMore, NeedMore`, because the
    sequence still holds its pending `ZeroOrMore` item
    (`CheckerScenarios.ImageSourceEpisodeStartNeedsMore`).
  - The automaton gives the expected verdicts
    (`RecognizeScenarios.ImageSourceEpisodeStart`).
- **The shared accept node.** A `ZeroOrMore` compiles its body as a loop on
  its own accept node (language_recognize.py:63). When the repetition ends
  a sequence inside an outer repetition, that node is the outer accept
  node. So the inner loop can start again where the grammar requires a new
  outer item first. In the image source, after `next_episode,
  no_more_episodes`, a `next_image` request gets:
  - `NeedMore` from the automaton
    (`RecognizeScenarios.ImageSourceImageAfterLastEpisode`);
  - `Unexpected` from the recursive checkers, which then finish `NeedMore`
    (`CheckerScenarios.ImageSourceImageAfterLastEpisodeRejected`).

The automaton also departs from its own grammar without departing from the
recursive checkers. It makes one evolve pass after each push, not a
closure, so `Always` edges are followed one step only. For the agent
protocol `in:seed? ; (...)*`, a fresh automaton holds the start node and
node 2, not the accept node. So it finishes `NeedMore` although the
language admits the empty sequence. An episode that skips the seed is
rejected, and one after a seed is accepted:

- `RecognizeScenarios.AgentInitial` and `AgentSeedDecides` prove this for
  the automaton.
- The recursive checkers do the same: their fresh checker finishes
  `NeedMore`, and a first `episode_start` is rejected
  (`CheckerScenarios.AgentEpisodeStartFirst`).

In general, a fresh automaton says `Enough` exactly when one `Always` edge
joins start and accept, and then the language is nullable
(`RecognizeFacts.InitialVerdict` and `SkipIsNullable`).

Automaton nodes are natural numbers:

- `START` is 0 and `ACCEPT` is 1.
- Every other node comes from a counter starting at 2.
- The source names nodes by the path of the sub-language that created
  them. Those paths are distinct, so a counter allocates the same graph up
  to renaming.

## Model

| member | source | states |
|---|---|---|
| Recognize.EventMatches | src/aido_nodes/language_recognize.py:82-91 | an input leaf matches exactly an input on its channel, an output leaf exactly an output on its channel, and `Always` matches no event |
| Recognize.Graph.constructor | src/aido_nodes/language_recognize.py:103 | a new graph has no edges, and its first free node is the first one after start and accept |
| Recognize.Graph.AddEdge | src/aido_nodes/language_recognize.py:47-49 | appends exactly the one edge and allocates nothing |
| Recognize.Graph.AddNode | src/aido_nodes/language_recognize.py:53-57 | returns a node never handed out before and leaves the edges alone |
| Recognize.Graph.Compile | src/aido_nodes/language_recognize.py:42-79 | appends exactly the fragment `Nfa(l, start, accept, next)` to the edges and advances the counter to its end |
| Recognize.Graph.CompileSequence | src/aido_nodes/language_recognize.py:50-59 | the loop over a sequence appends the chain of its parts through fresh nodes, the last part ending on `accept` |
| Recognize.Graph.CompileEither | src/aido_nodes/language_recognize.py:75-77 | the loop over an alternative appends every branch between the same two nodes |
| Recognize.Verdict | src/aido_nodes/language_recognize.py:157-163 | Unexpected exactly for no active node (message "no active"), Enough exactly when the accept node is active, NeedMore exactly otherwise |
| Recognize.Verdicts | src/aido_nodes/language_recognize.py:136-155 | a fresh checker gives one verdict per pushed event |
| Recognize.Replay | src/aido_nodes/language_recognize.py:136-155 | pushing a list of events gives one verdict per event |
| Recognize.LanguageChecker.constructor | src/aido_nodes/language_recognize.py:102-117 | the graph is the compiled language, and the active set is one evolve pass from the start node |
| Recognize.LanguageChecker.EvolveEmpty | src/aido_nodes/language_recognize.py:119-134 | the new active set is `Evolve` of the old one. A node survives when it has a waiting out-edge or no `Always` out-edge, and every `Always` target of an old active node is added, in one pass |
| Recognize.LanguageChecker.Push | src/aido_nodes/language_recognize.py:136-155 | the new active set is the evolve pass over the targets of the matching edges out of the old active nodes, and the result is its verdict |
| Recognize.LanguageChecker.Finish | src/aido_nodes/language_recognize.py:157-163 | reports the verdict of the active set and changes nothing |
| Recognize.EvolveAddNode | src/aido_nodes/language_recognize.py:121-133 | the outer loop's step: evolving one more node adds that node if it survives, plus its `Always` targets |
| Recognize.StepAddNode | src/aido_nodes/language_recognize.py:140-144 | the outer loop's step: stepping from one more node adds that node's matching targets |
| RecognizeEdges.StepByEdge | src/aido_nodes/language_recognize.py:140-144 | the set of matching targets equals the edge-by-edge union over the edge list |
| RecognizeEdges.AlwaysTargetsByEdge | src/aido_nodes/language_recognize.py:124-128 | the `Always` targets equal the edge-by-edge union over the edge list |
| RecognizeEdges.EdgeTestsByEdge | src/aido_nodes/language_recognize.py:124-131 | "has a waiting out-edge" and "has an `Always` out-edge" equal their edge-by-edge readings |
| RecognizeEdges.EvolveSingle | src/aido_nodes/language_recognize.py:119-134 | evolving a single node gives the node itself (when it survives) together with its `Always` targets |
| RecognizeEdges.AdvanceToSingle | src/aido_nodes/language_recognize.py:136-155 | a push whose matching targets are the single node `n` leaves `n` if it survives, plus the `Always` targets of `n` |
| RecognizeEdges.AdvanceToNothing | src/aido_nodes/language_recognize.py:136-155 | a push that matches no edge leaves no active node |
| RecognizeFacts.NfaBounds | src/aido_nodes/language_recognize.py:42-79 | compiling only allocates upwards from the counter, and every edge joins `start`, `accept` or a node it allocated itself |
| RecognizeFacts.ChainBounds | src/aido_nodes/language_recognize.py:50-59 | the same for a sequence |
| RecognizeFacts.UnionBounds | src/aido_nodes/language_recognize.py:75-77 | the same for an alternative |
| RecognizeFacts.NfaLabels | src/aido_nodes/language_recognize.py:46-49 | every `In(c)` edge comes from an input leaf on `c`, and every `Out(c)` edge from an output leaf on `c` |
| RecognizeFacts.ChildLabel | src/aido_nodes/language_recognize.py:52-58 | a label from a child of a sequence or alternative is a label of the parent |
| RecognizeFacts.ChainLabels | src/aido_nodes/language_recognize.py:50-59 | the same for the parts of a sequence |
| RecognizeFacts.UnionLabels | src/aido_nodes/language_recognize.py:75-77 | the same for the branches of an alternative |
| RecognizeFacts.CompiledChannelsDeclared | src/aido_nodes/language.py:89-97 | if a protocol's language only uses channels from its tables, every waiting edge of its automaton names a channel of the table for its direction |
| RecognizeFacts.NfaEdgeCount | src/aido_nodes/language_recognize.py:42-79 | the automaton has one edge per leaf and one `Always` edge per `ZeroOrMore` and `ZeroOrOne`, with the child of a `OneOrMore` counted twice |
| RecognizeFacts.ChainEdgeCount | src/aido_nodes/language_recognize.py:50-59 | the same for a sequence: the sum over its parts |
| RecognizeFacts.UnionEdgeCount | src/aido_nodes/language_recognize.py:75-77 | the same for an alternative: the sum over its branches |
| RecognizeFacts.NfaSkip | src/aido_nodes/language_recognize.py:61-73 | an `Always` edge joins `start` and `accept` if and only if the language is of the skipping shape |
| RecognizeFacts.ChainSkip | src/aido_nodes/language_recognize.py:50-59 | a sequence has such an edge exactly when it has one part and that part skips |
| RecognizeFacts.UnionSkip | src/aido_nodes/language_recognize.py:75-77 | an alternative has such an edge exactly when some branch skips |
| RecognizeFacts.InitialVerdict | src/aido_nodes/language_recognize.py:116-117 | a fresh checker is never Unexpected, and it is Enough if and only if the language skips from start to accept |
| RecognizeFacts.SkipIsNullable | src/aido_nodes/language_recognize.py:61-73 | a language whose fragment skips admits the empty sequence, so an initial Enough is never wrong |
| RecognizeFacts.ReplayFromNothing | src/aido_nodes/language_recognize.py:136-163 | from an empty active set, every push is Unexpected and nothing becomes active again |
| RecognizeFacts.ReplayHead | src/aido_nodes/language_recognize.py:136-155 | the verdicts of a run are the first push's verdict followed by the verdicts of the rest, and the run ends where the rest ends |
| RecognizeFacts.UnexpectedIsSticky | src/aido_nodes/language_recognize.py:136-163 | once a push is Unexpected, every later push is Unexpected too, no node is active at the end, and `finish` reports Unexpected |
| RecognizeScenarios.ImageSourceCompiles | src/aido_nodes/language_recognize.py:42-79 | the image-source protocol compiles to eight edges: both repetitions loop on the accept node, the answer to `next_episode` waits on node 2, and the image answer waits on node 4 |
| RecognizeScenarios.ImageSourceInitial | src/aido_nodes/language_recognize.py:116-117 | a fresh image-source checker holds the accept node alone |
| RecognizeScenarios.ImageSourceNextEpisode | src/aido_nodes/language_recognize.py:136-155 | `next_episode` moves from the accept node to the node waiting for the answer |
| RecognizeScenarios.ImageSourceEpisodeStartStep | src/aido_nodes/language_recognize.py:136-155 | `episode_start` reaches the accept node through an `Always` edge in the same push |
| RecognizeScenarios.ImageSourceNoMoreEpisodes | src/aido_nodes/language_recognize.py:136-155 | `no_more_episodes` returns to the accept node |
| RecognizeScenarios.ImageSourceNextImage | src/aido_nodes/language_recognize.py:136-155 | `next_image` moves from the accept node to the node waiting for the image |
| RecognizeScenarios.ImageSourceEpisodeStart | src/aido_nodes/test_protocol.py:440-451 | the automaton answers `next_episode, episode_start` with NeedMore, Enough, as that test expects |
| RecognizeScenarios.ImageSourceImageAfterLastEpisode | src/aido_nodes/language_recognize.py:136-163 | the automaton answers `next_episode, no_more_episodes, next_image` with NeedMore, Enough, NeedMore, so a request for an image after the last episode is not rejected |
| RecognizeScenarios.ImageSourceRun | src/aido_nodes/language_recognize.py:98-163 | constructing, pushing the two events and finishing gives NeedMore, Enough, Enough |
| RecognizeScenarios.OutAThenBCompiles | src/aido_nodes/language_recognize.py:50-59 | `out:a ; out:b` compiles to two edges through one fresh node, and a fresh checker holds only the start node |
| RecognizeScenarios.OutAThenBOverrun | src/aido_nodes/test_protocol.py:365-367 | `a, b, c` gives NeedMore, Enough, Unexpected on the automaton too, and then no node is active, so its finish is Unexpected where that test's checker says Enough |
| RecognizeScenarios.OutAWrongKind | src/aido_nodes/test_protocol.py:330-332 | an input pushed into `out:a` is Unexpected, and the finish is Unexpected where that test's checker says NeedMore |
| RecognizeScenarios.AgentCompiles | src/aido_schemas/protocol_agent.py:36-43 | the agent protocol compiles to the listed eight edges |
| RecognizeScenarios.AgentInitial | src/aido_nodes/language_recognize.py:116-134 | a fresh agent checker holds the start node and node 2 but not the accept node, and so reports NeedMore |
| RecognizeScenarios.AgentNullable | src/aido_schemas/protocol_agent.py:36-43 | the agent language does admit the empty sequence |
| RecognizeScenarios.AgentSeedDecides | src/aido_nodes/language_recognize.py:136-155 | from the fresh agent checker, `episode_start` leaves no active node while `seed` reaches the accept node |
| RepositoryProtocols.RepeatedStartsDone | src/aido_nodes/language_recognize.py:61-63 | for any language whose top is a `ZeroOrMore`, a fresh automaton is Enough and a fresh recursive checker finishes Enough |
| RepositoryProtocols.NodeProtocolsStartDone | src/aido_nodes/protocols.py:5-49 | the node package's agent, image filter and image source may stop before their first exchange, on both checkers |
| RepositoryProtocols.ImageFilterStartDone | src/aido_schemas/protocols.py:19-28 | the same for the schema package's image filter |
| RepositoryProtocols.AgentProtocol1StartDone | src/duckietown_types/simulators.py:43-49 | the same for the simulator's agent protocol |
| RepositoryProtocols.BasicStartDone | src/aido_nodes/constants.py:5-30 | the same for the node wrapper's own request/reply protocol |
| RepositoryProtocols.ImageSourceTablesCover | src/aido_nodes/protocols.py:26-49 | every waiting edge of the image-source automaton names a channel of the table for its direction |
| RepositoryProtocols.ImageSourceInputs | src/aido_nodes/protocols.py:34-35 | the image-source language only waits for inputs on `next_image` and `next_episode` |
| RepositoryProtocols.ImageSourceOutputs | src/aido_nodes/protocols.py:36-39 | the image-source language only produces outputs on its four output channels |
| RepositoryProtocols.ImageFilterTablesCover | src/aido_schemas/protocols.py:19-28 | the same for the image filter, whose two tables share channel names |
| CombinatorCheckers.PushIR | src/aido_nodes/test_protocol.py:52-60 | Enough exactly for the first input on the leaf's channel, never NeedMore; the leaf records the event exactly then |
| CombinatorCheckers.PushOP | src/aido_nodes/test_protocol.py:79-88 | the same for an output leaf |
| CombinatorCheckers.PushSequence | src/aido_nodes/test_protocol.py:133-149 | a sequence with nothing left rejects and stays as it is; otherwise it stays a sequence |
| CombinatorCheckers.PushEither | src/aido_nodes/test_protocol.py:165-186 | Unexpected exactly when no branch is left |
| CombinatorCheckers.PushZeroOrMore | src/aido_nodes/test_protocol.py:211-224 | the repetition keeps its child and becomes idle exactly when the push is Enough |
| CombinatorCheckers.PushOneOrMore | src/aido_nodes/test_protocol.py:241-255 | the same, and the count of occurrences grows by one exactly on Enough |
| CombinatorCheckers.PushZeroOrOne | src/aido_nodes/test_protocol.py:275-291 | once its occurrence is found, it rejects and stays as it is; the count grows by at most one |
| CombinatorCheckers.PushSequenceSpec | src/aido_nodes/test_protocol.py:133-149 | delegates to the head and rejects exactly when the head does. It is Enough exactly when the head completes and was the last item. The head is dropped exactly when it completes, and the rest is kept in order |
| CombinatorCheckers.PushEitherBranches | src/aido_nodes/test_protocol.py:168-171 | the branches kept are exactly those that did not answer Unexpected, each in its pushed state |
| CombinatorCheckers.PushEitherVerdict | src/aido_nodes/test_protocol.py:166-186 | Enough if and only if some branch is Enough, else NeedMore if and only if some branch is NeedMore |
| CombinatorCheckers.PushRepetitionSpec | src/aido_nodes/test_protocol.py:211-291 | a repetition passes on the verdict of the checker in progress (a fresh one when idle). `ZeroOrMore` and `OneOrMore` drop that checker exactly on Enough, and `OneOrMore` then counts it. `ZeroOrOne` keeps it and counts the completion |
| CombinatorCheckers.FinishSpec | src/aido_nodes/test_protocol.py:188-297 | an alternative finishes Enough exactly when some branch does. A `OneOrMore` after its first occurrence, and a `ZeroOrOne`, finish as their occurrence in progress does. (`ZeroOrMore` does not ask its child; see `FinishZeroOrMore`) |
| CombinatorCheckers.FinishLeaf | src/aido_nodes/test_protocol.py:62-66 | a leaf finishes Enough exactly when it has received its event, and NeedMore otherwise |
| CombinatorCheckers.FinishSequence | src/aido_nodes/test_protocol.py:151-155 | NeedMore exactly while items remain, otherwise Enough |
| CombinatorCheckers.FinishEither | src/aido_nodes/test_protocol.py:188-190 | Unexpected exactly when no branch is left |
| CombinatorCheckers.FinishZeroOrMore | src/aido_nodes/test_protocol.py:226-230 | Enough exactly when idle, and never Unexpected |
| CombinatorCheckers.FinishOneOrMore | src/aido_nodes/test_protocol.py:257-264 | NeedMore before the first occurrence; Enough when idle after one |
| CombinatorCheckers.FinishZeroOrOne | src/aido_nodes/test_protocol.py:293-297 | Enough when nothing has started |
| CombinatorCheckers.Replay | src/aido_nodes/test_protocol.py:304-305 | pushing a list of events gives one verdict per event |
| CombinatorCheckers.ProtocolChecker.constructor | src/aido_nodes/test_protocol.py:97-119 | a new checker object holds the fresh state for its language |
| CombinatorCheckers.ProtocolChecker.Push | src/aido_nodes/test_protocol.py:305 | the verdict and the new state are one push of the old state |
| CombinatorCheckers.ProtocolChecker.Finish | src/aido_nodes/test_protocol.py:312 | the verdict of `finish` on the current state, which does not change |
| CombinatorCheckers.AssertSeq | src/aido_nodes/test_protocol.py:300-317 | the driver succeeds if and only if the run passes: every verdict and the final one as expected, over the shorter of the two lists |
| CombinatorCheckers.MismatchFails | src/aido_nodes/test_protocol.py:306-310 | a verdict that differs from the expected one fails the run |
| CombinatorCheckers.ReplayStep | src/aido_nodes/test_protocol.py:304-305 | replaying one more event extends the verdicts by that push |
| CombinatorCheckers.ReplayPrefix | src/aido_nodes/test_protocol.py:304-305 | replaying a prefix gives a prefix of the verdicts |
| CheckerFacts.FreshFinish | src/aido_nodes/test_protocol.py:97-119 | a fresh checker finishes Enough if and only if its language is optional, repeated, an empty sequence, or an alternative with such a branch. It finishes Unexpected if and only if the language is the empty alternative |
| CheckerFacts.DoneWhenFreshIsNullable | src/aido_nodes/test_protocol.py:97-119 | a language whose fresh checker is satisfied admits the empty sequence |
| CheckerFacts.ExhaustedPush | src/aido_nodes/test_protocol.py:52-297 | a used leaf, an empty sequence, an alternative with no branch and a completed `ZeroOrOne` answer every event Unexpected and do not change |
| CheckerFacts.ExhaustedReplay | src/aido_nodes/test_protocol.py:52-297 | the same over any number of events |
| CheckerFacts.EitherUnexpectedIsSticky | src/aido_nodes/test_protocol.py:165-190 | once an alternative answers Unexpected, it answers Unexpected to every later event |
| CheckerFacts.LeafEnoughOnce | src/aido_nodes/test_protocol.py:52-60 | over any run, a leaf says Enough at most once, and it has received its event exactly when it has |
| CheckerFacts.OneOrMoreCounts | src/aido_nodes/test_protocol.py:241-255 | `nfound` counts exactly the Enough verdicts of the run |
| CheckerFacts.OneOrMoreNeedsOne | src/aido_nodes/test_protocol.py:257-259 | a `OneOrMore` with no Enough yet finishes NeedMore |
| CheckerFacts.ZeroOrMoreIdle | src/aido_nodes/test_protocol.py:211-230 | a `ZeroOrMore` that starts idle finishes Enough if and only if no event was pushed or the last push was Enough |
| CheckerFacts.ZeroOrMoreShape | src/aido_nodes/test_protocol.py:211-224 | a `ZeroOrMore` stays one over the same child |
| CheckerFacts.ReplayThrough | src/aido_nodes/test_protocol.py:304-305 | a run given push by push replays to those verdicts and that last state |
| CheckerSteps.OutputAccepted | src/aido_nodes/test_protocol.py:79-88 | a fresh output leaf takes its own output with Enough |
| CheckerSteps.InputAccepted | src/aido_nodes/test_protocol.py:52-60 | a fresh input leaf takes its own input with Enough |
| CheckerSteps.OutputRejected | src/aido_nodes/test_protocol.py:79-86 | an output leaf rejects every other event, and its own a second time, unchanged |
| CheckerSteps.InputRejected | src/aido_nodes/test_protocol.py:52-58 | an input leaf rejects every other event, and its own a second time, unchanged |
| CheckerSteps.HeadOfTwoCompletes | src/aido_nodes/test_protocol.py:136-141 | a completed head is dropped and the sequence needs more |
| CheckerSteps.HeadOfThreeCompletes | src/aido_nodes/test_protocol.py:136-141 | the same with two items after it |
| CheckerSteps.HeadOfTwoRejects | src/aido_nodes/test_protocol.py:144-145 | a rejecting head makes the sequence reject, and the sequence keeps the head's new state in front of the rest |
| CheckerSteps.LastCompletes | src/aido_nodes/test_protocol.py:138-143 | completing the last item completes the sequence |
| CheckerSteps.LastGoesOn | src/aido_nodes/test_protocol.py:146-147 | an unfinished last item leaves the sequence needing more |
| CheckerSteps.EmptyRejects | src/aido_nodes/test_protocol.py:134-135 | a sequence with nothing left rejects |
| CheckerSteps.EitherKeeps | src/aido_nodes/test_protocol.py:168-171 | the pushed alternative holds exactly the given surviving branches |
| CheckerSteps.OneOfTwoCompletes | src/aido_nodes/test_protocol.py:165-178 | one branch completing while the other fails gives Enough and keeps that branch alone |
| CheckerSteps.OneOfTwoGoesOn | src/aido_nodes/test_protocol.py:165-181 | one branch going on while the other fails gives NeedMore and keeps that branch alone |
| CheckerSteps.ThirdOfThreeCompletes | src/aido_nodes/test_protocol.py:165-178 | the third branch completing while the others fail gives Enough and keeps it alone |
| CheckerSteps.OnlyBranchCompletes | src/aido_nodes/test_protocol.py:165-178 | the one branch left completing gives Enough |
| CheckerSteps.OnlyBranchFinishes | src/aido_nodes/test_protocol.py:192-199 | an alternative whose one branch finishes Enough finishes Enough |
| CheckerSteps.ZeroOrMoreCompletes | src/aido_nodes/test_protocol.py:211-220 | an idle `ZeroOrMore` whose fresh child completes says Enough and stays idle |
| CheckerSteps.ZeroOrMoreStarts | src/aido_nodes/test_protocol.py:211-222 | an idle `ZeroOrMore` whose fresh child goes on keeps that child |
| CheckerSteps.ZeroOrMoreGoesOn | src/aido_nodes/test_protocol.py:215-222 | a busy `ZeroOrMore` whose child goes on keeps the new child |
| CheckerSteps.ZeroOrMoreFinishesOne | src/aido_nodes/test_protocol.py:215-220 | a busy `ZeroOrMore` whose child completes says Enough and becomes idle |
| CheckerSteps.ZeroOrMoreRejects | src/aido_nodes/test_protocol.py:211-224 | an idle `ZeroOrMore` whose fresh child rejects says Unexpected and keeps the rejected child in progress |
| CheckerSteps.OneOrMoreCompletes | src/aido_nodes/test_protocol.py:241-251 | an idle `OneOrMore` whose fresh child completes counts one more |
| CheckerSteps.ZeroOrOneCompletes | src/aido_nodes/test_protocol.py:275-287 | a fresh `ZeroOrOne` whose child completes has found its one occurrence |
| CheckerSteps.ZeroOrOneRejects | src/aido_nodes/test_protocol.py:275-291 | a fresh `ZeroOrOne` whose child rejects says Unexpected, counts nothing and keeps the rejected child |
| CheckerSteps.ZeroOrOneFull | src/aido_nodes/test_protocol.py:276-277 | after its occurrence, a `ZeroOrOne` rejects and stays as it is |
| CheckerSteps.FreshSequenceOfTwo | src/aido_nodes/test_protocol.py:129-131 | a fresh sequence holds the fresh checkers of its parts, in order |
| CheckerSteps.FreshSequenceOfThree | src/aido_nodes/test_protocol.py:129-131 | the same for three parts |
| CheckerSteps.FreshEitherOfTwo | src/aido_nodes/test_protocol.py:162-163 | a fresh alternative maps each branch index to that branch's fresh checker |
| CheckerSteps.FreshEitherOfThree | src/aido_nodes/test_protocol.py:162-163 | the same for three branches |
| CheckerSteps.PassesWhen | src/aido_nodes/test_protocol.py:300-317 | with as many expected verdicts as events, a run passes exactly when the replay gives those verdicts and `finish` the final one |
| CheckerScenarios.LeavesAccept | src/aido_nodes/test_protocol.py:320-327 | `out:a` and `in:a` accept their own event and finish Enough |
| CheckerScenarios.LeavesReject | src/aido_nodes/test_protocol.py:330-347 | a wrong kind or channel is Unexpected, and `finish` then says NeedMore |
| CheckerScenarios.SequenceOfTwo | src/aido_nodes/test_protocol.py:350-367 | `out:a ; out:b` passes the three tests at 350-352, 360-362 and 365-367. In the last, the finish after the overrun is Enough |
| CheckerScenarios.SequenceOfThree | src/aido_nodes/test_protocol.py:355-357 | `out:a ; out:b ; out:b` still needs its last item |
| CheckerScenarios.ZeroOrMoreRepeats | src/aido_nodes/test_protocol.py:370-382 | `out:a *` accepts none, one or two events |
| CheckerScenarios.OneOrMoreRepeats | src/aido_nodes/test_protocol.py:410-422 | `out:a +` needs one event and accepts two |
| CheckerScenarios.ZeroOrOneAtMostOnce | src/aido_nodes/test_protocol.py:425-437 | `out:a ?` accepts none or one event, and rejects a second while still finishing Enough |
| CheckerScenarios.EitherOfTwo | src/aido_nodes/test_protocol.py:385-392 | `out:a \| out:b` accepts either event |
| CheckerScenarios.EitherThirdOfThree | src/aido_nodes/test_protocol.py:395-397 | `out:a \| out:b \| out:c` accepts its last branch's event |
| CheckerScenarios.BothOrdersAThenB | src/aido_nodes/test_protocol.py:400-402 | `(out:a ; out:b) \| (out:b ; out:a)` takes `a, b` with NeedMore, Enough |
| CheckerScenarios.BothOrdersBThenA | src/aido_nodes/test_protocol.py:405-407 | and `b, a` the same way |
| CheckerScenarios.ImageSourceFresh | src/aido_nodes/test_protocol.py:97-119 | the fresh image-source checker, built from the inside out |
| CheckerScenarios.ImageSourceReplyStarts | src/aido_nodes/test_protocol.py:165-181 | `episode_start` drops the `no_more_episodes` branch and leaves the image loop pending, with NeedMore |
| CheckerScenarios.ImageSourceEpisodeStartNeedsMore | src/aido_nodes/test_protocol.py:440-451 | the recursive checkers answer `next_episode, episode_start` with NeedMore, NeedMore and finish NeedMore, so the run that test expects does not pass |
| CheckerScenarios.ImageSourceImageAfterLastEpisodeRejected | src/aido_nodes/test_protocol.py:211-224 | after `next_episode, no_more_episodes`, the recursive checkers reject `next_image` and finish NeedMore, where the automaton says NeedMore to it |
| CheckerScenarios.AgentEpisodeStartFirst | src/aido_nodes/test_protocol.py:129-155 | a fresh agent checker finishes NeedMore, and a first `episode_start` is Unexpected and leaves it finishing NeedMore, as on the automaton |

## Left out

- The textual grammar and its parser (`parse_language`) are not part of
  this model. Languages are written as syntax trees in `Grammars`. A chain
  `a ; b ; c` is taken as one sequence of three parts, and `a | b | c` as
  one alternative of three branches.
- Drawing the automaton is left out because it is output only. This covers
  the node labels and `write_dot` at language_recognize.py:107-115, and
  the display labels of edges.
- Channel payload types are kept as type names only, since no check reads
  them.
- The schemas, the node wrappers and the draft protocols are outside the
  core.
- `Language.push` and `reset` do nothing in the source, so the syntax tree
  is a plain value here.
- The text of an `Unexpected` message is kept only as the constant
  "no active" that the automaton reports. The recursive checkers' verdicts
  carry no message.
- The source's runtime type checks are not modelled: `assert False` on an
  unknown combinator and `NotImplementedError` on an unknown matcher. The
  datatypes are closed, so those branches cannot occur.
- `InputClosed` and `OutputClosed` events are kept as events. No matcher
  accepts them, as in the source.
- No theorem relates the automaton's verdicts to the language's
  sequences, because the automaton does not accept exactly the sequences
  of its grammar. There are two causes:
  - The evolve pass is a single step, so it can reject sequences the
    grammar admits (see `AgentInitial`).
  - A repetition's loop shares its accept node with an enclosing
    repetition, so it can accept prefixes the grammar forbids (see
    `ImageSourceImageAfterLastEpisode`).

  The properties proved are the ones listed above.
- RecognizeScenarios.OutAThenBOverrun, RecognizeScenarios.OutAWrongKind:
  only the automaton's side is proved here. The recursive side of the same
  tests is in `CheckerScenarios.SequenceOfTwo` and `LeavesReject`.
- CombinatorCheckers.PushSequence, CombinatorCheckers.PushEither,
  CombinatorCheckers.PushZeroOrMore, CombinatorCheckers.PushOneOrMore,
  CombinatorCheckers.PushZeroOrOne: their contracts state only what holds
  without looking inside the children. What they do in terms of the
  children's pushes is stated in the spec lemmas `PushSequenceSpec`,
  `PushEitherBranches`, `PushEitherVerdict` and `PushRepetitionSpec`.
- CombinatorCheckers.FinishEither, CombinatorCheckers.FinishOneOrMore,
  CombinatorCheckers.FinishZeroOrOne: likewise, their delegation to a child
  is stated in `FinishSpec`.
- Each repetition checker keeps the fresh state of its child (`initial`)
  rather than the child's language. `get_checker` has no side effects, so
  a new child checker is always that value.
