/** The repository's own interaction protocols, checked against the general
    facts: each one that repeats a request/reply exchange starts out
    satisfied on both checkers, and the automata of the two protocols with
    channel tables only wait on declared channels. */
module RepositoryProtocols {
  import opened Protocol
  import R = Recognize
  import RF = RecognizeFacts
  import C = CombinatorCheckers
  import CF = CheckerFacts
  import G = Grammars

  /** A language that is a repetition at the top may stop before its first
      exchange: the fresh acceptor holds the accept node, and the fresh
      recursive checker finishes Enough. */
  lemma RepeatedStartsDone(l: Language)
    requires l.ZeroOrMore?
    ensures R.Verdict(R.Initial(l)) == R.Enough
    ensures C.FinishState(C.GetChecker(l)) == C.Enough
  {
    RF.InitialVerdict(l);
    CF.FreshFinish(l);
  }

  /** The node package's agent, image filter and image source. */
  lemma NodeProtocolsStartDone(l: Language)
    requires l == G.AGENT_JPG_PWM || l == G.NODE_IMAGE_FILTER || l == G.IMAGE_SOURCE
    ensures R.Verdict(R.Initial(l)) == R.Enough
    ensures C.FinishState(C.GetChecker(l)) == C.Enough
  {
    RepeatedStartsDone(l);
  }

  /** The schema package's image filter. */
  lemma ImageFilterStartDone(l: Language)
    requires l == G.IMAGE_FILTER
    ensures R.Verdict(R.Initial(l)) == R.Enough
    ensures C.FinishState(C.GetChecker(l)) == C.Enough
  {
    RepeatedStartsDone(l);
  }

  /** The simulator's agent protocol. */
  lemma AgentProtocol1StartDone(l: Language)
    requires l == G.AGENT_PROTOCOL1
    ensures R.Verdict(R.Initial(l)) == R.Enough
    ensures C.FinishState(C.GetChecker(l)) == C.Enough
  {
    RepeatedStartsDone(l);
  }

  /** The node wrapper's own protocol. */
  lemma BasicStartDone(l: Language)
    requires l == G.BASIC
    ensures R.Verdict(R.Initial(l)) == R.Enough
    ensures C.FinishState(C.GetChecker(l)) == C.Enough
  {
    RepeatedStartsDone(l);
  }

  /** Every waiting edge of the image-source automaton names a channel of
      the table for its direction. */
  lemma ImageSourceTablesCover(p: InteractionProtocol)
    requires p == G.IMAGE_SOURCE_PROTOCOL
    ensures forall x | x in R.Compile(p.interaction).edges ::
              (x.m.In? ==> x.m.channel in p.inputs) && (x.m.Out? ==> x.m.channel in p.outputs)
  {
    ImageSourceInputs(p.interaction);
    ImageSourceOutputs(p.interaction);
    RF.CompiledChannelsDeclared(p);
  }

  lemma ImageSourceInputs(l: Language)
    requires l == G.IMAGE_SOURCE
    ensures InputChannels(l) <= {"next_image", "next_episode"}
  {
  }

  lemma ImageSourceOutputs(l: Language)
    requires l == G.IMAGE_SOURCE
    ensures OutputChannels(l) <= {"image", "episode_start", "no_more_images", "no_more_episodes"}
  {
  }

  /** The same for the image filter, whose tables share channel names. */
  lemma ImageFilterTablesCover(p: InteractionProtocol)
    requires p == G.IMAGE_FILTER_PROTOCOL
    ensures forall x | x in R.Compile(p.interaction).edges ::
              (x.m.In? ==> x.m.channel in p.inputs) && (x.m.Out? ==> x.m.channel in p.outputs)
  {
    assert ChannelsDeclared(p);
    RF.CompiledChannelsDeclared(p);
  }
}
