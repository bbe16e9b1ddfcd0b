/** The interaction protocols of the repository, written as syntax trees.
    The source writes them in a textual grammar read by a parser that is not
    part of this model; `a ; b ; c` is taken as one sequence of three
    children and `a | b | c` as one alternative of three branches. */
module Grammars {
  import opened Protocol

  /** `(in:camera_image ; out:pwm_commands)*`
      (src/aido_nodes/protocols.py:5-17). */
  const AGENT_JPG_PWM: Language :=
    ZeroOrMore(InSequence([ExpectInputReceived("camera_image"), ExpectOutputProduced("pwm_commands")]))

  /** `(in:image ; out:transformed)*`, the node package's own image filter
      (src/aido_nodes/protocols.py:19-24). */
  const NODE_IMAGE_FILTER: Language :=
    ZeroOrMore(InSequence([ExpectInputReceived("image"), ExpectOutputProduced("transformed")]))

  /** `(in:next_episode ; (out:no_more_episodes | (out:episode_start ;
      (in:next_image ; (out:image | out:no_more_images))*)))*`
      (src/aido_nodes/protocols.py:26-49). */
  const IMAGE_SOURCE: Language :=
    ZeroOrMore(InSequence([
      ExpectInputReceived("next_episode"),
      Either([
        ExpectOutputProduced("no_more_episodes"),
        InSequence([
          ExpectOutputProduced("episode_start"),
          ZeroOrMore(InSequence([
            ExpectInputReceived("next_image"),
            Either([ExpectOutputProduced("image"), ExpectOutputProduced("no_more_images")])]))])])]))

  const IMAGE_SOURCE_PROTOCOL: InteractionProtocol :=
    InteractionProtocol(
      "An abstraction over logs.",
      map["next_image" := PayloadType("None"), "next_episode" := PayloadType("None")],
      map["image" := PayloadType("JPGImage"), "episode_start" := PayloadType("EpisodeStart"),
          "no_more_images" := PayloadType("None"), "no_more_episodes" := PayloadType("None")],
      IMAGE_SOURCE)

  /** `in:seed? ; (in:episode_start ; (in:observations |
      (in:get_commands ; out:commands))*)*`
      (src/aido_schemas/protocol_agent.py:20-44). */
  const AGENT: Language :=
    InSequence([
      ZeroOrOne(ExpectInputReceived("seed")),
      ZeroOrMore(InSequence([
        ExpectInputReceived("episode_start"),
        ZeroOrMore(Either([
          ExpectInputReceived("observations"),
          InSequence([ExpectInputReceived("get_commands"), ExpectOutputProduced("commands")])]))]))])

  /** `(in:episode_start ; out:episode_start ; (in:image ; out:image)*)*`,
      whose channels `image` and `episode_start` are declared both as inputs
      and as outputs (src/aido_schemas/protocols.py:19-28). */
  const IMAGE_FILTER: Language :=
    ZeroOrMore(InSequence([
      ExpectInputReceived("episode_start"),
      ExpectOutputProduced("episode_start"),
      ZeroOrMore(InSequence([ExpectInputReceived("image"), ExpectOutputProduced("image")]))]))

  const IMAGE_FILTER_PROTOCOL: InteractionProtocol :=
    InteractionProtocol(
      "An image filter. Takes an image, returns an image.",
      map["image" := PayloadType("JPGImage"), "episode_start" := PayloadType("EpisodeStart")],
      map["image" := PayloadType("JPGImage"), "episode_start" := PayloadType("EpisodeStart")],
      IMAGE_FILTER)

  /** The agent protocol given directly as a tree
      (src/duckietown_types/simulators.py:43-49). */
  const AGENT_PROTOCOL1: Language :=
    ZeroOrMore(InSequence([ExpectInputReceived("image"), ExpectOutputProduced("commands")]))

  /** The node wrapper's own protocol: any number of request/reply pairs
      (src/aido_nodes/constants.py:5-30). */
  const BASIC: Language :=
    ZeroOrMore(Either([
      InSequence([ExpectInputReceived("describe_node"), ExpectOutputProduced("node_description")]),
      InSequence([ExpectInputReceived("describe_config"), ExpectOutputProduced("node_config_state")]),
      InSequence([ExpectInputReceived("set_config"), ExpectOutputProduced("set_config_ack")])]))
}
