/** Events observed on a node's channels, the interaction language over them,
    and the interaction protocol record that pairs a language with its
    channel tables (src/aido_nodes/language.py). */
module Protocol {

  type ChannelName = string

  /** What the runtime observes. Only the first two carry a channel; the two
      "closed" events carry no data. */
  datatype Event =
    | InputReceived(channel: ChannelName)
    | OutputProduced(channel: ChannelName)
    | InputClosed
    | OutputClosed

  /** The closed set of seven grammar combinators. A value is a finite tree:
      the AST is immutable, so the source's `push` and `reset` on it (which do
      nothing) have no counterpart. */
  datatype Language =
    | ExpectInputReceived(channel: ChannelName)
    | ExpectOutputProduced(channel: ChannelName)
    | InSequence(ls: seq<Language>)
    | ZeroOrOne(l: Language)
    | ZeroOrMore(l: Language)
    | OneOrMore(l: Language)
    | Either(ls: seq<Language>)

  /** The payload type declared for a channel, named by its type. */
  datatype PayloadType = PayloadType(name: string)

  /** A description, separate input and output channel tables, and the
      interaction language. The same name may appear in both tables. */
  datatype InteractionProtocol = InteractionProtocol(
    description: string,
    inputs: map<ChannelName, PayloadType>,
    outputs: map<ChannelName, PayloadType>,
    interaction: Language)

  /** The channels of the `ExpectInputReceived` leaves of `l`. */
  function InputChannels(l: Language): set<ChannelName>
  {
    match l
    case ExpectInputReceived(c) => {c}
    case ExpectOutputProduced(_) => {}
    case InSequence(ls) => set i, c | 0 <= i < |ls| && c in InputChannels(ls[i]) :: c
    case Either(ls) => set i, c | 0 <= i < |ls| && c in InputChannels(ls[i]) :: c
    case ZeroOrOne(c) => InputChannels(c)
    case ZeroOrMore(c) => InputChannels(c)
    case OneOrMore(c) => InputChannels(c)
  }

  /** The channels of the `ExpectOutputProduced` leaves of `l`. */
  function OutputChannels(l: Language): set<ChannelName>
  {
    match l
    case ExpectInputReceived(_) => {}
    case ExpectOutputProduced(c) => {c}
    case InSequence(ls) => set i, c | 0 <= i < |ls| && c in OutputChannels(ls[i]) :: c
    case Either(ls) => set i, c | 0 <= i < |ls| && c in OutputChannels(ls[i]) :: c
    case ZeroOrOne(c) => OutputChannels(c)
    case ZeroOrMore(c) => OutputChannels(c)
    case OneOrMore(c) => OutputChannels(c)
  }

  /** Every channel the language expects is declared in the table for its
      direction. */
  predicate ChannelsDeclared(p: InteractionProtocol)
  {
    InputChannels(p.interaction) <= p.inputs.Keys
    && OutputChannels(p.interaction) <= p.outputs.Keys
  }

  /** The language admits the empty event sequence. */
  predicate Nullable(l: Language)
  {
    match l
    case ExpectInputReceived(_) => false
    case ExpectOutputProduced(_) => false
    case InSequence(ls) => forall i | 0 <= i < |ls| :: Nullable(ls[i])
    case Either(ls) => exists i | 0 <= i < |ls| :: Nullable(ls[i])
    case ZeroOrOne(_) => true
    case ZeroOrMore(_) => true
    case OneOrMore(c) => Nullable(c)
  }
}
