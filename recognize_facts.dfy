/** What the compiler builds and how the acceptor's verdicts behave, stated
    over the specification functions of module Recognize. */
module RecognizeFacts {
  import opened Protocol
  import opened Recognize

  // ---------------------------------------------------------------------
  // The compiler touches only its own nodes

  /** Both ends of `x` are `start`, `accept`, or a node in [lo, hi). */
  predicate Within(x: Edge, start: Node, accept: Node, lo: Node, hi: Node)
  {
    (x.src == start || x.src == accept || lo <= x.src < hi)
    && (x.dst == start || x.dst == accept || lo <= x.dst < hi)
  }

  /** Compiling allocates nodes only upwards from `next`, and every edge it
      adds runs between `start`, `accept` and the nodes it allocated. */
  lemma {:induction false} NfaBounds(l: Language, start: Node, accept: Node, next: Node)
    ensures next <= Nfa(l, start, accept, next).next
    ensures forall x | x in Nfa(l, start, accept, next).edges ::
              Within(x, start, accept, next, Nfa(l, start, accept, next).next)
    decreases l, 1
  {
    match l
    case ExpectOutputProduced(_) =>
    case ExpectInputReceived(_) =>
    case InSequence(ls) => ChainBounds(ls, start, accept, next);
    case ZeroOrMore(c) => NfaBounds(c, accept, accept, next);
    case OneOrMore(c) =>
      NfaBounds(c, start, accept, next);
      NfaBounds(c, accept, accept, Nfa(c, start, accept, next).next);
    case ZeroOrOne(c) => NfaBounds(c, start, accept, next);
    case Either(ls) => UnionBounds(ls, start, accept, next);
  }

  lemma {:induction false} ChainBounds(ls: seq<Language>, current: Node, accept: Node, next: Node)
    ensures next <= ChainNfa(ls, current, accept, next).next
    ensures forall x | x in ChainNfa(ls, current, accept, next).edges ::
              Within(x, current, accept, next, ChainNfa(ls, current, accept, next).next)
    decreases ls, 0
  {
    if |ls| == 1 {
      NfaBounds(ls[0], current, accept, next);
    } else if |ls| > 1 {
      NfaBounds(ls[0], current, next, next + 1);
      ChainBounds(ls[1..], next, accept, Nfa(ls[0], current, next, next + 1).next);
    }
  }

  lemma {:induction false} UnionBounds(ls: seq<Language>, start: Node, accept: Node, next: Node)
    ensures next <= UnionNfa(ls, start, accept, next).next
    ensures forall x | x in UnionNfa(ls, start, accept, next).edges ::
              Within(x, start, accept, next, UnionNfa(ls, start, accept, next).next)
    decreases ls, 0
  {
    if |ls| > 0 {
      NfaBounds(ls[0], start, accept, next);
      UnionBounds(ls[1..], start, accept, Nfa(ls[0], start, accept, next).next);
    }
  }

  // ---------------------------------------------------------------------
  // Every waiting edge is a leaf of the language

  /** An `In(c)` edge comes from an `ExpectInputReceived(c)` leaf and an
      `Out(c)` edge from an `ExpectOutputProduced(c)` leaf. */
  predicate LabelFrom(x: Edge, l: Language)
  {
    (x.m.In? ==> x.m.channel in InputChannels(l))
    && (x.m.Out? ==> x.m.channel in OutputChannels(l))
  }

  lemma {:induction false} NfaLabels(l: Language, start: Node, accept: Node, next: Node)
    ensures forall x | x in Nfa(l, start, accept, next).edges :: LabelFrom(x, l)
    decreases l, 1
  {
    match l
    case ExpectOutputProduced(_) =>
    case ExpectInputReceived(_) =>
    case InSequence(ls) => ChainLabels(l, ls, start, accept, next);
    case ZeroOrMore(c) => NfaLabels(c, accept, accept, next);
    case OneOrMore(c) =>
      NfaLabels(c, start, accept, next);
      NfaLabels(c, accept, accept, Nfa(c, start, accept, next).next);
    case ZeroOrOne(c) => NfaLabels(c, start, accept, next);
    case Either(ls) => UnionLabels(l, ls, start, accept, next);
  }

  /** `ls` is a suffix of the children of the sequence or alternative `l`. */
  predicate SuffixOfChildren(l: Language, ls: seq<Language>)
  {
    (l.InSequence? || l.Either?) && |ls| <= |l.ls| && ls == l.ls[|l.ls| - |ls|..]
  }

  lemma {:induction false} ChildLabel(l: Language, k: nat, x: Edge)
    requires l.InSequence? || l.Either?
    requires k < |l.ls| && LabelFrom(x, l.ls[k])
    ensures LabelFrom(x, l)
  {
  }

  lemma {:induction false} ChainLabels(l: Language, ls: seq<Language>, current: Node, accept: Node, next: Node)
    requires SuffixOfChildren(l, ls)
    ensures forall x | x in ChainNfa(ls, current, accept, next).edges :: LabelFrom(x, l)
    decreases ls, 0
  {
    var k := |l.ls| - |ls|;
    if |ls| == 1 {
      NfaLabels(ls[0], current, accept, next);
      forall x | x in ChainNfa(ls, current, accept, next).edges ensures LabelFrom(x, l) {
        ChildLabel(l, k, x);
      }
    } else if |ls| > 1 {
      NfaLabels(ls[0], current, next, next + 1);
      var head := Nfa(ls[0], current, next, next + 1);
      assert l.ls[|l.ls| - |ls[1..]|..] == ls[1..];
      ChainLabels(l, ls[1..], next, accept, head.next);
      forall x | x in head.edges ensures LabelFrom(x, l) {
        ChildLabel(l, k, x);
      }
    }
  }

  lemma {:induction false} UnionLabels(l: Language, ls: seq<Language>, start: Node, accept: Node, next: Node)
    requires SuffixOfChildren(l, ls)
    ensures forall x | x in UnionNfa(ls, start, accept, next).edges :: LabelFrom(x, l)
    decreases ls, 0
  {
    if |ls| > 0 {
      var k := |l.ls| - |ls|;
      NfaLabels(ls[0], start, accept, next);
      var head := Nfa(ls[0], start, accept, next);
      assert l.ls[|l.ls| - |ls[1..]|..] == ls[1..];
      UnionLabels(l, ls[1..], start, accept, head.next);
      forall x | x in head.edges ensures LabelFrom(x, l) {
        ChildLabel(l, k, x);
      }
    }
  }

  /** For a protocol whose language uses only declared channels, every
      waiting edge of its automaton names a channel of the table for its
      direction. */
  lemma CompiledChannelsDeclared(p: InteractionProtocol)
    requires ChannelsDeclared(p)
    ensures forall x | x in Compile(p.interaction).edges ::
              (x.m.In? ==> x.m.channel in p.inputs)
              && (x.m.Out? ==> x.m.channel in p.outputs)
  {
    NfaLabels(p.interaction, START, ACCEPT, FIRST_FRESH);
  }

  // ---------------------------------------------------------------------
  // How many edges each combinator contributes

  /** One edge per leaf, one `Always` edge per `ZeroOrMore` and `ZeroOrOne`,
      and the child of a `OneOrMore` counted twice. */
  function EdgeCount(l: Language): nat
  {
    match l
    case ExpectOutputProduced(_) => 1
    case ExpectInputReceived(_) => 1
    case InSequence(ls) => EdgeCountAll(ls)
    case ZeroOrMore(c) => 1 + EdgeCount(c)
    case OneOrMore(c) => 2 * EdgeCount(c)
    case ZeroOrOne(c) => 1 + EdgeCount(c)
    case Either(ls) => EdgeCountAll(ls)
  }

  function EdgeCountAll(ls: seq<Language>): nat
  {
    if |ls| == 0 then 0 else EdgeCount(ls[0]) + EdgeCountAll(ls[1..])
  }

  lemma {:induction false} NfaEdgeCount(l: Language, start: Node, accept: Node, next: Node)
    ensures |Nfa(l, start, accept, next).edges| == EdgeCount(l)
    decreases l, 1
  {
    match l
    case ExpectOutputProduced(_) =>
    case ExpectInputReceived(_) =>
    case InSequence(ls) => ChainEdgeCount(ls, start, accept, next);
    case ZeroOrMore(c) => NfaEdgeCount(c, accept, accept, next);
    case OneOrMore(c) =>
      NfaEdgeCount(c, start, accept, next);
      NfaEdgeCount(c, accept, accept, Nfa(c, start, accept, next).next);
    case ZeroOrOne(c) => NfaEdgeCount(c, start, accept, next);
    case Either(ls) => UnionEdgeCount(ls, start, accept, next);
  }

  lemma {:induction false} ChainEdgeCount(ls: seq<Language>, current: Node, accept: Node, next: Node)
    ensures |ChainNfa(ls, current, accept, next).edges| == EdgeCountAll(ls)
    decreases ls, 0
  {
    if |ls| == 1 {
      NfaEdgeCount(ls[0], current, accept, next);
      assert ls[1..] == [];
    } else if |ls| > 1 {
      NfaEdgeCount(ls[0], current, next, next + 1);
      ChainEdgeCount(ls[1..], next, accept, Nfa(ls[0], current, next, next + 1).next);
    }
  }

  lemma {:induction false} UnionEdgeCount(ls: seq<Language>, start: Node, accept: Node, next: Node)
    ensures |UnionNfa(ls, start, accept, next).edges| == EdgeCountAll(ls)
    decreases ls, 0
  {
    if |ls| > 0 {
      NfaEdgeCount(ls[0], start, accept, next);
      UnionEdgeCount(ls[1..], start, accept, Nfa(ls[0], start, accept, next).next);
    }
  }

  // ---------------------------------------------------------------------
  // The empty sequence

  /** The fragment of `l` has an `Always` edge straight from its start to its
      accept node. */
  predicate SkipsToAccept(l: Language)
  {
    match l
    case ExpectOutputProduced(_) => false
    case ExpectInputReceived(_) => false
    case InSequence(ls) => |ls| == 1 && SkipsToAccept(ls[0])
    case ZeroOrMore(_) => true
    case OneOrMore(c) => SkipsToAccept(c)
    case ZeroOrOne(_) => true
    case Either(ls) => exists i | 0 <= i < |ls| :: SkipsToAccept(ls[i])
  }

  lemma {:induction false} NfaSkip(l: Language, start: Node, accept: Node, next: Node)
    requires start != accept && start < next && accept < next
    ensures Edge(start, Always, accept) in Nfa(l, start, accept, next).edges <==> SkipsToAccept(l)
    decreases l, 1
  {
    match l
    case ExpectOutputProduced(_) =>
    case ExpectInputReceived(_) =>
    case InSequence(ls) => ChainSkip(ls, start, accept, next);
    case ZeroOrMore(c) =>
      NfaBounds(c, accept, accept, next);
    case OneOrMore(c) =>
      NfaSkip(c, start, accept, next);
      var first := Nfa(c, start, accept, next);
      NfaBounds(c, start, accept, next);
      NfaBounds(c, accept, accept, first.next);
    case ZeroOrOne(c) =>
    case Either(ls) => UnionSkip(ls, start, accept, next);
  }

  lemma {:induction false} ChainSkip(ls: seq<Language>, current: Node, accept: Node, next: Node)
    requires current != accept && current < next && accept < next
    ensures Edge(current, Always, accept) in ChainNfa(ls, current, accept, next).edges
            <==> |ls| == 1 && SkipsToAccept(ls[0])
    decreases ls, 0
  {
    if |ls| == 1 {
      NfaSkip(ls[0], current, accept, next);
    } else if |ls| > 1 {
      var head := Nfa(ls[0], current, next, next + 1);
      NfaBounds(ls[0], current, next, next + 1);
      ChainBounds(ls[1..], next, accept, head.next);
    }
  }

  lemma {:induction false} UnionSkip(ls: seq<Language>, start: Node, accept: Node, next: Node)
    requires start != accept && start < next && accept < next
    ensures Edge(start, Always, accept) in UnionNfa(ls, start, accept, next).edges
            <==> exists i | 0 <= i < |ls| :: SkipsToAccept(ls[i])
    decreases ls, 0
  {
    if |ls| > 0 {
      var head := Nfa(ls[0], start, accept, next);
      NfaSkip(ls[0], start, accept, next);
      NfaBounds(ls[0], start, accept, next);
      UnionSkip(ls[1..], start, accept, head.next);
      if exists i | 0 <= i < |ls| :: SkipsToAccept(ls[i]) {
        var i :| 0 <= i < |ls| && SkipsToAccept(ls[i]);
        if i > 0 {
          assert SkipsToAccept(ls[1..][i - 1]);
        }
      }
      if exists i | 0 <= i < |ls[1..]| :: SkipsToAccept(ls[1..][i]) {
        var i :| 0 <= i < |ls[1..]| && SkipsToAccept(ls[1..][i]);
        assert SkipsToAccept(ls[i + 1]);
      }
    }
  }

  /** A fresh checker is never in violation, and it reports `Enough` exactly
      when the automaton skips from START to ACCEPT in one `Always` edge. */
  lemma InitialVerdict(l: Language)
    ensures Verdict(Initial(l)) != Unexpected("no active")
    ensures Verdict(Initial(l)) == Enough <==> SkipsToAccept(l)
  {
    var es := Compile(l).edges;
    NfaSkip(l, START, ACCEPT, FIRST_FRESH);
    if Survives(es, START) {
      assert START in Initial(l);
    } else {
      var x :| x in es && x.src == START && x.m.Always?;
      assert x.dst in Initial(l);
    }
    if ACCEPT in Initial(l) {
      var x :| x in es && x.src == START && x.m.Always? && x.dst == ACCEPT;
      assert x == Edge(START, Always, ACCEPT);
    }
  }

  /** A one-edge skip only exists for a language that admits the empty
      sequence, so an initial `Enough` is never wrong. */
  lemma {:induction false} SkipIsNullable(l: Language)
    requires SkipsToAccept(l)
    ensures Nullable(l)
  {
    match l
    case InSequence(ls) => SkipIsNullable(ls[0]);
    case OneOrMore(c) => SkipIsNullable(c);
    case ZeroOrMore(_) =>
    case ZeroOrOne(_) =>
    case Either(ls) =>
      var i :| 0 <= i < |ls| && SkipsToAccept(ls[i]);
      SkipIsNullable(ls[i]);
  }

  // ---------------------------------------------------------------------
  // Violations are final

  /** With no active node, every later push is a violation and nothing
      becomes active again. */
  lemma {:induction false} ReplayFromNothing(es: seq<Edge>, events: seq<Event>)
    ensures Replay(es, {}, events).1 == {}
    ensures forall i | 0 <= i < |events| :: Replay(es, {}, events).0[i] == Unexpected("no active")
    decreases |events|
  {
    if |events| > 0 {
      assert Step(es, {}, events[0]) == {};
      assert Advance(es, {}, events[0]) == {};
      ReplayFromNothing(es, events[1..]);
    }
  }

  /** The verdicts of a replay are the first push's verdict followed by the
      rest's. */
  lemma ReplayHead(es: seq<Edge>, active: set<Node>, events: seq<Event>, j: nat)
    requires j < |events|
    ensures var now := Advance(es, active, events[0]);
            Replay(es, active, events).0[j]
            == if j == 0 then Verdict(now) else Replay(es, now, events[1..]).0[j - 1]
    ensures Replay(es, active, events).1 == Replay(es, Advance(es, active, events[0]), events[1..]).1
  {
  }

  /** Once a push reports `Unexpected`, so does every later push, and no
      node is active at the end of the run, so `finish` reports `Unexpected`
      too. */
  lemma {:induction false} UnexpectedIsSticky(es: seq<Edge>, active: set<Node>, events: seq<Event>, i: nat, j: nat)
    requires i <= j < |events|
    requires Replay(es, active, events).0[i].Unexpected?
    ensures Replay(es, active, events).0[j].Unexpected?
    ensures Replay(es, active, events).1 == {}
    ensures Verdict(Replay(es, active, events).1).Unexpected?
    decreases |events|
  {
    var now := Advance(es, active, events[0]);
    ReplayHead(es, active, events, i);
    ReplayHead(es, active, events, j);
    if i == 0 {
      assert now == {};
      ReplayFromNothing(es, events[1..]);
    } else {
      UnexpectedIsSticky(es, now, events[1..], i - 1, j - 1);
    }
  }
}
