/** The checker the runtime uses: a language is compiled into a
    nondeterministic automaton with `Always` (event-free) edges, and a
    `LanguageChecker` tracks the set of active nodes one event at a time
    (src/aido_nodes/language_recognize.py). */
module Recognize {
  import opened Protocol
  import opened Wrappers

  /** The verdicts of this checker. */
  datatype Result = Enough | Unexpected(msg: string) | NeedMore

  /** Automaton nodes are dense ids; 0 and 1 are the distinguished start and
      accept nodes and every other id is allocated by the compiler. */
  type Node = nat

  const START: Node := 0
  const ACCEPT: Node := 1
  const FIRST_FRESH: Node := 2

  /** Edge labels: a leaf of the language, or the event-free marker. */
  datatype Matcher = In(channel: ChannelName) | Out(channel: ChannelName) | Always

  datatype Edge = Edge(src: Node, m: Matcher, dst: Node)

  /** The matcher an event can satisfy, if any. */
  function MatcherFor(e: Event): Option<Matcher>
  {
    match e
    case InputReceived(c) => Some(In(c))
    case OutputProduced(c) => Some(Out(c))
    case InputClosed => None
    case OutputClosed => None
  }

  /** An input matcher fits only an input on its channel, an output matcher
      only an output on its channel, and `Always` fits no event. */
  function EventMatches(m: Matcher, e: Event): (r: bool)
    ensures r <==> MatcherFor(e) == Some(m)
    ensures m.Always? ==> !r
  {
    match m
    case In(c) => e.InputReceived? && e.channel == c
    case Out(c) => e.OutputProduced? && e.channel == c
    case Always => false
  }

  // ---------------------------------------------------------------------
  // Compilation

  /** What compiling a language between two nodes adds to the graph: the
      new edges, in order, and the next unallocated node id. */
  datatype Fragment = Fragment(edges: seq<Edge>, next: Node)

  /** The fragment for `l` between `start` and `accept` when ids from `next`
      on are free. */
  function Nfa(l: Language, start: Node, accept: Node, next: Node): Fragment
  {
    match l
    case ExpectOutputProduced(c) => Fragment([Edge(start, Out(c), accept)], next)
    case ExpectInputReceived(c) => Fragment([Edge(start, In(c), accept)], next)
    case InSequence(ls) => ChainNfa(ls, start, accept, next)
    case ZeroOrMore(c) =>
      var body := Nfa(c, accept, accept, next);
      Fragment([Edge(start, Always, accept)] + body.edges, body.next)
    case OneOrMore(c) =>
      var first := Nfa(c, start, accept, next);
      var again := Nfa(c, accept, accept, first.next);
      Fragment(first.edges + again.edges, again.next)
    case ZeroOrOne(c) =>
      var body := Nfa(c, start, accept, next);
      Fragment([Edge(start, Always, accept)] + body.edges, body.next)
    case Either(ls) => UnionNfa(ls, start, accept, next)
  }

  /** A sequence: every child but the last ends on a freshly allocated node,
      which the next child starts from; the last child ends on `accept`. */
  function ChainNfa(ls: seq<Language>, current: Node, accept: Node, next: Node): Fragment
  {
    if |ls| == 0 then Fragment([], next)
    else if |ls| == 1 then Nfa(ls[0], current, accept, next)
    else
      var head := Nfa(ls[0], current, next, next + 1);
      var rest := ChainNfa(ls[1..], next, accept, head.next);
      Fragment(head.edges + rest.edges, rest.next)
  }

  /** An alternative: every branch between the same two nodes. */
  function UnionNfa(ls: seq<Language>, start: Node, accept: Node, next: Node): Fragment
  {
    if |ls| == 0 then Fragment([], next)
    else
      var head := Nfa(ls[0], start, accept, next);
      var rest := UnionNfa(ls[1..], start, accept, head.next);
      Fragment(head.edges + rest.edges, rest.next)
  }

  /** The automaton of a whole language, between START and ACCEPT. */
  function Compile(l: Language): Fragment
  {
    Nfa(l, START, ACCEPT, FIRST_FRESH)
  }

  /** The multigraph the compiler grows in place. */
  class Graph {
    var edges: seq<Edge>
    var next: Node

    constructor ()
      ensures edges == [] && next == FIRST_FRESH
    {
      edges := [];
      next := FIRST_FRESH;
    }

    method AddEdge(src: Node, m: Matcher, dst: Node)
      modifies this
      ensures edges == old(edges) + [Edge(src, m, dst)] && next == old(next)
    {
      edges := edges + [Edge(src, m, dst)];
    }

    method AddNode() returns (n: Node)
      modifies this
      ensures n == old(next) && next == old(next) + 1 && edges == old(edges)
    {
      n := next;
      next := next + 1;
    }

    /** Adds to the graph the fragment of `l` between `start` and `accept`,
        and nothing else. */
    method Compile(l: Language, start: Node, accept: Node)
      modifies this
      decreases l, 1
      ensures edges == old(edges) + Nfa(l, start, accept, old(next)).edges
      ensures next == Nfa(l, start, accept, old(next)).next
    {
      match l
      case ExpectOutputProduced(c) =>
        AddEdge(start, Out(c), accept);
      case ExpectInputReceived(c) =>
        AddEdge(start, In(c), accept);
      case InSequence(_) =>
        CompileSequence(l, start, accept);
      case ZeroOrMore(c) =>
        AddEdge(start, Always, accept);
        Compile(c, accept, accept);
      case OneOrMore(c) =>
        Compile(c, start, accept);
        Compile(c, accept, accept);
      case ZeroOrOne(c) =>
        AddEdge(start, Always, accept);
        Compile(c, start, accept);
      case Either(_) =>
        CompileEither(l, start, accept);
    }

    /** A sequence chains its parts through fresh nodes; the last part ends
        on `accept`. */
    method CompileSequence(l: Language, start: Node, accept: Node)
      requires l.InSequence?
      modifies this
      decreases l, 0
      ensures edges == old(edges) + ChainNfa(l.ls, start, accept, old(next)).edges
      ensures next == ChainNfa(l.ls, start, accept, old(next)).next
    {
      var ls := l.ls;
      ghost var goal := ChainNfa(ls, start, accept, next);
      var current := start;
      var i := 0;
      while i < |ls|
        invariant 0 <= i <= |ls|
        invariant old(edges) + goal.edges == edges + ChainNfa(ls[i..], current, accept, next).edges
        invariant goal.next == ChainNfa(ls[i..], current, accept, next).next
      {
        assert ls[i..][1..] == ls[i + 1..];
        var n;
        if i == |ls| - 1 {
          n := accept;
        } else {
          n := AddNode();
        }
        Compile(ls[i], current, n);
        current := n;
        i := i + 1;
      }
      assert ls[i..] == [];
    }

    /** An alternative puts every branch between the same two nodes. */
    method CompileEither(l: Language, start: Node, accept: Node)
      requires l.Either?
      modifies this
      decreases l, 0
      ensures edges == old(edges) + UnionNfa(l.ls, start, accept, old(next)).edges
      ensures next == UnionNfa(l.ls, start, accept, old(next)).next
    {
      var ls := l.ls;
      ghost var goal := UnionNfa(ls, start, accept, next);
      var i := 0;
      while i < |ls|
        invariant 0 <= i <= |ls|
        invariant old(edges) + goal.edges == edges + UnionNfa(ls[i..], start, accept, next).edges
        invariant goal.next == UnionNfa(ls[i..], start, accept, next).next
      {
        assert ls[i..][1..] == ls[i + 1..];
        Compile(ls[i], start, accept);
        i := i + 1;
      }
      assert ls[i..] == [];
    }
  }

  // ---------------------------------------------------------------------
  // Acceptor semantics

  predicate HasMatcherEdge(es: seq<Edge>, n: Node)
  {
    exists x | x in es :: x.src == n && !x.m.Always?
  }

  predicate HasAlwaysEdge(es: seq<Edge>, n: Node)
  {
    exists x | x in es :: x.src == n && x.m.Always?
  }

  /** An active node stays active through an evolve pass when it has an
      out-edge that waits for an event, or no `Always` out-edge at all. */
  predicate Survives(es: seq<Edge>, n: Node)
  {
    HasMatcherEdge(es, n) || !HasAlwaysEdge(es, n)
  }

  function AlwaysTargets(es: seq<Edge>, active: set<Node>): set<Node>
  {
    set x | x in es && x.src in active && x.m.Always? :: x.dst
  }

  /** One evolve pass over the old active set (not a closure): the surviving
      nodes together with the `Always` targets of every active node. */
  function Evolve(es: seq<Edge>, active: set<Node>): set<Node>
  {
    (set n | n in active && Survives(es, n)) + AlwaysTargets(es, active)
  }

  /** The targets of the edges out of active nodes that the event matches. */
  function Step(es: seq<Edge>, active: set<Node>, e: Event): set<Node>
  {
    set x | x in es && x.src in active && EventMatches(x.m, e) :: x.dst
  }

  /** The active set after one event: its matching targets, then one pass. */
  function Advance(es: seq<Edge>, active: set<Node>, e: Event): set<Node>
  {
    Evolve(es, Step(es, active, e))
  }

  /** The verdict of an active set: no node is a violation, the accept node a
      complete sequence, anything else an incomplete one. */
  function Verdict(active: set<Node>): (r: Result)
    ensures r.Unexpected? <==> active == {}
    ensures r == Enough <==> ACCEPT in active
    ensures r == NeedMore <==> active != {} && ACCEPT !in active
    ensures r.Unexpected? ==> r.msg == "no active"
  {
    if active == {} then Unexpected("no active")
    else if ACCEPT in active then Enough
    else NeedMore
  }

  /** The active set a fresh checker for `l` starts from. */
  function Initial(l: Language): set<Node>
  {
    Evolve(Compile(l).edges, {START})
  }

  /** The verdicts a fresh checker for `l` returns to `events`, one per push. */
  function Verdicts(l: Language, events: seq<Event>): (r: seq<Result>)
    ensures |r| == |events|
  {
    Replay(Compile(l).edges, Initial(l), events).0
  }

  /** Pushes `events` in order: the verdict after each, and the final active
      set. */
  function Replay(es: seq<Edge>, active: set<Node>, events: seq<Event>): (r: (seq<Result>, set<Node>))
    ensures |r.0| == |events|
    decreases |events|
  {
    if |events| == 0 then ([], active)
    else
      var now := Advance(es, active, events[0]);
      var rest := Replay(es, now, events[1..]);
      ([Verdict(now)] + rest.0, rest.1)
  }

  // ---------------------------------------------------------------------
  // The acceptor object

  class LanguageChecker {
    const g: Graph
    var active: set<Node>

    constructor (language: Language)
      ensures fresh(g)
      ensures g.edges == Compile(language).edges
      ensures active == Initial(language)
    {
      var graph := new Graph();
      graph.Compile(language, START, ACCEPT);
      g := graph;
      active := {START};
      new;
      EvolveEmpty();
    }

    /** One evolve pass, iterating the old active set. */
    method EvolveEmpty()
      modifies this
      ensures active == Evolve(g.edges, old(active))
    {
      var es := g.edges;
      var nowActive: set<Node> := {};
      var was := active;
      var todo := was;
      while todo != {}
        invariant todo <= was
        invariant nowActive == Evolve(es, was - todo)
        decreases todo
      {
        var node :| node in todo;
        ghost var before := nowActive;
        var nalways, nother := 0, 0;
        var j := 0;
        while j < |es|
          invariant 0 <= j <= |es|
          invariant nowActive == before + AlwaysTargets(es[..j], {node})
          invariant nother > 0 <==> HasMatcherEdge(es[..j], node)
          invariant nalways > 0 <==> HasAlwaysEdge(es[..j], node)
        {
          assert es[..j + 1] == es[..j] + [es[j]];
          if es[j].src == node {
            if es[j].m.Always? {
              nowActive := nowActive + {es[j].dst};
              nalways := nalways + 1;
            } else {
              nother := nother + 1;
            }
          }
          j := j + 1;
        }
        assert es[..j] == es;
        if nother > 0 || nalways == 0 {
          nowActive := nowActive + {node};
        }
        EvolveAddNode(es, was - todo, node);
        assert was - (todo - {node}) == (was - todo) + {node};
        todo := todo - {node};
      }
      assert was - todo == was;
      active := nowActive;
    }

    /** Keeps exactly the targets of the matching edges out of active nodes,
        makes one evolve pass, and reports the verdict. */
    method Push(event: Event) returns (r: Result)
      modifies this
      ensures active == Advance(g.edges, old(active), event)
      ensures r == Verdict(active)
    {
      var es := g.edges;
      var nowActive: set<Node> := {};
      var was := active;
      var todo := was;
      while todo != {}
        invariant todo <= was
        invariant nowActive == Step(es, was - todo, event)
        decreases todo
      {
        var node :| node in todo;
        ghost var before := nowActive;
        var j := 0;
        while j < |es|
          invariant 0 <= j <= |es|
          invariant nowActive == before + Step(es[..j], {node}, event)
        {
          assert es[..j + 1] == es[..j] + [es[j]];
          if es[j].src == node && EventMatches(es[j].m, event) {
            nowActive := nowActive + {es[j].dst};
          }
          j := j + 1;
        }
        assert es[..j] == es;
        StepAddNode(es, was - todo, node, event);
        assert was - (todo - {node}) == (was - todo) + {node};
        todo := todo - {node};
      }
      assert was - todo == was;
      active := nowActive;
      EvolveEmpty();
      r := Finish();
    }

    /** Reads the verdict of the current active set without changing it. */
    method Finish() returns (r: Result)
      ensures r == Verdict(active)
    {
      if active == {} {
        return Unexpected("no active");
      }
      if ACCEPT in active {
        return Enough;
      }
      return NeedMore;
    }
  }

  /** Evolving one more node adds exactly that node's contribution. */
  lemma EvolveAddNode(es: seq<Edge>, done: set<Node>, node: Node)
    ensures Evolve(es, done + {node})
         == Evolve(es, done) + AlwaysTargets(es, {node})
            + (if Survives(es, node) then {node} else {})
  {
  }

  /** Stepping from one more node adds exactly that node's matching targets. */
  lemma StepAddNode(es: seq<Edge>, done: set<Node>, node: Node, e: Event)
    ensures Step(es, done + {node}, e) == Step(es, done, e) + Step(es, {node}, e)
  {
  }
}
