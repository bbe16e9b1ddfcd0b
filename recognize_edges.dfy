/** The acceptor's set functions computed edge by edge: an independent,
    recursive reading of `Step`, `AlwaysTargets` and the edge tests of module
    Recognize (src/aido_nodes/language_recognize.py:119-155 walks the edge
    list once per active node), proved equal to the set-builder definitions. */
module RecognizeEdges {
  import opened Protocol
  import opened Recognize

  function StepEach(es: seq<Edge>, active: set<Node>, e: Event): set<Node>
  {
    if |es| == 0 then {}
    else
      (if es[0].src in active && EventMatches(es[0].m, e) then {es[0].dst} else {})
      + StepEach(es[1..], active, e)
  }

  function AlwaysEach(es: seq<Edge>, active: set<Node>): set<Node>
  {
    if |es| == 0 then {}
    else
      (if es[0].src in active && es[0].m.Always? then {es[0].dst} else {})
      + AlwaysEach(es[1..], active)
  }

  predicate MatcherEdgeEach(es: seq<Edge>, n: Node)
  {
    |es| > 0 && ((es[0].src == n && !es[0].m.Always?) || MatcherEdgeEach(es[1..], n))
  }

  predicate AlwaysEdgeEach(es: seq<Edge>, n: Node)
  {
    |es| > 0 && ((es[0].src == n && es[0].m.Always?) || AlwaysEdgeEach(es[1..], n))
  }

  /** The edges of a non-empty list are its first edge and the rest's. */
  lemma Unfold(es: seq<Edge>)
    requires |es| > 0
    ensures forall x :: x in es <==> x == es[0] || x in es[1..]
  {
    assert es == [es[0]] + es[1..];
  }

  lemma {:induction false} StepByEdge(es: seq<Edge>, active: set<Node>, e: Event)
    ensures Step(es, active, e) == StepEach(es, active, e)
    decreases |es|
  {
    if |es| > 0 {
      StepByEdge(es[1..], active, e);
      Unfold(es);
    }
  }

  lemma {:induction false} AlwaysTargetsByEdge(es: seq<Edge>, active: set<Node>)
    ensures AlwaysTargets(es, active) == AlwaysEach(es, active)
    decreases |es|
  {
    if |es| > 0 {
      AlwaysTargetsByEdge(es[1..], active);
      Unfold(es);
    }
  }

  lemma {:induction false} EdgeTestsByEdge(es: seq<Edge>, n: Node)
    ensures HasMatcherEdge(es, n) == MatcherEdgeEach(es, n)
    ensures HasAlwaysEdge(es, n) == AlwaysEdgeEach(es, n)
    decreases |es|
  {
    if |es| > 0 {
      EdgeTestsByEdge(es[1..], n);
      Unfold(es);
    }
  }

  /** One evolve pass from a single node, edge by edge. */
  lemma EvolveSingle(es: seq<Edge>, n: Node)
    ensures Evolve(es, {n})
            == (if MatcherEdgeEach(es, n) || !AlwaysEdgeEach(es, n) then {n} else {}) + AlwaysEach(es, {n})
  {
    EdgeTestsByEdge(es, n);
    AlwaysTargetsByEdge(es, {n});
    EvolveAddNode(es, {}, n);
    assert {} + {n} == {n};
  }

  /** One push from a set of nodes whose matching targets are the single
      node `n`. */
  lemma AdvanceToSingle(es: seq<Edge>, active: set<Node>, e: Event, n: Node)
    requires StepEach(es, active, e) == {n}
    ensures Advance(es, active, e)
            == (if MatcherEdgeEach(es, n) || !AlwaysEdgeEach(es, n) then {n} else {}) + AlwaysEach(es, {n})
  {
    StepByEdge(es, active, e);
    EvolveSingle(es, n);
  }

  /** One push that matches nothing leaves no active node. */
  lemma AdvanceToNothing(es: seq<Edge>, active: set<Node>, e: Event)
    requires StepEach(es, active, e) == {}
    ensures Advance(es, active, e) == {}
  {
    StepByEdge(es, active, e);
  }
}
