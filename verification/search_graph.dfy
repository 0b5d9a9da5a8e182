/** State spaces: weighted successor functions, paths and their costs. */
module SearchGraphs {
  datatype Edge = Edge(to: nat, cost: nat)

  /** Costs are fixed-point values; `h` is the heuristic estimate. */
  datatype Graph = Graph(init: nat, succ: nat -> seq<Edge>, h: nat -> nat, goal: nat -> bool) {

    predicate IsPath(x: nat, p: seq<Edge>)
      decreases |p|
    {
      p != [] ==> p[0] in succ(x) && IsPath(p[0].to, p[1..])
    }

    predicate IsSolution(x: nat, p: seq<Edge>) {
      IsPath(x, p) && goal(End(x, p))
    }

    ghost predicate Admissible() {
      forall x: nat, p: seq<Edge> :: IsSolution(x, p) ==> h(x) <= Cost(p)
    }

    /** The estimate falls along no edge by more than the edge costs. */
    ghost predicate Consistent() {
      forall x: nat, e: Edge :: e in succ(x) ==> h(x) <= e.cost + h(e.to)
    }
  }

  function End(x: nat, p: seq<Edge>): nat
    decreases |p|
  {
    if p == [] then x else End(p[0].to, p[1..])
  }

  function Cost(p: seq<Edge>): nat {
    if p == [] then 0 else p[0].cost + Cost(p[1..])
  }

  /** A path with one more edge at its end. */
  lemma {:induction false} Extend(gr: Graph, x: nat, p: seq<Edge>, e: Edge)
    requires gr.IsPath(x, p) && e in gr.succ(End(x, p))
    ensures gr.IsPath(x, p + [e]) && End(x, p + [e]) == e.to && Cost(p + [e]) == Cost(p) + e.cost
    decreases |p|
  {
    if p == [] {
      assert p + [e] == [e] && [e][1..] == [];
      assert gr.IsPath(e.to, [e][1..]) && End(e.to, [e][1..]) == e.to && Cost([e][1..]) == 0;
    } else {
      Extend(gr, p[0].to, p[1..], e);
      assert (p + [e])[1..] == p[1..] + [e] && (p + [e])[0] == p[0];
    }
  }

  /** Some way from the initial state to `x` costs exactly `g`. */
  ghost predicate Reachable(gr: Graph, x: nat, g: nat) {
    exists p :: gr.IsPath(gr.init, p) && End(gr.init, p) == x && Cost(p) == g
  }

  lemma ReachInit(gr: Graph)
    ensures Reachable(gr, gr.init, 0)
  {
    assert gr.IsPath(gr.init, []) && End(gr.init, []) == gr.init && Cost([]) == 0;
  }

  lemma ReachNext(gr: Graph, x: nat, g: nat, e: Edge)
    requires Reachable(gr, x, g) && e in gr.succ(x)
    ensures Reachable(gr, e.to, g + e.cost)
  {
    var p :| gr.IsPath(gr.init, p) && End(gr.init, p) == x && Cost(p) == g;
    Extend(gr, gr.init, p, e);
  }

  /** One path after another. */
  lemma {:induction false} Concat(gr: Graph, x: nat, p: seq<Edge>, q: seq<Edge>)
    requires gr.IsPath(x, p) && gr.IsPath(End(x, p), q)
    ensures gr.IsPath(x, p + q) && End(x, p + q) == End(End(x, p), q) && Cost(p + q) == Cost(p) + Cost(q)
    decreases |p|
  {
    if p == [] {
      assert p + q == q;
    } else {
      Concat(gr, p[0].to, p[1..], q);
      assert (p + q)[1..] == p[1..] + q && (p + q)[0] == p[0];
    }
  }

  /** A path with one more edge at its start. */
  lemma Prepend(gr: Graph, x: nat, e: Edge, p: seq<Edge>)
    requires e in gr.succ(x) && gr.IsPath(e.to, p)
    ensures gr.IsPath(x, [e] + p) && End(x, [e] + p) == End(e.to, p) && Cost([e] + p) == e.cost + Cost(p)
  {
    assert ([e] + p)[1..] == p && ([e] + p)[0] == e;
  }
}
