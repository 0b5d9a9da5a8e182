/** Iterative deepening A*: depth-first search within a growing cost bound. */
module IdaStar {
  import opened PriorityQueues
  import opened SearchGraphs
  import opened SearchNodes

  // ----- simple paths -----

  /** The states on a path, the first one included. */
  function StatesOf(x: nat, q: seq<Edge>): (s: seq<nat>)
    ensures |s| == |q| + 1 && s[0] == x
    decreases |q|
  {
    if q == [] then [x] else [x] + StatesOf(q[0].to, q[1..])
  }

  ghost predicate Distinct(s: seq<nat>) { forall i: nat, j: nat :: i < j < |s| ==> s[i] != s[j] }

  /** The rest of a path from its `k`-th state on. */
  lemma {:induction false} Suffix(gr: Graph, x: nat, q: seq<Edge>, k: nat)
    requires gr.IsPath(x, q) && k <= |q|
    ensures var y := StatesOf(x, q)[k];
            && gr.IsPath(y, q[k..]) && End(y, q[k..]) == End(x, q) && Cost(q[k..]) <= Cost(q)
            && StatesOf(y, q[k..]) == StatesOf(x, q)[k..]
    decreases k
  {
    if k > 0 {
      Suffix(gr, q[0].to, q[1..], k - 1);
      assert q[1..][k - 1..] == q[k..];
      assert StatesOf(x, q)[1..] == StatesOf(q[0].to, q[1..]);
    } else {
      assert q[0..] == q && StatesOf(x, q)[0..] == StatesOf(x, q);
    }
  }

  lemma NoReturn(x: nat, q: seq<Edge>)
    requires q != [] && forall k: nat :: 0 < k <= |q| ==> StatesOf(x, q)[k] != x
    ensures x !in StatesOf(q[0].to, q[1..])
  {
    var rest := StatesOf(q[0].to, q[1..]);
    forall y | y in rest ensures y != x {
      var k: nat :| k < |rest| && rest[k] == y;
      assert StatesOf(x, q)[k + 1] == y;
    }
  }

  /** Cutting out cycles: every solution has a simple one that costs no more. */
  lemma {:induction false} MakeSimple(gr: Graph, x: nat, q: seq<Edge>) returns (r: seq<Edge>)
    requires gr.IsSolution(x, q)
    ensures gr.IsSolution(x, r) && Cost(r) <= Cost(q) && Distinct(StatesOf(x, r))
    ensures forall y :: y in StatesOf(x, r) ==> y in StatesOf(x, q)
    decreases |q|
  {
    if k: nat :| 0 < k <= |q| && StatesOf(x, q)[k] == x {
      Suffix(gr, x, q, k);
      r := MakeSimple(gr, x, q[k..]);
    } else if q == [] {
      r := q;
    } else {
      NoReturn(x, q);
      var rest := MakeSimple(gr, q[0].to, q[1..]);
      r := [q[0]] + rest;
      assert r[1..] == rest;
      assert StatesOf(x, q)[1..] == StatesOf(q[0].to, q[1..]);
    }
  }

  // ----- what the bounded search covers -----

  /** `q` leads from `x`, reached at cost `g` past the states of `chain`, along
      new states within the bound to a goal. */
  ghost predicate Inside(gr: Graph, bound: nat, chain: seq<nat>, x: nat, g: nat, q: seq<Edge>)
    decreases |q|
  {
    && g + gr.h(x) <= bound
    && if q == [] then gr.goal(x)
       else q[0] in gr.succ(x) && q[0].to !in chain + [x] && Inside(gr, bound, chain + [x], q[0].to, g + q[0].cost, q[1..])
  }

  lemma InsideTail(gr: Graph, bound: nat, chain: seq<nat>, x: nat, g: nat, q: seq<Edge>)
    requires Inside(gr, bound, chain, x, g, q) && q != []
    ensures Inside(gr, bound, chain + [x], q[0].to, g + q[0].cost, q[1..]) && q[0].to !in chain + [x]
  {
  }

  /** `q` leads along new states within the bound to a first one outside, whose f is `f`. */
  ghost predicate Fringe(gr: Graph, bound: nat, chain: seq<nat>, x: nat, g: nat, q: seq<Edge>, f: nat)
    decreases |q|
  {
    if q == [] then g + gr.h(x) > bound && f == g + gr.h(x)
    else
      && g + gr.h(x) <= bound
      && q[0] in gr.succ(x) && q[0].to !in chain + [x] && Fringe(gr, bound, chain + [x], q[0].to, g + q[0].cost, q[1..], f)
  }

  lemma {:induction false} FringeIsOutside(gr: Graph, bound: nat, chain: seq<nat>, x: nat, g: nat, q: seq<Edge>, f: nat)
    requires Fringe(gr, bound, chain, x, g, q, f)
    ensures f > bound
    decreases |q|
  {
    if q != [] { FringeIsOutside(gr, bound, chain + [x], q[0].to, g + q[0].cost, q[1..], f); }
  }

  /** A simple solution lies inside the bound, or leaves it at an f that is at most its cost. */
  lemma {:induction false} InsideOrFringe(gr: Graph, bound: nat, chain: seq<nat>, x: nat, g: nat, q: seq<Edge>)
    returns (r: seq<Edge>, f: nat)
    requires gr.Admissible() && gr.IsSolution(x, q) && Distinct(StatesOf(x, q))
    requires forall y :: y in StatesOf(x, q) ==> y !in chain
    ensures Inside(gr, bound, chain, x, g, q) || (Fringe(gr, bound, chain, x, g, r, f) && f <= g + Cost(q))
    decreases |q|
  {
    r, f := [], g + gr.h(x);
    assert gr.h(x) <= Cost(q);
    if g + gr.h(x) <= bound && q != [] {
      var rest := StatesOf(q[0].to, q[1..]);
      assert StatesOf(x, q) == [x] + rest;
      forall y | y in rest ensures y !in chain + [x] {
        var k: nat :| k < |rest| && rest[k] == y;
        assert StatesOf(x, q)[k + 1] == y;
      }
      assert Distinct(rest) by {
        forall i: nat, j: nat | i < j < |rest| ensures rest[i] != rest[j] {
          assert StatesOf(x, q)[i + 1] != StatesOf(x, q)[j + 1];
        }
      }
      assert rest[0] == q[0].to;
      var r', f' := InsideOrFringe(gr, bound, chain + [x], q[0].to, g + q[0].cost, q[1..]);
      if !Inside(gr, bound, chain, x, g, q) {
        r, f := [q[0]] + r', f';
        assert r[1..] == r';
      }
    }
  }

  // ----- how far the bound can grow -----

  function MaxOf(s: seq<Edge>): (m: nat)
    ensures forall e :: e in s ==> e.cost <= m
  {
    if s == [] then 0 else var m := MaxOf(s[1..]); if s[0].cost > m then s[0].cost else m
  }

  /** A cost and an estimate that no edge and no state of the space exceeds. */
  ghost predicate Limits(gr: Graph, states: set<nat>, cost: nat, h: nat) {
    && (forall x, e :: x in states && e in gr.succ(x) ==> e.cost <= cost)
    && (forall x :: x in states ==> gr.h(x) <= h)
  }

  lemma {:induction false} LimitsExist(gr: Graph, states: set<nat>) returns (cost: nat, h: nat)
    ensures Limits(gr, states, cost, h)
    decreases states
  {
    if states == {} {
      cost, h := 0, 0;
    } else {
      var x :| x in states;
      cost, h := LimitsExist(gr, states - {x});
      cost := if MaxOf(gr.succ(x)) > cost then MaxOf(gr.succ(x)) else cost;
      h := if gr.h(x) > h then gr.h(x) else h;
    }
  }

  /** No simple path costs more than an edge for every state not yet on it. */
  lemma {:induction false} FringeLimit(gr: Graph, states: set<nat>, cost: nat, h: nat,
                                       bound: nat, chain: seq<nat>, x: nat, g: nat, q: seq<Edge>, f: nat)
    requires Finite(gr, states) && Limits(gr, states, cost, h) && x in states && x !in chain
    requires Fringe(gr, bound, chain, x, g, q, f)
    ensures f <= g + |states - Elems(chain)| * cost + h
    decreases |q|
  {
    if q != [] {
      FringeLimit(gr, states, cost, h, bound, chain + [x], q[0].to, g + q[0].cost, q[1..], f);
      var a, b := states - Elems(chain), states - Elems(chain + [x]);
      assert a == b + {x} && x !in b;
      Times(|a|, |b|, cost);
    }
  }

  function Elems(s: seq<nat>): set<nat> { set x | x in s }

  lemma Times(a: nat, b: nat, c: nat)
    requires a == b + 1
    ensures a * c == b * c + c
  {
  }

  // ----- the bounded search -----

  class CostBoundDFS {
    const gr: Graph
    const bound: nat
    var minPruned: nat

    constructor (graph: Graph, b: nat)
      ensures gr == graph && bound == b && minPruned == 0
    {
      gr := graph;
      bound := b;
      minPruned := 0;
    }

    /** Whether the state is among its own ancestors. */
    method IsCycle(chain: seq<nat>, y: nat) returns (b: bool)
      ensures b <==> y in chain
    {
      for i := |chain| downto 0
        invariant y !in chain[i..]
      {
        if chain[i] == y { return true; }
      }
      return false;
    }

    /** `least` is the least of `was`, if it is not zero, and the f of the fringe
        that `covers` accepts; zero if there is neither. */
    ghost predicate Least(was: nat, least: nat, covers: (seq<Edge>, nat) -> bool) {
      && (was != 0 ==> 0 < least <= was)
      && (forall q, f :: covers(q, f) ==> 0 < least <= f)
      && (least != 0 ==> least == was || exists q :: covers(q, least))
    }

    /** The fringe below `x`, and the part of it that starts with one of the first `i` children. */
    ghost function Below(chain: seq<nat>, x: nat, g: nat): (seq<Edge>, nat) -> bool {
      (q: seq<Edge>, f: nat) => Fringe(gr, bound, chain, x, g, q, f)
    }

    ghost function BelowFirst(chain: seq<nat>, x: nat, g: nat, children: seq<Edge>, i: nat): (seq<Edge>, nat) -> bool {
      (q: seq<Edge>, f: nat) => q != [] && i <= |children| && q[0] in children[..i] && Fringe(gr, bound, chain, x, g, q, f)
    }

    /** Searches below `x`, which `via` leads to from the initial state.  Without a
        result, no solution below `x` lies inside the bound, and `minPruned`
        accounts for the whole fringe. */
    method Search(via: seq<Edge>, chain: seq<nat>, x: nat, g: nat, ghost states: set<nat>) returns (path: Option<seq<Edge>>)
      requires Finite(gr, states) && x in states && x !in chain
      requires gr.IsPath(gr.init, via) && End(gr.init, via) == x && Cost(via) == g
      modifies this`minPruned
      ensures path.Some? ==> gr.IsSolution(gr.init, path.value) && Cost(path.value) <= bound
      ensures path.None? ==> NoneInside(chain, x, g)
      ensures path.None? ==> Least(old(minPruned), minPruned, Below(chain, x, g))
      decreases |states - Elems(chain)|
    {
      hide Least, Below, BelowFirst, NoneFirst, NoneInside, Graph.IsPath, Finite;
      if g + gr.h(x) > bound {
        if minPruned == 0 || g + gr.h(x) < minPruned {
          minPruned := g + gr.h(x);
        }
        OutsideOnly(chain, x, g, old(minPruned));
        return None;
      }
      if gr.goal(x) {
        ViaSolves(via, x, g);
        return Some(via);
      }
      var children := gr.succ(x);
      NoChildYet(chain, x, g, children, minPruned);
      for i := 0 to |children|
        invariant NoneFirst(chain, x, g, children, i)
        invariant Least(old(minPruned), minPruned, BelowFirst(chain, x, g, children, i))
      {
        var e := children[i];
        ghost var was := minPruned;
        var cycle := IsCycle(chain + [x], e.to);
        if !cycle {
          Extend(gr, gr.init, via, e);
          Fewer(states, chain, x);
          FiniteNext(gr, states, x, e);
          path := Search(via + [e], chain + [x], e.to, g + e.cost, states);
          if path.Some? {
            return;
          }
        }
        ChildDone(chain, x, g, children, i, old(minPruned), was, minPruned, cycle);
        NoneMore(chain, x, g, children, i, cycle);
      }
      AllDone(chain, x, g, children, old(minPruned), minPruned);
      path := None;
    }

    lemma ViaSolves(via: seq<Edge>, x: nat, g: nat)
      requires gr.IsPath(gr.init, via) && End(gr.init, via) == x && Cost(via) == g && gr.goal(x) && g + gr.h(x) <= bound
      ensures gr.IsSolution(gr.init, via) && Cost(via) <= bound
    {
    }

    /** No solution below `x` lies inside the bound. */
    ghost predicate NoneInside(chain: seq<nat>, x: nat, g: nat) {
      forall q :: !Inside(gr, bound, chain, x, g, q)
    }

    /** No solution inside the bound starts with one of the first `i` children. */
    ghost predicate NoneFirst(chain: seq<nat>, x: nat, g: nat, children: seq<Edge>, i: nat) {
      i <= |children| && forall q :: Inside(gr, bound, chain, x, g, q) ==> q != [] && q[0] !in children[..i]
    }

    lemma NoChildYet(chain: seq<nat>, x: nat, g: nat, children: seq<Edge>, least: nat)
      requires !gr.goal(x)
      ensures NoneFirst(chain, x, g, children, 0) && Least(least, least, BelowFirst(chain, x, g, children, 0))
    {
    }

    lemma NoneMore(chain: seq<nat>, x: nat, g: nat, children: seq<Edge>, i: nat, cycle: bool)
      requires i < |children| && NoneFirst(chain, x, g, children, i) && (cycle <==> children[i].to in chain + [x])
      requires !cycle ==> NoneInside(chain + [x], children[i].to, g + children[i].cost)
      ensures NoneFirst(chain, x, g, children, i + 1)
    {
      assert children[..i + 1] == children[..i] + [children[i]];
      forall q | Inside(gr, bound, chain, x, g, q) ensures q != [] && q[0] !in children[..i + 1] {
        InsideTail(gr, bound, chain, x, g, q);
      }
    }

    lemma Fewer(states: set<nat>, chain: seq<nat>, x: nat)
      requires x in states && x !in chain
      ensures |states - Elems(chain + [x])| < |states - Elems(chain)|
    {
      assert states - Elems(chain) == (states - Elems(chain + [x])) + {x};
    }

    lemma OutsideOnly(chain: seq<nat>, x: nat, g: nat, was: nat)
      requires g + gr.h(x) > bound
      ensures Least(was, if was == 0 || g + gr.h(x) < was then g + gr.h(x) else was, Below(chain, x, g))
      ensures NoneInside(chain, x, g)
    {
      assert Below(chain, x, g)([], g + gr.h(x));
    }

    lemma ChildDone(chain: seq<nat>, x: nat, g: nat, children: seq<Edge>, i: nat, start: nat, was: nat, least: nat, cycle: bool)
      requires i < |children| && children == gr.succ(x) && g + gr.h(x) <= bound
      requires Least(start, was, BelowFirst(chain, x, g, children, i))
      requires cycle <==> children[i].to in chain + [x]
      requires if cycle then least == was
               else Least(was, least, Below(chain + [x], children[i].to, g + children[i].cost))
      ensures Least(start, least, BelowFirst(chain, x, g, children, i + 1))
    {
      var e := children[i];
      var first, now := BelowFirst(chain, x, g, children, i), BelowFirst(chain, x, g, children, i + 1);
      assert children[..i + 1] == children[..i] + [e];
      forall q, f | now(q, f) ensures 0 < least <= f {
        if q[0] in children[..i] {
          assert first(q, f);
        } else {
          assert Below(chain + [x], e.to, g + e.cost)(q[1..], f);
        }
      }
      if least != 0 && least != start {
        if least == was {
          var q :| first(q, least);
          assert now(q, least);
        } else {
          var r :| Below(chain + [x], e.to, g + e.cost)(r, least);
          assert ([e] + r)[1..] == r;
          assert now([e] + r, least);
        }
      }
    }

    lemma AllDone(chain: seq<nat>, x: nat, g: nat, children: seq<Edge>, start: nat, least: nat)
      requires children == gr.succ(x) && g + gr.h(x) <= bound
      requires NoneFirst(chain, x, g, children, |children|)
      requires Least(start, least, BelowFirst(chain, x, g, children, |children|))
      ensures Least(start, least, Below(chain, x, g))
      ensures NoneInside(chain, x, g)
    {
      var first, all := BelowFirst(chain, x, g, children, |children|), Below(chain, x, g);
      assert children[..|children|] == children;
      forall q, f | all(q, f) ensures 0 < least <= f {
        assert first(q, f);
      }
      if least != 0 && least != start {
        var q :| first(q, least);
        assert all(q, least);
      }
    }
  }

  // ----- iterative deepening -----

  /** No solution costs less than the bound. */
  ghost predicate BoundBelow(gr: Graph, bound: nat) {
    forall q :: gr.IsSolution(gr.init, q) ==> bound <= Cost(q)
  }

  lemma StartBelow(gr: Graph)
    requires gr.Admissible()
    ensures BoundBelow(gr, gr.h(gr.init))
  {
  }

  /** After an iteration without a result every solution leaves the bound, at an f
      that its cost is not less than. */
  lemma NextBelow(gr: Graph, dfs: CostBoundDFS, least: nat)
    requires gr.Admissible() && dfs.gr == gr && dfs.Least(0, least, dfs.Below([], gr.init, 0))
    requires dfs.NoneInside([], gr.init, 0)
    ensures BoundBelow(gr, least)
    ensures least == 0 ==> forall q :: !gr.IsSolution(gr.init, q)
  {
    forall q | gr.IsSolution(gr.init, q) ensures 0 < least <= Cost(q) {
      var s := MakeSimple(gr, gr.init, q);
      var r, f := InsideOrFringe(gr, dfs.bound, [], gr.init, 0, s);
      assert dfs.Below([], gr.init, 0)(r, f);
    }
  }

  /** The next bound is an f from outside the old one, and no f is beyond the limit. */
  lemma NextGrows(gr: Graph, dfs: CostBoundDFS, least: nat, states: set<nat>, cost: nat, h: nat)
    requires dfs.gr == gr && dfs.Least(0, least, dfs.Below([], gr.init, 0)) && least != 0
    requires Finite(gr, states) && Limits(gr, states, cost, h)
    ensures dfs.bound < least <= |states| * cost + h
  {
    var q :| dfs.Below([], gr.init, 0)(q, least);
    FringeIsOutside(gr, dfs.bound, [], gr.init, 0, q, least);
    FringeLimit(gr, states, cost, h, dfs.bound, [], gr.init, 0, q, least);
    assert states - Elems([]) == states;
  }

  /** IDA*: the result is optimal, `None` means that there is no solution, and the
      bounds of the iterations strictly increase. */
  method IterativeDeepening(gr: Graph, ghost states: set<nat>) returns (path: Option<seq<Edge>>, bounds: seq<nat>)
    requires gr.Admissible() && Finite(gr, states)
    ensures path.Some? ==> gr.IsSolution(gr.init, path.value) && BoundBelow(gr, Cost(path.value))
    ensures path.None? ==> forall q :: !gr.IsSolution(gr.init, q)
    ensures forall i: nat :: i + 1 < |bounds| ==> bounds[i] < bounds[i + 1]
    ensures forall i: nat :: i < |bounds| ==> BoundBelow(gr, bounds[i])
  {
    hide BoundBelow, Graph.Admissible, Inside;
    var bound := gr.h(gr.init);
    StartBelow(gr);
    ghost var cost, h := LimitsExist(gr, states);
    ghost var limit := |states| * cost + h + bound;
    bounds := [];
    path := None;
    var again := true;
    while again
      invariant again ==> BoundBelow(gr, bound) && bound <= limit && path.None?
      invariant !again ==> path.Some? || forall q :: !gr.IsSolution(gr.init, q)
      invariant path.Some? ==> gr.IsSolution(gr.init, path.value) && BoundBelow(gr, Cost(path.value))
      invariant again && |bounds| > 0 ==> bounds[|bounds| - 1] < bound
      invariant forall i: nat :: i + 1 < |bounds| ==> bounds[i] < bounds[i + 1]
      invariant forall i: nat :: i < |bounds| ==> BoundBelow(gr, bounds[i])
      decreases if again then limit - bound + 1 else 0
    {
      var dfs := new CostBoundDFS(gr, bound);
      bounds := bounds + [bound];
      path := dfs.Search([], [], gr.init, 0, states);
      var oldBound := bound;
      bound := dfs.minPruned;
      again := (path.None? || Cost(path.value) > oldBound) && bound != 0;
      if path.Some? {
        CheapIsOptimal(gr, oldBound, path.value);
      } else {
        NextBelow(gr, dfs, bound);
        if bound != 0 { NextGrows(gr, dfs, bound, states, cost, h); }
      }
    }
  }

  lemma CheapIsOptimal(gr: Graph, bound: nat, q: seq<Edge>)
    requires BoundBelow(gr, bound) && Cost(q) <= bound
    ensures BoundBelow(gr, Cost(q))
  {
  }
}
