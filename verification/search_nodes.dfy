/**
 * The state objects of a best-first search with duplicate detection.
 *
 * Node 0 is the initial state, which is in no closed list; every other node is
 * the one closed node of its state.
 */
module SearchNodes {
  import opened FixedPoint
  import opened PriorityQueues
  import opened SearchGraphs
  import opened OpenLists

  /** A node's parent link is an edge, and the parent's cost leaves room for it. */
  ghost predicate NodeOk(gr: Graph, nodes: seq<Node>, closed: map<nat, nat>, n: nat)
    requires n < |nodes|
  {
    var a := nodes[n];
    && a.h == gr.h(a.x)
    && if n == 0 then a.x == gr.init && a.g == 0 && a.parent.None?
       else
         && a.parent.Some? && a.parent.value < |nodes|
         && Edge(a.x, a.c) in gr.succ(nodes[a.parent.value].x)
         && nodes[a.parent.value].g + a.c <= a.g
         && a.x in closed && closed[a.x] == n
  }

  ghost predicate NodesOk(gr: Graph, nodes: seq<Node>, closed: map<nat, nat>) {
    && nodes != []
    && (forall n: nat :: n < |nodes| ==> NodeOk(gr, nodes, closed, n))
    && (forall x :: x in closed ==> 0 < closed[x] < |nodes| && nodes[closed[x]].x == x)
  }

  // ----- parent links -----

  /** The way from the last node of `ch` up to node 0. */
  ghost predicate Chain(nodes: seq<Node>, ch: seq<nat>) {
    && ch != [] && ch[0] == 0
    && (forall i: nat :: i < |ch| ==> ch[i] < |nodes|)
    && forall i: nat :: 0 < i < |ch| ==> Up(nodes, ch, i)
  }

  ghost predicate Up(nodes: seq<Node>, ch: seq<nat>, i: nat)
    requires 0 < i < |ch| && ch[i] < |nodes|
  {
    ch[i] != 0 && nodes[ch[i]].parent == Some(ch[i - 1])
  }

  ghost predicate HasChain(nodes: seq<Node>, n: nat) {
    exists ch :: Chain(nodes, ch) && ch[|ch| - 1] == n
  }

  ghost function TheChain(nodes: seq<Node>, n: nat): (ch: seq<nat>)
    requires HasChain(nodes, n)
    ensures Chain(nodes, ch) && ch[|ch| - 1] == n
  {
    var ch :| Chain(nodes, ch) && ch[|ch| - 1] == n; ch
  }

  /** No cycle of parent links: every node's links lead to node 0. */
  ghost predicate Rooted(nodes: seq<Node>) {
    forall n: nat :: n < |nodes| ==> HasChain(nodes, n)
  }

  /** Costs do not fall along a chain. */
  lemma {:induction false} ChainAscends(gr: Graph, nodes: seq<Node>, closed: map<nat, nat>, ch: seq<nat>, i: nat)
    requires NodesOk(gr, nodes, closed) && Chain(nodes, ch) && i < |ch|
    ensures nodes[ch[i]].g <= nodes[ch[|ch| - 1]].g
    decreases |ch| - i
  {
    if i + 1 < |ch| {
      ChainAscends(gr, nodes, closed, ch, i + 1);
      assert Up(nodes, ch, i + 1) && NodeOk(gr, nodes, closed, ch[i + 1]);
    }
  }

  /** A generated child becomes a new node. */
  function Child(gr: Graph, nodes: seq<Node>, s: nat, e: Edge): Node
    requires s < |nodes|
  {
    Node(e.to, nodes[s].g + e.cost, e.cost, gr.h(e.to), Some(s), true)
  }

  /** A better way to a known state is recorded in its node. */
  function Relinked(nodes: seq<Node>, y: nat, s: nat, e: Edge, open: bool): seq<Node>
    requires y < |nodes| && s < |nodes|
  {
    nodes[y := nodes[y].(g := nodes[s].g + e.cost, c := e.cost, parent := Some(s), open := open)]
  }

  lemma AddKeeps(gr: Graph, nodes: seq<Node>, closed: map<nat, nat>, s: nat, e: Edge)
    requires NodesOk(gr, nodes, closed) && Rooted(nodes) && s < |nodes| && e in gr.succ(nodes[s].x) && e.to !in closed
    ensures NodesOk(gr, nodes + [Child(gr, nodes, s, e)], closed[e.to := |nodes|])
    ensures Rooted(nodes + [Child(gr, nodes, s, e)])
  {
    var now, closed' := nodes + [Child(gr, nodes, s, e)], closed[e.to := |nodes|];
    forall n: nat | n < |now| ensures NodeOk(gr, now, closed', n) {
      if n < |nodes| { assert NodeOk(gr, nodes, closed, n); }
    }
    forall n: nat | n < |now| ensures HasChain(now, n) {
      var m := if n < |nodes| then n else s;
      var ch := TheChain(nodes, m);
      ChainKept(nodes, now, ch);
      if n == |nodes| {
        var ch' := ch + [n];
        forall i: nat | 0 < i < |ch'| ensures Up(now, ch', i) {
          if i < |ch| { assert Up(now, ch, i); }
        }
        assert Chain(now, ch') && ch'[|ch'| - 1] == n;
      }
    }
  }

  lemma ChainKept(nodes: seq<Node>, now: seq<Node>, ch: seq<nat>)
    requires Chain(nodes, ch) && |nodes| <= |now|
    requires forall i: nat :: i < |ch| ==> now[ch[i]].parent == nodes[ch[i]].parent
    ensures Chain(now, ch)
  {
    forall i: nat | 0 < i < |ch| ensures Up(now, ch, i) { assert Up(nodes, ch, i); }
  }

  /** Recording a strictly better way keeps the links acyclic, edges of cost zero
      included: the new parent cannot be a descendant. */
  lemma RelinkKeeps(gr: Graph, nodes: seq<Node>, closed: map<nat, nat>, y: nat, s: nat, e: Edge, open: bool)
    requires NodesOk(gr, nodes, closed) && Rooted(nodes) && 0 < y < |nodes| && s < |nodes| && e in gr.succ(nodes[s].x)
    requires nodes[y].x == e.to && nodes[s].g + e.cost < nodes[y].g
    ensures NodesOk(gr, Relinked(nodes, y, s, e, open), closed) && Rooted(Relinked(nodes, y, s, e, open))
  {
    var now := Relinked(nodes, y, s, e, open);
    assert y != s;
    forall n: nat | n < |now| ensures NodeOk(gr, now, closed, n) { assert NodeOk(gr, nodes, closed, n); }
    var up := TheChain(nodes, s);
    forall i: nat | i < |up| ensures up[i] != y { ChainAscends(gr, nodes, closed, up, i); }
    ChainKept(nodes, now, up);
    var down := up + [y];
    forall i: nat | 0 < i < |down| ensures Up(now, down, i) {
      if i < |up| { assert Up(now, up, i); }
    }
    assert Chain(now, down);
    forall n: nat | n < |now| ensures HasChain(now, n) {
      var ch := TheChain(nodes, n);
      Rehang(nodes, now, ch, down, y);
    }
  }

  /** A chain through `y` is hung below the new way to `y`. */
  lemma {:induction false} Rehang(nodes: seq<Node>, now: seq<Node>, ch: seq<nat>, down: seq<nat>, y: nat)
    requires Chain(nodes, ch) && Chain(now, down) && down[|down| - 1] == y && |now| == |nodes|
    requires forall n: nat :: n < |nodes| && n != y ==> now[n].parent == nodes[n].parent
    ensures HasChain(now, ch[|ch| - 1])
    decreases |ch|
  {
    var n := ch[|ch| - 1];
    if n == y {
      assert Chain(now, down) && down[|down| - 1] == n;
    } else if |ch| == 1 {
      assert Chain(now, [0]) && [0][0] == n;
    } else {
      var init := ch[..|ch| - 1];
      forall i: nat | 0 < i < |init| ensures Up(nodes, init, i) { assert Up(nodes, ch, i); }
      Rehang(nodes, now, init, down, y);
      var up :| Chain(now, up) && up[|up| - 1] == init[|init| - 1];
      var all := up + [n];
      assert Up(nodes, ch, |ch| - 1);
      forall i: nat | 0 < i < |all| ensures Up(now, all, i) {
        if i < |up| { assert Up(now, up, i); }
      }
      assert Chain(now, all) && all[|all| - 1] == n;
    }
  }

  // ----- paths -----

  /** The edges of a path of node copies that runs from its goal back to the start. */
  function EdgesOf(path: seq<Node>): (q: seq<Edge>)
    ensures |path| > 0 ==> |q| == |path| - 1
  {
    if |path| <= 1 then [] else EdgesOf(path[1..]) + [Edge(path[0].x, path[0].c)]
  }

  /** What `get_path` returns: a real path whose cost is at most the recorded one. */
  ghost predicate PathOf(gr: Graph, path: seq<Node>) {
    && path != []
    && gr.IsPath(gr.init, EdgesOf(path)) && End(gr.init, EdgesOf(path)) == path[0].x
    && Cost(EdgesOf(path)) <= path[0].g
  }

  lemma {:induction false} PathGrows(gr: Graph, path: seq<Node>, a: Node)
    requires PathOf(gr, path) && Edge(a.x, a.c) in gr.succ(path[0].x) && path[0].g + a.c <= a.g
    ensures PathOf(gr, [a] + path)
  {
    assert ([a] + path)[1..] == path;
    Extend(gr, gr.init, EdgesOf(path), Edge(a.x, a.c));
  }

  /** The path that the chain `ch` of parents describes. */
  function Copies(nodes: seq<Node>, ch: seq<nat>): (path: seq<Node>)
    requires forall i: nat :: i < |ch| ==> ch[i] < |nodes|
    ensures |path| == |ch|
  {
    if ch == [] then [] else [nodes[ch[|ch| - 1]]] + Copies(nodes, ch[..|ch| - 1])
  }

  lemma {:induction false} ChainIsPath(gr: Graph, nodes: seq<Node>, closed: map<nat, nat>, ch: seq<nat>)
    requires NodesOk(gr, nodes, closed) && Chain(nodes, ch)
    ensures PathOf(gr, Copies(nodes, ch)) && Copies(nodes, ch)[0] == nodes[ch[|ch| - 1]]
    decreases |ch|
  {
    assert NodeOk(gr, nodes, closed, 0);
    if |ch| == 1 {
      assert Copies(nodes, ch) == [nodes[0]] + Copies(nodes, ch[..0]);
      assert EdgesOf([nodes[0]]) == [];
    } else {
      var init := ch[..|ch| - 1];
      forall i: nat | 0 < i < |init| ensures Up(nodes, init, i) { assert Up(nodes, ch, i); }
      ChainIsPath(gr, nodes, closed, init);
      assert Up(nodes, ch, |ch| - 1) && NodeOk(gr, nodes, closed, ch[|ch| - 1]);
      PathGrows(gr, Copies(nodes, init), nodes[ch[|ch| - 1]]);
    }
  }

  /** The path that the parent links of `n` describe. */
  ghost predicate Describes(nodes: seq<Node>, n: nat, path: seq<Node>) {
    exists ch :: Chain(nodes, ch) && ch[|ch| - 1] == n && path == Copies(nodes, ch)
  }

  /** Follows the parent links. */
  method GetPath(gr: Graph, nodes: seq<Node>, ghost closed: map<nat, nat>, n: nat) returns (path: seq<Node>)
    requires NodesOk(gr, nodes, closed) && Rooted(nodes) && n < |nodes|
    ensures PathOf(gr, path) && path[0] == nodes[n] && Describes(nodes, n, path)
  {
    ghost var ch := TheChain(nodes, n);
    ghost var all := ch;
    var p := Some(n);
    path := [];
    while p.Some?
      invariant Chain(nodes, all) && all[|all| - 1] == n
      invariant ch == all[..|ch|] && |ch| <= |all|
      invariant p == if ch == [] then None else Some(ch[|ch| - 1])
      invariant path + Copies(nodes, ch) == Copies(nodes, all)
      decreases |ch|
    {
      assert ch[|ch| - 1] == all[|ch| - 1];
      if |ch| > 1 { assert Up(nodes, all, |ch| - 1); } else { assert NodeOk(gr, nodes, closed, 0); }
      path := path + [nodes[p.value]];
      p := nodes[p.value].parent;
      ch := ch[..|ch| - 1];
    }
    assert path + [] == path;
    ChainIsPath(gr, nodes, closed, all);
  }

  // ----- the search frontier -----

  /** The successor along `e` is known at a cost at which `n` reaches it, or better. */
  ghost predicate Reached(nodes: seq<Node>, closed: map<nat, nat>, n: nat, e: Edge, exact: bool)
    requires n < |nodes|
  {
    && e.to in closed && closed[e.to] < |nodes|
    && (exact ==> nodes[closed[e.to]].g <= nodes[n].g + e.cost)
  }

  ghost predicate Expanded(gr: Graph, nodes: seq<Node>, closed: map<nat, nat>, n: nat, exact: bool)
    requires n < |nodes|
  {
    forall e :: e in gr.succ(nodes[n].x) ==> Reached(nodes, closed, n, e, exact)
  }

  /** Every node that is neither open nor a goal nor `but` has been expanded at its cost. */
  ghost predicate Closed(gr: Graph, nodes: seq<Node>, closed: map<nat, nat>, open: set<nat>, but: Option<nat>, exact: bool) {
    forall n: nat :: n < |nodes| && n !in open && but != Some(n) && !gr.goal(nodes[n].x) ==>
      Expanded(gr, nodes, closed, n, exact)
  }

  /** Along every solution the search has an open node, or a goal, at no greater cost. */
  lemma {:induction false} Frontier(gr: Graph, nodes: seq<Node>, closed: map<nat, nat>, open: set<nat>, exact: bool,
                                    n: nat, q: seq<Edge>) returns (m: nat, r: seq<Edge>)
    requires NodesOk(gr, nodes, closed) && Closed(gr, nodes, closed, open, None, exact) && n < |nodes|
    requires gr.IsSolution(nodes[n].x, q)
    ensures m < |nodes| && (m in open || gr.goal(nodes[m].x))
    ensures gr.IsSolution(nodes[m].x, r) && (exact ==> nodes[m].g + Cost(r) <= nodes[n].g + Cost(q))
    decreases |q|
  {
    if n in open || gr.goal(nodes[n].x) {
      m, r := n, q;
      if gr.goal(nodes[n].x) && n !in open {
        r := [];
        assert gr.IsSolution(nodes[n].x, []);
      }
    } else {
      assert Expanded(gr, nodes, closed, n, exact);
      assert Reached(nodes, closed, n, q[0], exact);
      m, r := Frontier(gr, nodes, closed, open, exact, closed[q[0].to], q[1..]);
    }
  }

  /** From node `was` to node `now` the search has only learned: costs fall, and
      among the nodes that are not in `open` no cost falls. */
  ghost predicate Learns(was: seq<Node>, closedWas: map<nat, nat>, now: seq<Node>, closed: map<nat, nat>, open: set<nat>, exact: bool) {
    && |was| <= |now|
    && (forall x :: x in closedWas ==> x in closed && closed[x] == closedWas[x])
    && forall n: nat :: n < |was| ==>
         && now[n].x == was[n].x && now[n].g <= was[n].g
         && (exact && n !in open ==> now[n].g == was[n].g)
  }

  lemma ExpandedKept(gr: Graph, was: seq<Node>, closedWas: map<nat, nat>, now: seq<Node>, closed: map<nat, nat>, open: set<nat>, exact: bool, n: nat)
    requires Learns(was, closedWas, now, closed, open, exact) && n < |was| && n !in open
    requires Expanded(gr, was, closedWas, n, exact)
    ensures Expanded(gr, now, closed, n, exact)
  {
    forall e | e in gr.succ(now[n].x) ensures Reached(now, closed, n, e, exact) {
      assert Reached(was, closedWas, n, e, exact);
    }
  }

  function SumG(nodes: seq<Node>): nat {
    if nodes == [] then 0 else nodes[|nodes| - 1].g + SumG(nodes[..|nodes| - 1])
  }

  lemma {:induction false} SumFalls(nodes: seq<Node>, y: nat, b: Node)
    requires y < |nodes| && b.g < nodes[y].g
    ensures SumG(nodes[y := b]) < SumG(nodes)
  {
    var k := |nodes| - 1;
    if y == k {
      assert nodes[y := b][..k] == nodes[..k];
    } else {
      SumFalls(nodes[..k], y, b);
      assert nodes[y := b][..k] == nodes[..k][y := b];
    }
  }

  lemma {:induction false} SumSame(nodes: seq<Node>, now: seq<Node>)
    requires |now| == |nodes| && forall n: nat :: n < |nodes| ==> now[n].g == nodes[n].g
    ensures SumG(now) == SumG(nodes)
  {
    if nodes != [] {
      SumSame(nodes[..|nodes| - 1], now[..|nodes| - 1]);
    }
  }

  /** A finite state space: all states reachable from the initial one lie in `states`. */
  ghost predicate Finite(gr: Graph, states: set<nat>) {
    && gr.init in states
    && forall x, e :: x in states && e in gr.succ(x) ==> e.to in states
  }

  lemma FiniteNext(gr: Graph, states: set<nat>, x: nat, e: Edge)
    requires Finite(gr, states) && x in states && e in gr.succ(x)
    ensures e.to in states
  {
  }

  /** Either nothing changed, or a state was seen for the first time, or costs fell. */
  ghost predicate Shrinks(was: seq<Node>, closedWas: map<nat, nat>, openWas: set<nat>,
                          now: seq<Node>, closed: map<nat, nat>, open: set<nat>) {
    || |closedWas| < |closed|
    || (|closedWas| == |closed| && SumG(now) < SumG(was))
    || (now == was && closed == closedWas && open == openWas)
  }

  lemma SubsetSize<T>(a: set<T>, b: set<T>)
    requires a <= b
    ensures |a| <= |b|
  {
    if a != b { assert b == a + (b - a); }
  }

  lemma FlagKeeps(gr: Graph, nodes: seq<Node>, closed: map<nat, nat>, n: nat, b: bool)
    requires NodesOk(gr, nodes, closed) && Rooted(nodes) && n < |nodes|
    ensures NodesOk(gr, nodes[n := nodes[n].(open := b)], closed) && Rooted(nodes[n := nodes[n].(open := b)])
  {
    var now := nodes[n := nodes[n].(open := b)];
    forall m: nat | m < |now| ensures NodeOk(gr, now, closed, m) { assert NodeOk(gr, nodes, closed, m); }
    forall m: nat | m < |now| ensures HasChain(now, m) {
      var ch := TheChain(nodes, m);
      ChainKept(nodes, now, ch);
    }
  }

  lemma RelinkFacts(nodes: seq<Node>, y: nat, s: nat, e: Edge, b: bool, open: set<nat>)
    requires y < |nodes| && s < |nodes|
    ensures var now := Relinked(nodes, y, s, e, b);
            && |now| == |nodes| && now[y].open == b && now[y].x == nodes[y].x
            && (forall n: nat :: n < |nodes| && n != y ==> now[n] == nodes[n])
            && SameKeys(nodes, now, open - {y}) && (y !in open ==> SameKeys(nodes, now, open))
  {
  }

  lemma OnlyRoot(gr: Graph, nodes: seq<Node>, closed: map<nat, nat>, exact: bool)
    requires |nodes| == 1
    ensures Closed(gr, nodes, closed, {0}, None, exact) && GoalsPaid(gr, nodes, {0}, None)
  {
  }

  lemma LearnsNothing(nodes: seq<Node>, closed: map<nat, nat>, open: set<nat>, exact: bool)
    ensures Learns(nodes, closed, nodes, closed, open, exact)
  {
  }

  lemma ShrinksNothing(nodes: seq<Node>, closed: map<nat, nat>, open: set<nat>)
    ensures Shrinks(nodes, closed, open, nodes, closed, open)
  {
  }

  lemma LearnsMore(was: seq<Node>, closedWas: map<nat, nat>, mid: seq<Node>, closedMid: map<nat, nat>, openMid: set<nat>,
                   now: seq<Node>, closed: map<nat, nat>, open: set<nat>, exact: bool)
    requires Learns(was, closedWas, mid, closedMid, openMid, exact) && Learns(mid, closedMid, now, closed, open, exact)
    requires openMid <= open
    ensures Learns(was, closedWas, now, closed, open, exact)
  {
  }

  lemma ShrinksMore(was: seq<Node>, closedWas: map<nat, nat>, openWas: set<nat>,
                    mid: seq<Node>, closedMid: map<nat, nat>, openMid: set<nat>,
                    now: seq<Node>, closed: map<nat, nat>, open: set<nat>)
    requires Shrinks(was, closedWas, openWas, mid, closedMid, openMid) && Shrinks(mid, closedMid, openMid, now, closed, open)
    ensures Shrinks(was, closedWas, openWas, now, closed, open)
  {
  }

  lemma ReachedKept(was: seq<Node>, closedWas: map<nat, nat>, now: seq<Node>, closed: map<nat, nat>, open: set<nat>, exact: bool,
                    s: nat, e: Edge)
    requires Learns(was, closedWas, now, closed, open, exact) && s < |was| && now[s] == was[s]
    requires Reached(was, closedWas, s, e, true)
    ensures Reached(now, closed, s, e, true)
  {
  }

  lemma AllReached(gr: Graph, nodes: seq<Node>, closed: map<nat, nat>, s: nat, children: seq<Edge>, exact: bool)
    requires s < |nodes| && children == gr.succ(nodes[s].x)
    requires forall j: nat :: j < |children| ==> Reached(nodes, closed, s, children[j], true)
    ensures Expanded(gr, nodes, closed, s, exact)
  {
  }

  lemma ClosedKept(gr: Graph, was: seq<Node>, closedWas: map<nat, nat>, openWas: set<nat>,
                   now: seq<Node>, closed: map<nat, nat>, open: set<nat>, s: nat, exact: bool)
    requires Closed(gr, was, closedWas, openWas, Some(s), exact)
    requires Learns(was, closedWas, now, closed, open, exact) && openWas <= open
    requires forall n: nat :: |was| <= n < |now| ==> n in open
    requires s < |was| && Expanded(gr, now, closed, s, exact)
    ensures Closed(gr, now, closed, open, None, exact)
  {
    hide Expanded;
    forall n: nat | n < |now| && n !in open && !gr.goal(now[n].x) ensures Expanded(gr, now, closed, n, exact) {
      if n != s {
        assert Expanded(gr, was, closedWas, n, exact);
        ExpandedKept(gr, was, closedWas, now, closed, open, exact, n);
      }
    }
  }

  /** Every goal that was taken is paid for by an incumbent that costs no more. */
  ghost predicate GoalsPaid(gr: Graph, nodes: seq<Node>, open: set<nat>, cost: Option<nat>) {
    forall n: nat :: n < |nodes| && n !in open && gr.goal(nodes[n].x) ==> cost.Some? && cost.value <= nodes[n].g
  }

  lemma GoalsKept(gr: Graph, was: seq<Node>, closedWas: map<nat, nat>, openWas: set<nat>,
                  now: seq<Node>, closed: map<nat, nat>, open: set<nat>, cost: Option<nat>, exact: bool)
    requires GoalsPaid(gr, was, openWas, cost) && (cost.Some? ==> exact)
    requires Learns(was, closedWas, now, closed, open, exact) && openWas <= open
    requires forall n: nat :: |was| <= n < |now| ==> n in open
    ensures GoalsPaid(gr, now, open, cost)
  {
  }

  /** Taking `s` leaves everything but `s` closed. */
  lemma FlagClosed(gr: Graph, was: seq<Node>, now: seq<Node>, closed: map<nat, nat>, openWas: set<nat>, s: nat, exact: bool)
    requires Closed(gr, was, closed, openWas, None, exact) && s < |was| && now == was[s := was[s].(open := false)]
    ensures Closed(gr, now, closed, openWas - {s}, Some(s), exact)
  {
    forall n: nat | n < |now| && n !in openWas - {s} && n != s && !gr.goal(now[n].x)
      ensures Expanded(gr, now, closed, n, exact)
    {
      assert Expanded(gr, was, closed, n, exact);
      forall e | e in gr.succ(now[n].x) ensures Reached(now, closed, n, e, exact) {
        assert Reached(was, closed, n, e, exact);
      }
    }
  }

  /** A node of least f' costs at most the weight times any solution that passes a node of the list. */
  lemma CheapEnough(gr: Graph, w: nat, s: Node, m: Node, r: seq<Edge>, q: nat)
    requires FP_ONE <= w && gr.Admissible() && m.h == gr.h(m.x) && gr.IsSolution(m.x, r)
    requires FPrime(w, s.g, s.h) <= FPrime(w, m.g, m.h) && m.g + Cost(r) <= q
    ensures s.g * FP_ONE <= w * q
  {
    FPrimeBound(w, m.g, m.h);
    FPrimeBound(w, s.g, s.h);
    assert F(m.g, m.h) <= q;
    Scale(w, F(m.g, m.h), q);
    hide FPrime, F, Graph.Admissible;
    assert s.g <= FPrime(w, m.g, m.h) by { AtLeastG(w, s.g, s.h); }
    Scale(FP_ONE, s.g, FPrime(w, m.g, m.h));
  }

  lemma AtLeastG(w: nat, g: nat, h: nat)
    ensures g <= FPrime(w, g, h)
  {
  }

  lemma Scale(k: nat, a: nat, b: nat)
    requires a <= b
    ensures k * a <= k * b
  {
  }

  /** What recording a better way to `y` comes to. */
  lemma ImproveFacts(nodes: seq<Node>, closed: map<nat, nat>, s: nat, e: Edge, y: nat, b: bool,
                     open: set<nat>, open': set<nat>, exact: bool)
    requires s < |nodes| && y < |nodes| && e.to in closed && closed[e.to] == y && nodes[s].g + e.cost < nodes[y].g
    requires exact ==> y in open'
    ensures var now := Relinked(nodes, y, s, e, b);
            && |now| == |nodes| && now[s] == nodes[s] && Learns(nodes, closed, now, closed, open', exact)
            && Reached(now, closed, s, e, true) && Shrinks(nodes, closed, open, now, closed, open')
  {
    SumFalls(nodes, y, Relinked(nodes, y, s, e, b)[y]);
  }

  /** What meeting a state for the first time comes to. */
  lemma AddFacts(gr: Graph, nodes: seq<Node>, closed: map<nat, nat>, s: nat, e: Edge,
                 open: set<nat>, open': set<nat>, exact: bool)
    requires s < |nodes| && e.to !in closed
    ensures var now, closed' := nodes + [Child(gr, nodes, s, e)], closed[e.to := |nodes|];
            && now[s] == nodes[s] && Learns(nodes, closed, now, closed', open', exact)
            && Reached(now, closed', s, e, true) && Shrinks(nodes, closed, open, now, closed', open')
  {
    assert closed[e.to := |nodes|].Keys == closed.Keys + {e.to};
  }

  lemma ClosedNode(gr: Graph, nodes: seq<Node>, closed: map<nat, nat>, x: nat)
    requires NodesOk(gr, nodes, closed) && x in closed
    ensures 0 < closed[x] < |nodes| && nodes[closed[x]].x == x
  {
  }

  /** The child is known already, and not at a higher cost. */
  lemma KnownFacts(nodes: seq<Node>, closed: map<nat, nat>, s: nat, e: Edge, open: set<nat>, exact: bool)
    requires s < |nodes| && e.to in closed && closed[e.to] < |nodes| && nodes[closed[e.to]].g <= nodes[s].g + e.cost
    ensures Learns(nodes, closed, nodes, closed, open, exact) && Reached(nodes, closed, s, e, true)
    ensures Shrinks(nodes, closed, open, nodes, closed, open)
  {
  }
}
