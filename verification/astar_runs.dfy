/**
 * The A* loop as a relation between states of its lists, and what dropping
 * duplicates costs under a heuristic that is admissible but not consistent.
 */
module AStarRuns {
  import opened FixedPoint
  import opened PriorityQueues
  import opened SearchGraphs
  import opened OpenLists
  import opened SearchNodes

  /** All nodes, the closed list, and the nodes on the open list. */
  datatype View = View(nodes: seq<Node>, closed: map<nat, nat>, open: set<nat>)

  ghost predicate ViewOk(v: View, s: nat) {
    s < |v.nodes| && forall x :: x in v.closed ==> v.closed[x] < |v.nodes|
  }

  /** One child: it is new, or known at a higher cost, or dropped. */
  ghost function Enter(gr: Graph, dd: bool, v: View, s: nat, e: Edge): (r: View)
    requires ViewOk(v, s)
    ensures ViewOk(r, s)
  {
    if e.to !in v.closed then
      View(v.nodes + [Child(gr, v.nodes, s, e)], v.closed[e.to := |v.nodes|], v.open + {|v.nodes|})
    else
      var y := v.closed[e.to];
      if v.nodes[s].g + e.cost < v.nodes[y].g then
        View(Relinked(v.nodes, y, s, e, v.nodes[y].open || !dd), v.closed, if dd then v.open else v.open + {y})
      else v
  }

  /** The first `k` children. */
  ghost function EnterAll(gr: Graph, dd: bool, v: View, s: nat, es: seq<Edge>, k: nat): (r: View)
    requires ViewOk(v, s) && k <= |es|
    ensures ViewOk(r, s)
  {
    if k == 0 then v else Enter(gr, dd, EnterAll(gr, dd, v, s, es, k - 1), s, es[k - 1])
  }

  lemma EnterNone(gr: Graph, dd: bool, v: View, s: nat, es: seq<Edge>)
    requires ViewOk(v, s)
    ensures EnterAll(gr, dd, v, s, es, 0) == v
  {
  }

  lemma EnterNext(gr: Graph, dd: bool, v: View, s: nat, es: seq<Edge>, k: nat)
    requires ViewOk(v, s) && k < |es|
    ensures EnterAll(gr, dd, v, s, es, k + 1) == Enter(gr, dd, EnterAll(gr, dd, v, s, es, k), s, es[k])
  {
  }

  ghost function Taken(v: View, s: nat): View
    requires s < |v.nodes|
  {
    View(v.nodes[s := v.nodes[s].(open := false)], v.closed, v.open - {s})
  }

  /** Nothing on the open list precedes `s`. */
  ghost predicate MayTake(w: nat, v: View, s: nat) {
    s in v.open && s < |v.nodes| && forall m :: m in v.open ==> m < |v.nodes| && !Less(ByFPrime, w, v.nodes[m], v.nodes[s])
  }

  ghost predicate Round(gr: Graph, dd: bool, w: nat, v: View, v': View, s: nat) {
    && MayTake(w, v, s) && !gr.goal(v.nodes[s].x) && ViewOk(Taken(v, s), s)
    && v' == EnterAll(gr, dd, Taken(v, s), s, gr.succ(v.nodes[s].x), |gr.succ(v.nodes[s].x)|)
  }

  ghost predicate CanRound(gr: Graph, dd: bool, w: nat, v: View, v': View) {
    exists s :: Round(gr, dd, w, v, v', s)
  }

  function Start(gr: Graph): View {
    View([Node(gr.init, 0, 0, gr.h(gr.init), None, true)], map[], {0})
  }

  /** The lists before each round of a search. */
  ghost predicate IsRun(gr: Graph, dd: bool, w: nat, tr: seq<View>) {
    && tr != [] && tr[0] == Start(gr)
    && forall i: nat :: i + 1 < |tr| ==> CanRound(gr, dd, w, tr[i], tr[i + 1])
  }

  /** The search that has come to `tr` may take the goal node `s`, and `path` is
      what its parent links describe. */
  ghost predicate Finds(gr: Graph, w: nat, tr: seq<View>, s: nat, path: seq<Node>) {
    && tr != [] && MayTake(w, tr[|tr| - 1], s) && gr.goal(tr[|tr| - 1].nodes[s].x)
    && Describes(Taken(tr[|tr| - 1], s).nodes, s, path)
  }

  lemma RunStarts(gr: Graph, dd: bool, w: nat)
    ensures IsRun(gr, dd, w, [Start(gr)])
  {
  }

  lemma RunGrows(gr: Graph, dd: bool, w: nat, tr: seq<View>, v: View)
    requires IsRun(gr, dd, w, tr) && CanRound(gr, dd, w, tr[|tr| - 1], v)
    ensures IsRun(gr, dd, w, tr + [v])
  {
    var all := tr + [v];
    forall i: nat | i + 1 < |all| ensures CanRound(gr, dd, w, all[i], all[i + 1]) {
      if i + 1 < |tr| { assert CanRound(gr, dd, w, tr[i], tr[i + 1]); }
    }
  }

  // ----- an admissible heuristic that is not consistent -----

  function Early(w: nat): nat { FP_ONE + w + w * w - 1 }

  function Tail(w: nat): nat { w * FP_ONE }

  /** From 0 to the goal 3 directly, over 2, or over 1 and 2; the last way is the
      cheapest, but the estimate of 1 holds it back until 2 has been expanded. */
  function DetourSucc(w: nat, x: nat): seq<Edge> {
    if x == 0 then [Edge(1, FP_ONE), Edge(2, Early(w)), Edge(3, Early(w) + Tail(w))]
    else if x == 1 then [Edge(2, FP_ONE)]
    else if x == 2 then [Edge(3, Tail(w))]
    else []
  }

  function DetourGraph(w: nat): Graph {
    Graph(0, (x: nat) => DetourSucc(w, x), (x: nat) => if x == 1 then FP_ONE + Tail(w) else 0, x => x == 3)
  }

  function BestWay(w: nat): seq<Edge> { [Edge(1, FP_ONE), Edge(2, FP_ONE), Edge(3, Tail(w))] }

  lemma BestWaySolves(w: nat)
    ensures DetourGraph(w).IsSolution(0, BestWay(w)) && Cost(BestWay(w)) == 2 * FP_ONE + Tail(w)
  {
    var gr, q := DetourGraph(w), BestWay(w);
    assert q[1..] == [q[1], q[2]] && q[1..][1..] == [q[2]] && [q[2]][1..] == [];
    assert gr.IsPath(3, []) && gr.IsPath(2, [q[2]]) && gr.IsPath(1, q[1..]);
    assert Cost([q[2]]) == Tail(w) && Cost(q[1..]) == FP_ONE + Tail(w);
    assert End(2, [q[2]]) == 3 && End(1, q[1..]) == 3;
  }

  lemma DetourIsAdmissible(w: nat)
    ensures DetourGraph(w).Admissible()
  {
    var gr := DetourGraph(w);
    forall x: nat, q: seq<Edge> | gr.IsSolution(x, q) ensures gr.h(x) <= Cost(q) {
      if x == 1 {
        assert q != [] && q[0] == Edge(2, FP_ONE);
        var r := q[1..];
        assert gr.IsPath(2, r) && End(2, r) == 3;
        assert r != [] && r[0] == Edge(3, Tail(w));
        assert Cost(r) >= Tail(w);
      }
    }
  }

  // ----- the only run on that graph -----

  /** The nodes before each of the four rounds. */
  function RootNode(open: bool): Node { Node(0, 0, 0, 0, None, open) }

  function ANode(w: nat, open: bool): Node { Node(1, FP_ONE, FP_ONE, FP_ONE + Tail(w), Some(0), open) }

  function CNode(w: nat, open: bool): Node { Node(2, Early(w), Early(w), 0, Some(0), open) }

  function LateCNode(): Node { Node(2, 2 * FP_ONE, FP_ONE, 0, Some(1), false) }

  function GNode(w: nat, open: bool): Node { Node(3, Early(w) + Tail(w), Early(w) + Tail(w), 0, Some(0), open) }

  function AllClosed(): map<nat, nat> { map[1 := 1, 2 := 2, 3 := 3] }

  function View1(w: nat): View {
    View([RootNode(false), ANode(w, true), CNode(w, true), GNode(w, true)], AllClosed(), {1, 2, 3})
  }

  function View2(w: nat): View {
    View([RootNode(false), ANode(w, true), CNode(w, false), GNode(w, true)], AllClosed(), {1, 3})
  }

  function View3(w: nat): View {
    View([RootNode(false), ANode(w, false), LateCNode(), GNode(w, true)], AllClosed(), {3})
  }

  /** The values that decide: C comes before A, and A before the goal. */
  lemma Values(w: nat)
    requires FP_ONE <= w
    ensures FPrime(w, FP_ONE, FP_ONE + Tail(w)) == FP_ONE + w + w * w
    ensures forall g :: FPrime(w, g, 0) == g
    ensures Early(w) < FP_ONE + w + w * w < Early(w) + Tail(w)
    ensures 2 * FP_ONE < Early(w)
  {
    assert w * (FP_ONE + w * FP_ONE) == (w + w * w) * FP_ONE;
    Whole(w + w * w);
    assert w >= FP_ONE && w * w >= w * FP_ONE;
  }

  lemma Whole(k: nat)
    ensures k * FP_ONE / FP_ONE == k
  {
  }

  lemma Round0(w: nat, v: View)
    requires FP_ONE <= w && CanRound(DetourGraph(w), true, w, Start(DetourGraph(w)), v)
    ensures v == View1(w)
  {
    var gr := DetourGraph(w);
    var s :| Round(gr, true, w, Start(gr), v, s);
    hide Less, Early, Tail, Enter, EnterAll, View1;
    var t, es := Taken(Start(gr), 0), DetourSucc(w, 0);
    EnterThree(gr, t, 0, es);
    FirstChild(w);
    SecondChild(w);
    ThirdChild(w);
    assert t == View([RootNode(false)], map[], {});
  }

  lemma FirstChild(w: nat)
    ensures Enter(DetourGraph(w), true, View([RootNode(false)], map[], {}), 0, DetourSucc(w, 0)[0]) ==
            View([RootNode(false), ANode(w, true)], map[1 := 1], {1})
  {
    hide Early, Tail;
  }

  lemma SecondChild(w: nat)
    ensures Enter(DetourGraph(w), true, View([RootNode(false), ANode(w, true)], map[1 := 1], {1}), 0, DetourSucc(w, 0)[1]) ==
            View([RootNode(false), ANode(w, true), CNode(w, true)], map[1 := 1, 2 := 2], {1, 2})
  {
    hide Early, Tail;
  }

  lemma ThirdChild(w: nat)
    ensures Enter(DetourGraph(w), true, View([RootNode(false), ANode(w, true), CNode(w, true)], map[1 := 1, 2 := 2], {1, 2}),
                  0, DetourSucc(w, 0)[2]) == View1(w)
  {
    hide Early, Tail;
  }

  lemma EnterThree(gr: Graph, v: View, s: nat, es: seq<Edge>)
    requires ViewOk(v, s) && |es| == 3
    ensures EnterAll(gr, true, v, s, es, 3) ==
            Enter(gr, true, Enter(gr, true, Enter(gr, true, v, s, es[0]), s, es[1]), s, es[2])
  {
    hide Enter;
    EnterNext(gr, true, v, s, es, 0);
    EnterNext(gr, true, v, s, es, 1);
    EnterNext(gr, true, v, s, es, 2);
  }

  lemma Round1(w: nat, v: View)
    requires FP_ONE <= w && CanRound(DetourGraph(w), true, w, View1(w), v)
    ensures v == View2(w)
  {
    var gr := DetourGraph(w);
    var s :| Round(gr, true, w, View1(w), v, s);
    Values(w);
    hide FPrime, Early, Tail;
    assert s == 2 by { assert 2 in View1(w).open; }
    hide Less;
    var t, es := Taken(View1(w), 2), DetourSucc(w, 2);
    assert EnterAll(gr, true, t, 2, es, 1) == Enter(gr, true, t, 2, es[0]) == t;
    assert t.nodes == View2(w).nodes && t.open == View2(w).open;
  }

  lemma Round2(w: nat, v: View)
    requires FP_ONE <= w && CanRound(DetourGraph(w), true, w, View2(w), v)
    ensures v == View3(w)
  {
    var gr := DetourGraph(w);
    var s :| Round(gr, true, w, View2(w), v, s);
    Values(w);
    hide FPrime, Early, Tail;
    assert s == 1 by { assert 1 in View2(w).open; }
    hide Less;
    var t, es := Taken(View2(w), 1), DetourSucc(w, 1);
    assert EnterAll(gr, true, t, 1, es, 1) == Enter(gr, true, t, 1, es[0]);
    assert Enter(gr, true, t, 1, es[0]).nodes == View3(w).nodes;
    assert t.open == View3(w).open;
  }

  lemma NoRound3(w: nat, v: View)
    ensures !CanRound(DetourGraph(w), true, w, View3(w), v)
  {
  }

  /** Which lists a run on that graph can have come to. */
  lemma {:induction false} OnlyRun(w: nat, tr: seq<View>, i: nat)
    requires FP_ONE <= w && IsRun(DetourGraph(w), true, w, tr) && i < |tr|
    ensures i < 4 && tr[i] == [Start(DetourGraph(w)), View1(w), View2(w), View3(w)][i]
  {
    hide CanRound, View1, View2, View3, Start, DetourGraph;
    if i > 0 {
      OnlyRun(w, tr, i - 1);
      assert CanRound(DetourGraph(w), true, w, tr[i - 1], tr[(i - 1) + 1]);
      if i == 1 {
        Round0(w, tr[i]);
      } else if i == 2 {
        Round1(w, tr[i]);
      } else if i == 3 {
        Round2(w, tr[i]);
      } else {
        NoRound3(w, tr[i]);
      }
    }
  }

  /** For every weight there is an admissible heuristic with which the search that
      drops duplicates always exceeds the bound, in the recorded cost and in the
      true cost of the path that it returns. */
  lemma ReopeningNeeded(w: nat, tr: seq<View>, s: nat, path: seq<Node>)
    requires FP_ONE <= w && IsRun(DetourGraph(w), true, w, tr) && Finds(DetourGraph(w), w, tr, s, path)
    ensures DetourGraph(w).Admissible() && DetourGraph(w).IsSolution(0, BestWay(w))
    ensures path[0].g * FP_ONE > w * Cost(BestWay(w))
    ensures Cost(EdgesOf(path)) == path[0].g
  {
    hide View1, View2, View3, Start, DetourGraph, BestWay, Early, Tail, MayTake, Describes, CanRound;
    DetourIsAdmissible(w);
    BestWaySolves(w);
    var i := |tr| - 1;
    OnlyRun(w, tr, i);
    FoundGoal(w, tr[i], s, path);
    Exceeds(w);
  }

  lemma Exceeds(w: nat)
    requires FP_ONE <= w
    ensures (Early(w) + Tail(w)) * FP_ONE > w * (2 * FP_ONE + Tail(w))
  {
    assert w * (2 * FP_ONE + w * FP_ONE) == (2 * w + w * w) * FP_ONE;
    assert FP_ONE + w + w * w - 1 + w * FP_ONE > 2 * w + w * w;
  }

  lemma FoundGoal(w: nat, v: View, s: nat, path: seq<Node>)
    requires FP_ONE <= w && v in [Start(DetourGraph(w)), View1(w), View2(w), View3(w)]
    requires MayTake(w, v, s) && DetourGraph(w).goal(v.nodes[s].x) && Describes(Taken(v, s).nodes, s, path)
    ensures path != [] && path[0].g == Early(w) + Tail(w) && Cost(EdgesOf(path)) == path[0].g
  {
    GoalTaken(w, v, s);
    OneStepPath(Taken(v, 3).nodes, Early(w) + Tail(w), path);
  }

  lemma GoalTaken(w: nat, v: View, s: nat)
    requires FP_ONE <= w && v in [Start(DetourGraph(w)), View1(w), View2(w), View3(w)]
    requires MayTake(w, v, s) && DetourGraph(w).goal(v.nodes[s].x)
    ensures s == 3 && |v.nodes| == 4 && v.nodes[3] == GNode(w, true) && v.nodes[0] == RootNode(false)
  {
    Values(w);
    hide FPrime, Early, Tail, Less, DetourSucc;
  }

  lemma OneStepPath(nodes: seq<Node>, c: nat, path: seq<Node>)
    requires |nodes| == 4 && nodes[3] == Node(3, c, c, 0, Some(0), false) && nodes[0] == RootNode(false)
    requires Describes(nodes, 3, path)
    ensures path != [] && path[0].g == c && Cost(EdgesOf(path)) == c
  {
    var ch :| Chain(nodes, ch) && ch[|ch| - 1] == 3 && path == Copies(nodes, ch);
    assert Up(nodes, ch, |ch| - 1);
    forall i: nat | 0 < i < |ch| ensures ch[i] != 0 { assert Up(nodes, ch, i); }
    assert |ch| == 2;
    assert ch == [0, 3] && ch[..1] == [0] && ch[..1][..0] == [];
    assert Copies(nodes, [0]) == [nodes[0]] + Copies(nodes, []);
    assert path == [nodes[3], nodes[0]];
    var e := Edge(3, c);
    assert path[1..] == [nodes[0]] && EdgesOf(path[1..]) == [];
    assert EdgesOf(path) == [e];
    assert [e][1..] == [];
  }
}
