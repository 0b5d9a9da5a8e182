/** A* with a closed list, with or without the reopening of closed nodes. */
module AStarSearch {
  import opened FixedPoint
  import opened PriorityQueues
  import opened SearchGraphs
  import opened OpenLists
  import opened SearchNodes
  import opened DupDropping
  import opened AStarRuns

  class AStar {
    const gr: Graph
    const dd: bool   // drop duplicates: closed nodes are not opened again
    const open: PQOpenList
    ghost const states: set<nat>
    var nodes: seq<Node>
    var closed: map<nat, nat>

    ghost predicate Valid()
      reads this, open, open.pq, open.pq.heap
    {
      && open.order == ByFPrime && open.Valid(nodes)
      && NodesOk(gr, nodes, closed) && Rooted(nodes)
      && (forall n: nat :: n < |nodes| ==> (nodes[n].open <==> n in open.pq.Elems))
      && Finite(gr, states) && (forall n: nat :: n < |nodes| ==> nodes[n].x in states)
    }

    /** The state of the lists. */
    ghost function Lists(): View
      reads this, open, open.pq
    {
      View(nodes, closed, open.pq.Elems)
    }

    constructor (graph: Graph, dropDups: bool, weight: nat, ghost space: set<nat>)
      requires Finite(graph, space)
      ensures gr == graph && dd == dropDups && open.weight == weight && states == space
      ensures fresh(open) && fresh(open.pq) && fresh(open.pq.heap)
      ensures nodes == [Node(graph.init, 0, 0, graph.h(graph.init), None, false)] && closed == map[]
      ensures open.pq.Elems == {} && Valid()
    {
      gr := graph;
      dd := dropDups;
      open := new PQOpenList(ByFPrime, weight);
      states := space;
      nodes := [Node(graph.init, 0, 0, graph.h(graph.init), None, false)];
      closed := map[];
      new;
      open.KeysKept([], nodes);
      assert Chain(nodes, [0]) && [0][0] == 0;
      assert HasChain(nodes, 0);
    }

    /** A state that is met for the first time. */
    method AddNew(s: nat, e: Edge)
      requires Valid() && s < |nodes| && e in gr.succ(nodes[s].x) && e.to !in closed
      modifies this`nodes, this`closed, open`best, open.pq, open.pq.heap
      ensures Valid() && nodes == old(nodes) + [Child(gr, old(nodes), s, e)]
      ensures closed == old(closed)[e.to := |old(nodes)|] && open.pq.Elems == old(open.pq.Elems) + {|old(nodes)|}
      ensures open.pq.heap == old(open.pq.heap) || fresh(open.pq.heap)
    {
      hide PQOpenList.Valid, NodesOk, Rooted, Finite;
      FiniteNext(gr, states, nodes[s].x, e);
      AddKeeps(gr, nodes, closed, s, e);
      KeysInRange();
      ghost var was := nodes;
      closed := closed[e.to := |nodes|];
      nodes := nodes + [Child(gr, nodes, s, e)];
      open.KeysKept(was, nodes);
      open.Add(nodes, |nodes| - 1);
    }

    lemma KeysInRange()
      requires open.Valid(nodes)
      ensures forall n :: n in open.pq.Elems ==> n < |nodes|
    {
    }

    /** A better way to the known node `y`. */
    method Improve(s: nat, e: Edge, y: nat)
      requires Valid() && s < |nodes| && e in gr.succ(nodes[s].x) && e.to in closed && y == closed[e.to]
      requires nodes[s].g + e.cost < nodes[y].g
      modifies this`nodes, open`best, open.pq, open.pq.heap
      ensures Valid() && y < |old(nodes)| && nodes == Relinked(old(nodes), y, s, e, old(nodes)[y].open || !dd)
      ensures open.pq.Elems == if dd then old(open.pq.Elems) else old(open.pq.Elems) + {y}
      ensures open.pq.heap == old(open.pq.heap) || fresh(open.pq.heap)
    {
      assert 0 < y < |nodes| && nodes[y].x == e.to;
      hide PQOpenList.Valid, NodesOk, Rooted, Finite, Relinked;
      if nodes[y].open {
        ImproveOpen(s, e, y);
      } else {
        ImproveClosed(s, e, y);
      }
    }

    method ImproveOpen(s: nat, e: Edge, y: nat)
      requires Valid() && s < |nodes| && e in gr.succ(nodes[s].x) && 0 < y < |nodes| && nodes[y].x == e.to
      requires nodes[s].g + e.cost < nodes[y].g && nodes[y].open
      modifies this`nodes, open`best, open.pq, open.pq.heap
      ensures Valid() && nodes == Relinked(old(nodes), y, s, e, true)
      ensures open.pq.Elems == old(open.pq.Elems) && open.pq.heap == old(open.pq.heap)
    {
      hide PQOpenList.Valid, NodesOk, Rooted, Finite, Relinked, SameKeys;
      RelinkKeeps(gr, nodes, closed, y, s, e, true);
      RelinkFacts(nodes, y, s, e, true, open.pq.Elems);
      ghost var was := nodes;
      nodes := Relinked(nodes, y, s, e, true);
      open.SeeUpdate(nodes, y, was);
    }

    method ImproveClosed(s: nat, e: Edge, y: nat)
      requires Valid() && s < |nodes| && e in gr.succ(nodes[s].x) && 0 < y < |nodes| && nodes[y].x == e.to
      requires nodes[s].g + e.cost < nodes[y].g && !nodes[y].open
      modifies this`nodes, open`best, open.pq, open.pq.heap
      ensures Valid() && nodes == Relinked(old(nodes), y, s, e, !dd)
      ensures open.pq.Elems == if dd then old(open.pq.Elems) else old(open.pq.Elems) + {y}
      ensures open.pq.heap == old(open.pq.heap) || fresh(open.pq.heap)
    {
      hide PQOpenList.Valid, NodesOk, Rooted, Finite, Relinked, SameKeys;
      RelinkKeeps(gr, nodes, closed, y, s, e, !dd);
      RelinkFacts(nodes, y, s, e, !dd, open.pq.Elems);
      KeysInRange();
      ghost var was := nodes;
      nodes := Relinked(nodes, y, s, e, !dd);
      open.KeysKept(was, nodes);
      if !dd {
        open.Add(nodes, y);
      }
    }

    /** Treats the child that node `s` reaches along `e`. */
    method EnterChild(s: nat, e: Edge)
      requires Valid() && s < |nodes| && s !in open.pq.Elems && e in gr.succ(nodes[s].x) && ViewOk(Lists(), s)
      modifies this`nodes, this`closed, open`best, open.pq, open.pq.heap
      ensures Valid() && s < |old(nodes)| <= |nodes| && s !in open.pq.Elems && nodes[s] == old(nodes)[s]
      ensures Lists() == Enter(gr, dd, old(Lists()), s, e)
      ensures Learns(old(nodes), old(closed), nodes, closed, open.pq.Elems, !dd)
      ensures old(open.pq.Elems) <= open.pq.Elems && forall n: nat :: |old(nodes)| <= n < |nodes| ==> n in open.pq.Elems
      ensures Reached(nodes, closed, s, e, true)
      ensures open.pq.heap == old(open.pq.heap) || fresh(open.pq.heap)
      ensures Shrinks(old(nodes), old(closed), old(open.pq.Elems), nodes, closed, open.pq.Elems)
    {
      hide PQOpenList.Valid, Rooted, Finite, NodesOk, Learns, Shrinks, Reached, Relinked, Child, SumG;
      KeysInRange();
      if e.to in closed {
        var y := closed[e.to];
        ClosedNode(gr, nodes, closed, e.to);
        if nodes[s].g + e.cost < nodes[y].g {
          ImproveFacts(nodes, closed, s, e, y, nodes[y].open || !dd, open.pq.Elems, if dd then open.pq.Elems else open.pq.Elems + {y}, !dd);
          Improve(s, e, y);
        } else {
          KnownFacts(nodes, closed, s, e, open.pq.Elems, !dd);
        }
      } else {
        AddFacts(gr, nodes, closed, s, e, open.pq.Elems, open.pq.Elems + {|nodes|}, !dd);
        AddNew(s, e);
      }
    }

    method OpenRoot()
      requires Valid() && closed == map[] && open.pq.Elems == {}
      requires nodes == [Node(gr.init, 0, 0, gr.h(gr.init), None, false)]
      modifies this`nodes, open`best, open.pq, open.pq.heap
      ensures Valid() && open.pq.Elems == {0} && |nodes| == 1 && closed == old(closed)
      ensures Lists() == Start(gr)
      ensures open.pq.heap == old(open.pq.heap) || fresh(open.pq.heap)
    {
      hide PQOpenList.Valid, Rooted, Finite, NodesOk;
      RaiseFlag(0, true);
      nodes := nodes[0 := nodes[0].(open := true)];
      open.Add(nodes, 0);
    }

    /** Takes the node with the least f'. */
    method TakeNext() returns (s: nat)
      requires Valid() && open.pq.Elems != {}
      modifies this`nodes, open`best, open.pq, open.pq.heap
      ensures Valid() && s in old(open.pq.Elems) && open.pq.Elems == old(open.pq.Elems) - {s}
      ensures s < |nodes| == |old(nodes)| && nodes == old(nodes)[s := old(nodes)[s].(open := false)]
      ensures forall m :: m in old(open.pq.Elems) ==> m < |nodes| && Value(s) <= Value(m)
      ensures MayTake(open.weight, old(Lists()), s) && Lists() == Taken(old(Lists()), s)
      ensures open.pq.heap == old(open.pq.heap) || fresh(open.pq.heap)
    {
      hide PQOpenList.Valid, Rooted, Finite, NodesOk;
      KeysInRange();
      s := open.Take(nodes);
      RaiseFlag(s, false);
      nodes := nodes[s := nodes[s].(open := false)];
    }

    /** The flag of a node is in no key and no link. */
    lemma RaiseFlag(n: nat, b: bool)
      requires n < |nodes| && open.Valid(nodes) && NodesOk(gr, nodes, closed) && Rooted(nodes)
      ensures open.Valid(nodes[n := nodes[n].(open := b)])
      ensures NodesOk(gr, nodes[n := nodes[n].(open := b)], closed) && Rooted(nodes[n := nodes[n].(open := b)])
    {
      FlagKeeps(gr, nodes, closed, n, b);
      open.KeysKept(nodes, nodes[n := nodes[n].(open := b)]);
    }

    function Value(n: nat): nat
      requires n < |nodes|
      reads this
    {
      FPrime(open.weight, nodes[n].g, nodes[n].h)
    }

    lemma Bounded()
      requires Valid()
      ensures |closed| <= |states|
    {
      assert closed.Keys <= states;
      SubsetSize(closed.Keys, states);
    }

    /** An empty open list means that there is no solution. */
    lemma NoneLeft()
      requires Valid() && open.pq.Elems == {} && Closed(gr, nodes, closed, {}, None, !dd) && GoalsPaid(gr, nodes, {}, None)
      ensures forall q :: !gr.IsSolution(gr.init, q)
    {
      assert NodeOk(gr, nodes, closed, 0);
      forall q ensures !gr.IsSolution(gr.init, q) {
        if gr.IsSolution(gr.init, q) {
          var m, r := Frontier(gr, nodes, closed, {}, !dd, 0, q);
          assert false;
        }
      }
    }

    /** The first goal that is taken costs at most the weight times the cheapest solution. */
    lemma GoalIsCheap(was: seq<Node>, openWas: set<nat>, s: nat)
      requires Valid() && !dd && gr.Admissible() && FP_ONE <= open.weight && NodesOk(gr, was, closed)
      requires Closed(gr, was, closed, openWas, None, true) && GoalsPaid(gr, was, openWas, None)
      requires s in openWas && s < |was| && nodes == was[s := was[s].(open := false)]
      requires forall m :: m in openWas ==> m < |nodes| && Value(s) <= Value(m)
      ensures forall q :: gr.IsSolution(gr.init, q) ==> nodes[s].g * FP_ONE <= open.weight * Cost(q)
    {
      hide FPrime, Graph.Admissible, Expanded;
      forall q | gr.IsSolution(gr.init, q) ensures nodes[s].g * FP_ONE <= open.weight * Cost(q) {
        assert NodeOk(gr, was, closed, 0);
        var m, r := Frontier(gr, was, closed, openWas, true, 0, q);
        assert NodeOk(gr, was, closed, m);
        CheapEnough(gr, open.weight, nodes[s], was[m], r, Cost(q));
      }
    }

    /** Expands node `s`, which has just been taken. */
    method Expand(s: nat)
      requires Valid() && s < |nodes| && s !in open.pq.Elems && !gr.goal(nodes[s].x) && ViewOk(Lists(), s)
      requires Closed(gr, nodes, closed, open.pq.Elems, Some(s), !dd) && GoalsPaid(gr, nodes, open.pq.Elems, None)
      modifies this`nodes, this`closed, open`best, open.pq, open.pq.heap
      ensures Valid() && Closed(gr, nodes, closed, open.pq.Elems, None, !dd) && GoalsPaid(gr, nodes, open.pq.Elems, None)
      ensures var es := gr.succ(old(nodes)[s].x); Lists() == EnterAll(gr, dd, old(Lists()), s, es, |es|)
      ensures Grew(old(Lists()), Lists(), s) && Learns(old(nodes), old(closed), nodes, closed, open.pq.Elems, !dd)
      ensures forall e :: e in gr.succ(old(nodes)[s].x) ==> Reached(nodes, closed, s, e, true)
      ensures open.pq.heap == old(open.pq.heap) || fresh(open.pq.heap)
      ensures Shrinks(old(nodes), old(closed), old(open.pq.Elems), nodes, closed, open.pq.Elems)
    {
      hide PQOpenList.Valid, Rooted, Finite, NodesOk, Reached, Shrinks, Closed, GoalsPaid, Expanded, SumG, Learns, Enter, EnterAll;
      var children := gr.succ(nodes[s].x);
      ghost var was, closedWas, openWas, lists := nodes, closed, open.pq.Elems, Lists();
      LearnsNothing(nodes, closed, open.pq.Elems, !dd);
      ShrinksNothing(nodes, closed, open.pq.Elems);
      EnterNone(gr, dd, lists, s, children);
      for i := 0 to |children|
        invariant Valid() && s < |was| <= |nodes| && s !in open.pq.Elems && nodes[s] == was[s]
        invariant Lists() == EnterAll(gr, dd, lists, s, children, i)
        invariant Learns(was, closedWas, nodes, closed, open.pq.Elems, !dd)
        invariant openWas <= open.pq.Elems && forall n: nat :: |was| <= n < |nodes| ==> n in open.pq.Elems
        invariant forall j: nat :: j < i ==> Reached(nodes, closed, s, children[j], true)
        invariant open.pq.heap == old(open.pq.heap) || fresh(open.pq.heap)
        invariant Shrinks(was, closedWas, openWas, nodes, closed, open.pq.Elems)
      {
        ghost var mid, closedMid, openMid := nodes, closed, open.pq.Elems;
        EnterNext(gr, dd, lists, s, children, i);
        EnterChild(s, children[i]);
        forall j: nat | j < i ensures Reached(nodes, closed, s, children[j], true) {
          ReachedKept(mid, closedMid, nodes, closed, open.pq.Elems, !dd, s, children[j]);
        }
        LearnsMore(was, closedWas, mid, closedMid, openMid, nodes, closed, open.pq.Elems, !dd);
        ShrinksMore(was, closedWas, openWas, mid, closedMid, openMid, nodes, closed, open.pq.Elems);
      }
      AllReached(gr, nodes, closed, s, children, !dd);
      ClosedKept(gr, was, closedWas, openWas, nodes, closed, open.pq.Elems, s, !dd);
      GoalsKept(gr, was, closedWas, openWas, nodes, closed, open.pq.Elems, None, !dd);
    }

    /** Whether the cost bound holds: nodes are opened again, or never have to be. */
    ghost predicate Sound() {
      FP_ONE <= open.weight && gr.Admissible() && (!dd || gr.Consistent())
    }

    /** What holds of the lists between the rounds. */
    ghost predicate RoundOk(v: View) {
      && NodesOk(gr, v.nodes, v.closed)
      && Closed(gr, v.nodes, v.closed, v.open, None, !dd) && GoalsPaid(gr, v.nodes, v.open, None)
      && (dd && Sound() ==> AllKnown(gr, open.weight, v.nodes, v.closed, v.open, None))
    }

    lemma GoalIsSound(v: View, s: nat)
      requires Sound() && RoundOk(v) && MayTake(open.weight, v, s)
      requires Valid() && nodes == Taken(v, s).nodes && closed == v.closed
      ensures forall q :: gr.IsSolution(gr.init, q) ==> nodes[s].g * FP_ONE <= open.weight * Cost(q)
    {
      hide NodesOk, Closed, GoalsPaid, AllKnown, Graph.Admissible;
      if dd {
        forall q | gr.IsSolution(gr.init, q) ensures nodes[s].g * FP_ONE <= open.weight * Cost(q) {
          GoalWithin(gr, open.weight, v.nodes, v.closed, v.open, s, q);
        }
      } else {
        GoalIsCheap(v.nodes, v.open, s);
      }
    }

    lemma RoundKeepsKnown(v: View, t: View, s: nat)
      requires dd && Sound() && NodesOk(gr, v.nodes, v.closed) && MayTake(open.weight, v, s) && !gr.goal(v.nodes[s].x)
      requires AllKnown(gr, open.weight, v.nodes, v.closed, v.open, None) && GoalsPaid(gr, v.nodes, v.open, None)
      requires t == Taken(v, s) && Grew(t, Lists(), s)
      requires Learns(t.nodes, t.closed, nodes, closed, open.pq.Elems, false)
      requires forall e :: e in gr.succ(v.nodes[s].x) ==> Reached(nodes, closed, s, e, true)
      ensures AllKnown(gr, open.weight, nodes, closed, open.pq.Elems, None)
    {
      assert Learns(v.nodes, v.closed, nodes, closed, open.pq.Elems, false);
      hide NodesOk, GoalsPaid, AllKnown, Graph.Admissible, Learns, Reached, Less;
      ExpansionIsKnown(gr, open.weight, v.nodes, v.closed, v.open, s, nodes, closed, open.pq.Elems);
      RoundKnows(gr, open.weight, v.nodes, v.closed, v.open, s, nodes, closed, open.pq.Elems);
    }

    /** The rest of a round in which `s` was taken from the lists `v` and is no goal. */
    method Advance(s: nat, ghost v: View)
      requires Valid() && RoundOk(v) && MayTake(open.weight, v, s) && Lists() == Taken(v, s) && !gr.goal(nodes[s].x)
      modifies this`nodes, this`closed, open`best, open.pq, open.pq.heap
      ensures Valid() && RoundOk(Lists()) && CanRound(gr, dd, open.weight, v, Lists())
      ensures open.pq.heap == old(open.pq.heap) || fresh(open.pq.heap)
      ensures Shrinks(old(nodes), old(closed), old(open.pq.Elems), nodes, closed, open.pq.Elems)
    {
      hide PQOpenList.Valid, Rooted, Finite, NodesOk, Closed, GoalsPaid, AllKnown, EnterAll;
      hide Graph.Admissible, Graph.Consistent, Less, Learns, Reached, Shrinks;
      FlagClosed(gr, v.nodes, nodes, closed, v.open, s, !dd);
      NoGoalTaken(gr, v.nodes, nodes, v.open, s);
      IndicesOk(s);
      Expand(s);
      if dd && Sound() { RoundKeepsKnown(v, Taken(v, s), s); }
      assert Round(gr, dd, open.weight, v, Lists(), s);
    }

    /** The end of the search, when the goal node `s` was taken from the last lists of `tr`. */
    method Finish(s: nat, ghost tr: seq<View>) returns (path: seq<Node>)
      requires Valid() && tr != [] && RoundOk(tr[|tr| - 1]) && MayTake(open.weight, tr[|tr| - 1], s)
      requires Lists() == Taken(tr[|tr| - 1], s) && gr.goal(nodes[s].x)
      ensures Finds(gr, open.weight, tr, s, path) && PathOf(gr, path) && gr.goal(path[0].x)
      ensures Sound() ==> forall q :: gr.IsSolution(gr.init, q) ==> path[0].g * FP_ONE <= open.weight * Cost(q)
    {
      if Sound() { GoalIsSound(tr[|tr| - 1], s); }
      hide PQOpenList.Valid, Rooted, Finite, NodesOk, PathOf, Sound, RoundOk, Describes, Less;
      path := GetPath(gr, nodes, closed, s);
    }

    lemma FirstRound()
      requires Valid() && Lists() == Start(gr)
      ensures RoundOk(Lists()) && IsRun(gr, dd, open.weight, [Lists()])
    {
      OnlyRoot(gr, nodes, closed, !dd);
      RootKnown(gr, open.weight, nodes, closed);
      RunStarts(gr, dd, open.weight);
    }

    lemma NothingFound()
      requires Valid() && RoundOk(Lists()) && open.pq.Elems == {}
      ensures forall q :: !gr.IsSolution(gr.init, q)
    {
      NoneLeft();
    }

    /** One round of the loop: a goal is taken, or another node is expanded. */
    method OneRound(ghost tr: seq<View>) returns (path: Option<seq<Node>>, ghost tr': seq<View>)
      requires Valid() && open.pq.Elems != {} && RoundOk(Lists())
      requires IsRun(gr, dd, open.weight, tr) && tr != [] && tr[|tr| - 1] == Lists()
      modifies this`nodes, this`closed, open`best, open.pq, open.pq.heap
      ensures IsRun(gr, dd, open.weight, tr') && tr' != []
      ensures path.Some? ==> PathOf(gr, path.value) && gr.goal(path.value[0].x)
      ensures path.Some? ==> exists s :: Finds(gr, open.weight, tr', s, path.value)
      ensures path.Some? && Sound() ==>
                forall q :: gr.IsSolution(gr.init, q) ==> path.value[0].g * FP_ONE <= open.weight * Cost(q)
      ensures path.None? ==> Valid() && RoundOk(Lists()) && tr'[|tr'| - 1] == Lists()
      ensures path.None? ==>
                || |closed| > |old(closed)|
                || (|closed| == |old(closed)| && SumG(nodes) < SumG(old(nodes)))
                || (|closed| == |old(closed)| && SumG(nodes) == SumG(old(nodes))
                    && |open.pq.Elems| < |old(open.pq.Elems)|)
      ensures open.pq.heap == old(open.pq.heap) || fresh(open.pq.heap)
    {
      hide PQOpenList.Valid, Rooted, Finite, NodesOk, PathOf, IsRun, RoundOk, Finds, MayTake, CanRound;
      hide Graph.Admissible, Graph.Consistent, Sound, AStar.Valid, SumG;
      ghost var was, lists := nodes, Lists();
      var s := TakeNext();
      SumSame(was, nodes);
      if gr.goal(nodes[s].x) {
        var p := Finish(s, tr);
        path, tr' := Some(p), tr;
      } else {
        Advance(s, lists);
        RunGrows(gr, dd, open.weight, tr, Lists());
        path, tr' := None, tr + [Lists()];
      }
    }

    /** The search: `None` means that no solution exists.  `tr` records the lists
        before each round. */
    method Search() returns (path: Option<seq<Node>>, ghost tr: seq<View>)
      requires Valid() && closed == map[] && open.pq.Elems == {}
      requires nodes == [Node(gr.init, 0, 0, gr.h(gr.init), None, false)]
      modifies this`nodes, this`closed, open`best, open.pq, open.pq.heap
      ensures IsRun(gr, dd, open.weight, tr)
      ensures path.Some? ==> exists s :: Finds(gr, open.weight, tr, s, path.value)
      ensures path.Some? ==> PathOf(gr, path.value) && gr.goal(path.value[0].x)
      ensures path.None? ==> tr[|tr| - 1].open == {} && forall q :: !gr.IsSolution(gr.init, q)
      ensures path.Some? && FP_ONE <= open.weight && gr.Admissible() && (!dd || gr.Consistent()) ==>
                forall q :: gr.IsSolution(gr.init, q) ==> path.value[0].g * FP_ONE <= open.weight * Cost(q)
    {
      hide PQOpenList.Valid, Rooted, Finite, NodesOk, PathOf, IsRun, RoundOk, Finds, MayTake, CanRound;
      hide Graph.Admissible, Graph.Consistent, AStar.Valid, SumG, PQOpenList.Empty;
      OpenRoot();
      FirstRound();
      path := None;
      tr := [Lists()];
      EmptyMeans();
      while !open.Empty()
        invariant Valid() && RoundOk(Lists()) && IsRun(gr, dd, open.weight, tr)
        invariant tr != [] && tr[|tr| - 1] == Lists() && path.None?
        invariant open.pq.heap == old(open.pq.heap) || fresh(open.pq.heap)
        decreases |states| - |closed|, SumG(nodes), |open.pq.Elems|
      {
        EmptyMeans();
        path, tr := OneRound(tr);
        if path.Some? {
          return;
        }
        Bounded();
      }
      EmptyMeans();
      NothingFound();
    }

    lemma EmptyMeans()
      requires Valid()
      ensures open.Empty() <==> open.pq.Elems == {}
    {
      open.EmptyMeans(nodes);
    }

    lemma IndicesOk(s: nat)
      requires NodesOk(gr, nodes, closed) && s < |nodes|
      ensures ViewOk(Lists(), s)
    {
    }
  }

  /** The search stops at the first goal that it takes, so none is closed. */
  lemma NoGoalTaken(gr: Graph, was: seq<Node>, now: seq<Node>, open: set<nat>, s: nat)
    requires GoalsPaid(gr, was, open, None) && s < |was| && now == was[s := was[s].(open := false)] && !gr.goal(was[s].x)
    ensures GoalsPaid(gr, now, open - {s}, None)
  {
  }

  /** Expanding `s` adds open nodes and leaves `s` as it was. */
  ghost predicate Grew(v: View, v': View, s: nat) {
    && s < |v.nodes| <= |v'.nodes| && v'.nodes[s] == v.nodes[s]
    && v.open <= v'.open && forall n: nat :: |v.nodes| <= n < |v'.nodes| ==> n in v'.open
  }
}
