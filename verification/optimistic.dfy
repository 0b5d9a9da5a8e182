/** Optimistic search: a greedy queue finds solutions, a careful one proves them good enough. */
module OptimisticSearch {
  import opened FixedPoint
  import opened PriorityQueues
  import opened SearchGraphs
  import opened OpenLists
  import opened SearchNodes

  /** A fixed-point value as a plain number. */
  function Double(v: nat): real { v as real / FP_ONE as real }

  class Optimistic {
    const gr: Graph
    const bound: real
    const openFp: PQOpenList   // by f'
    const openF: PQOpenList    // by f, in use once there is an incumbent
    ghost const states: set<nat>
    var nodes: seq<Node>
    var closed: map<nat, nat>
    var incumbent: Option<seq<Node>>
    var incumbentCost: real

    /** The queues are separate objects. */
    ghost predicate Apart()
      reads openFp, openF, openFp.pq, openF.pq
    {
      openFp != openF && openFp.pq != openF.pq && openFp.pq.heap != openF.pq.heap
    }

    ghost predicate Valid()
      reads this, openFp, openF, openFp.pq, openF.pq, openFp.pq.heap, openF.pq.heap
    {
      && Apart() && Queues(nodes) && Space()
    }

    /** After the first incumbent both queues hold the same nodes. */
    ghost predicate Queues(nodes: seq<Node>)
      reads this`incumbent, openFp, openF, openFp.pq, openF.pq, openFp.pq.heap, openF.pq.heap
    {
      && openFp.order == ByFPrime && openF.order == ByF && openFp.Valid(nodes) && openF.Valid(nodes)
      && openF.pq.Elems == if incumbent.Some? then openFp.pq.Elems else {}
    }

    ghost predicate Space()
      reads this`nodes, this`closed, openFp.pq
    {
      && NodesOk(gr, nodes, closed) && Rooted(nodes)
      && (forall n: nat :: n < |nodes| ==> (nodes[n].open <==> n in openFp.pq.Elems))
      && Finite(gr, states) && (forall n: nat :: n < |nodes| ==> nodes[n].x in states)
    }

    /** The fixed-point cost of the incumbent. */
    ghost function Paid(): Option<nat>
      reads this`incumbent
    {
      if incumbent.Some? && incumbent.value != [] then Some(incumbent.value[0].g) else None
    }

    ghost predicate Good()
      reads this`incumbent, this`incumbentCost
    {
      incumbent.Some? ==> PathOf(gr, incumbent.value) && gr.goal(incumbent.value[0].x)
                          && incumbentCost == Double(incumbent.value[0].g)
    }

    constructor (graph: Graph, b: real, weight: nat, ghost space: set<nat>)
      requires Finite(graph, space)
      ensures gr == graph && bound == b && states == space && incumbent.None? && closed == map[]
      ensures openFp.weight == weight
      ensures fresh(openFp) && fresh(openF) && fresh(openFp.pq) && fresh(openF.pq) && fresh(openFp.pq.heap) && fresh(openF.pq.heap)
      ensures |nodes| == 1 && openFp.pq.Elems == {} && Valid()
    {
      gr := graph;
      bound := b;
      openFp := new PQOpenList(ByFPrime, weight);
      openF := new PQOpenList(ByF, weight);
      states := space;
      nodes := [Node(graph.init, 0, 0, graph.h(graph.init), None, false)];
      closed := map[];
      incumbent := None;
      incumbentCost := 0.0;
      new;
      openFp.KeysKept([], nodes);
      openF.KeysKept([], nodes);
      assert Chain(nodes, [0]) && [0][0] == 0;
      assert HasChain(nodes, 0);
    }

    /** Adds a node to the queues that are in use. */
    method OpenAddNode(n: nat)
      requires Apart() && Queues(nodes) && n < |nodes| && n !in openFp.pq.Elems
      modifies openFp`best, openF`best, openFp.pq, openF.pq, openFp.pq.heap, openF.pq.heap
      ensures Apart() && Queues(nodes) && openFp.pq.Elems == old(openFp.pq.Elems) + {n}
      ensures openFp.pq.heap == old(openFp.pq.heap) || fresh(openFp.pq.heap)
      ensures openF.pq.heap == old(openF.pq.heap) || fresh(openF.pq.heap)
    {
      hide PQOpenList.Valid;
      if incumbent.Some? {
        openF.Add(nodes, n);
      }
      openFp.Add(nodes, n);
    }

    method OpenSeeUpdate(n: nat, ghost was: seq<Node>)
      requires Apart() && Queues(was) && n in openFp.pq.Elems && SameKeys(was, nodes, openFp.pq.Elems - {n})
      modifies openFp`best, openF`best, openFp.pq, openF.pq, openFp.pq.heap, openF.pq.heap
      ensures Apart() && Queues(nodes) && openFp.pq.Elems == old(openFp.pq.Elems)
      ensures openFp.pq.heap == old(openFp.pq.heap) && openF.pq.heap == old(openF.pq.heap)
    {
      hide PQOpenList.Valid, SameKeys, F, FPrime;
      QueuesOf(was);
      KeptEmpty(was, n);
      if incumbent.Some? {
        openF.SeeUpdate(nodes, n, was);
      }
      openFp.SeeUpdate(nodes, n, was);
    }

    lemma QueuesOf(was: seq<Node>)
      requires Queues(was)
      ensures openFp.Valid(was) && openF.Valid(was) && openFp.order == ByFPrime && openF.order == ByF
      ensures openF.pq.Elems == if incumbent.Some? then openFp.pq.Elems else {}
    {
    }

    lemma KeptEmpty(was: seq<Node>, n: nat)
      requires openF.Valid(was) && SameKeys(was, nodes, openFp.pq.Elems - {n})
      ensures openF.pq.Elems == {} ==> openF.Valid(nodes)
    {
      if openF.pq.Elems == {} { openF.KeysKept(was, nodes); }
    }

    lemma KeysInRange()
      requires Queues(nodes)
      ensures forall n :: n in openFp.pq.Elems ==> n < |nodes|
      ensures openF.pq.Elems <= openFp.pq.Elems
    {
    }

    lemma BothKept(was: seq<Node>, now: seq<Node>)
      requires Queues(was) && SameKeys(was, now, openFp.pq.Elems)
      ensures Queues(now)
    {
      openFp.KeysKept(was, now);
      openF.KeysKept(was, now);
    }

    /** A state that is met for the first time. */
    method AddNew(s: nat, e: Edge)
      requires Valid() && s < |nodes| && e in gr.succ(nodes[s].x) && e.to !in closed
      modifies this`nodes, this`closed, openFp`best, openF`best, openFp.pq, openF.pq, openFp.pq.heap, openF.pq.heap
      ensures Valid() && nodes == old(nodes) + [Child(gr, old(nodes), s, e)]
      ensures closed == old(closed)[e.to := |old(nodes)|] && openFp.pq.Elems == old(openFp.pq.Elems) + {|old(nodes)|}
      ensures openFp.pq.heap == old(openFp.pq.heap) || fresh(openFp.pq.heap)
      ensures openF.pq.heap == old(openF.pq.heap) || fresh(openF.pq.heap)
    {
      hide PQOpenList.Valid, NodesOk, Rooted, Finite, Queues;
      FiniteNext(gr, states, nodes[s].x, e);
      AddKeeps(gr, nodes, closed, s, e);
      KeysInRange();
      ghost var was := nodes;
      closed := closed[e.to := |nodes|];
      nodes := nodes + [Child(gr, nodes, s, e)];
      BothKept(was, nodes);
      OpenAddNode(|nodes| - 1);
    }

    /** A better way to the known node `y`. */
    method Improve(s: nat, e: Edge, y: nat)
      requires Valid() && s < |nodes| && e in gr.succ(nodes[s].x) && e.to in closed && y == closed[e.to]
      requires nodes[s].g + e.cost < nodes[y].g
      modifies this`nodes, openFp`best, openF`best, openFp.pq, openF.pq, openFp.pq.heap, openF.pq.heap
      ensures Valid() && y < |old(nodes)| && nodes == Relinked(old(nodes), y, s, e, true)
      ensures openFp.pq.Elems == old(openFp.pq.Elems) + {y}
      ensures openFp.pq.heap == old(openFp.pq.heap) || fresh(openFp.pq.heap)
      ensures openF.pq.heap == old(openF.pq.heap) || fresh(openF.pq.heap)
    {
      assert 0 < y < |nodes| && nodes[y].x == e.to;
      hide PQOpenList.Valid, NodesOk, Rooted, Finite, Relinked, Queues;
      if nodes[y].open {
        ImproveOpen(s, e, y);
      } else {
        ImproveClosed(s, e, y);
      }
    }

    method ImproveOpen(s: nat, e: Edge, y: nat)
      requires Valid() && s < |nodes| && e in gr.succ(nodes[s].x) && 0 < y < |nodes| && nodes[y].x == e.to
      requires nodes[s].g + e.cost < nodes[y].g && nodes[y].open
      modifies this`nodes, openFp`best, openF`best, openFp.pq, openF.pq, openFp.pq.heap, openF.pq.heap
      ensures Valid() && nodes == Relinked(old(nodes), y, s, e, true) && openFp.pq.Elems == old(openFp.pq.Elems)
      ensures openFp.pq.heap == old(openFp.pq.heap) && openF.pq.heap == old(openF.pq.heap)
    {
      hide PQOpenList.Valid, NodesOk, Rooted, Finite, Relinked, SameKeys, Queues;
      RelinkKeeps(gr, nodes, closed, y, s, e, true);
      RelinkFacts(nodes, y, s, e, true, openFp.pq.Elems);
      ghost var was := nodes;
      nodes := Relinked(nodes, y, s, e, true);
      OpenSeeUpdate(y, was);
    }

    method ImproveClosed(s: nat, e: Edge, y: nat)
      requires Valid() && s < |nodes| && e in gr.succ(nodes[s].x) && 0 < y < |nodes| && nodes[y].x == e.to
      requires nodes[s].g + e.cost < nodes[y].g && !nodes[y].open
      modifies this`nodes, openFp`best, openF`best, openFp.pq, openF.pq, openFp.pq.heap, openF.pq.heap
      ensures Valid() && nodes == Relinked(old(nodes), y, s, e, true) && openFp.pq.Elems == old(openFp.pq.Elems) + {y}
      ensures openFp.pq.heap == old(openFp.pq.heap) || fresh(openFp.pq.heap)
      ensures openF.pq.heap == old(openF.pq.heap) || fresh(openF.pq.heap)
    {
      hide PQOpenList.Valid, NodesOk, Rooted, Finite, Relinked, SameKeys, Queues;
      RelinkKeeps(gr, nodes, closed, y, s, e, true);
      RelinkFacts(nodes, y, s, e, true, openFp.pq.Elems);
      ghost var was := nodes;
      nodes := Relinked(nodes, y, s, e, true);
      BothKept(was, nodes);
      OpenAddNode(y);
    }

    /** Treats the child that node `s` reaches along `e`. */
    method EnterChild(s: nat, e: Edge)
      requires Valid() && s < |nodes| && s !in openFp.pq.Elems && e in gr.succ(nodes[s].x)
      modifies this`nodes, this`closed, openFp`best, openF`best, openFp.pq, openF.pq, openFp.pq.heap, openF.pq.heap
      ensures Valid() && s < |nodes| && s !in openFp.pq.Elems && nodes[s] == old(nodes)[s]
      ensures Learns(old(nodes), old(closed), nodes, closed, openFp.pq.Elems, true)
      ensures old(openFp.pq.Elems) <= openFp.pq.Elems && forall n: nat :: |old(nodes)| <= n < |nodes| ==> n in openFp.pq.Elems
      ensures Reached(nodes, closed, s, e, true)
      ensures openFp.pq.heap == old(openFp.pq.heap) || fresh(openFp.pq.heap)
      ensures openF.pq.heap == old(openF.pq.heap) || fresh(openF.pq.heap)
      ensures Shrinks(old(nodes), old(closed), old(openFp.pq.Elems), nodes, closed, openFp.pq.Elems)
    {
      hide PQOpenList.Valid, Rooted, Finite, NodesOk, Learns, Shrinks, Reached, Relinked, Child, SumG, Queues, Apart;
      KeysInRange();
      if e.to in closed {
        var y := closed[e.to];
        ClosedNode(gr, nodes, closed, e.to);
        if nodes[s].g + e.cost < nodes[y].g {
          ImproveFacts(nodes, closed, s, e, y, true, openFp.pq.Elems, openFp.pq.Elems + {y}, true);
          Improve(s, e, y);
        } else {
          KnownFacts(nodes, closed, s, e, openFp.pq.Elems, true);
        }
      } else {
        AddFacts(gr, nodes, closed, s, e, openFp.pq.Elems, openFp.pq.Elems + {|nodes|}, true);
        AddNew(s, e);
      }
    }

    /** Expands node `s`, which has just been taken. */
    method Expand(s: nat)
      requires Valid() && s < |nodes| && s !in openFp.pq.Elems
      requires Closed(gr, nodes, closed, openFp.pq.Elems, Some(s), true) && GoalsPaid(gr, nodes, openFp.pq.Elems, Paid())
      modifies this`nodes, this`closed, openFp`best, openF`best, openFp.pq, openF.pq, openFp.pq.heap, openF.pq.heap
      ensures Valid() && Closed(gr, nodes, closed, openFp.pq.Elems, None, true) && GoalsPaid(gr, nodes, openFp.pq.Elems, Paid())
      ensures openFp.pq.heap == old(openFp.pq.heap) || fresh(openFp.pq.heap)
      ensures openF.pq.heap == old(openF.pq.heap) || fresh(openF.pq.heap)
      ensures Shrinks(old(nodes), old(closed), old(openFp.pq.Elems), nodes, closed, openFp.pq.Elems)
    {
      hide PQOpenList.Valid, Rooted, Finite, NodesOk, Reached, Shrinks, Closed, GoalsPaid, Expanded, SumG, Learns, Apart, Space, Queues;
      var children := gr.succ(nodes[s].x);
      ghost var was, closedWas, openWas := nodes, closed, openFp.pq.Elems;
      LearnsNothing(nodes, closed, openFp.pq.Elems, true);
      ShrinksNothing(nodes, closed, openFp.pq.Elems);
      for i := 0 to |children|
        invariant Valid() && s < |nodes| && s !in openFp.pq.Elems && nodes[s] == was[s]
        invariant Learns(was, closedWas, nodes, closed, openFp.pq.Elems, true)
        invariant openWas <= openFp.pq.Elems && forall n: nat :: |was| <= n < |nodes| ==> n in openFp.pq.Elems
        invariant forall j: nat :: j < i ==> Reached(nodes, closed, s, children[j], true)
        invariant openFp.pq.heap == old(openFp.pq.heap) || fresh(openFp.pq.heap)
        invariant openF.pq.heap == old(openF.pq.heap) || fresh(openF.pq.heap)
        invariant Shrinks(was, closedWas, openWas, nodes, closed, openFp.pq.Elems)
      {
        ghost var mid, closedMid, openMid := nodes, closed, openFp.pq.Elems;
        EnterChild(s, children[i]);
        forall j: nat | j < i ensures Reached(nodes, closed, s, children[j], true) {
          ReachedKept(mid, closedMid, nodes, closed, openFp.pq.Elems, true, s, children[j]);
        }
        LearnsMore(was, closedWas, mid, closedMid, openMid, nodes, closed, openFp.pq.Elems, true);
        ShrinksMore(was, closedWas, openWas, mid, closedMid, openMid, nodes, closed, openFp.pq.Elems);
      }
      AllReached(gr, nodes, closed, s, children, true);
      ClosedKept(gr, was, closedWas, openWas, nodes, closed, openFp.pq.Elems, s, true);
      GoalsKept(gr, was, closedWas, openWas, nodes, closed, openFp.pq.Elems, Paid(), true);
    }

    // ----- the two queues -----

    /** Takes the next node off the queues.  Before the first solution the greedy
        queue decides; after it, the greedy queue only if its best value beats the
        incumbent's cost, compared in the program's mixed units. */
    method TakeFromQueues() returns (s: nat)
      requires Apart() && Queues(nodes) && openFp.pq.Elems != {}
      modifies openFp`best, openF`best, openFp.pq, openF.pq, openFp.pq.heap, openF.pq.heap
      ensures Apart() && Queues(nodes) && s < |nodes| && s in old(openFp.pq.Elems)
      ensures openFp.pq.Elems == old(openFp.pq.Elems) - {s}
      ensures incumbent.Some? ==>
                FPrime(openFp.weight, nodes[s].g, nodes[s].h) as real < incumbentCost
                || F(nodes[s].g, nodes[s].h) == old(openF.best)
      ensures incumbent.None? || old(openFp.best) as real < incumbentCost ==>
                forall m :: m in old(openFp.pq.Elems) ==>
                  && m < |nodes|
                  && FPrime(openFp.weight, nodes[s].g, nodes[s].h) <= FPrime(openFp.weight, nodes[m].g, nodes[m].h)
                  && (FPrime(openFp.weight, nodes[s].g, nodes[s].h) == FPrime(openFp.weight, nodes[m].g, nodes[m].h) ==>
                        nodes[s].g + nodes[s].h <= nodes[m].g + nodes[m].h)
      ensures incumbent.Some? && old(openFp.best) as real >= incumbentCost ==>
                forall m :: m in old(openFp.pq.Elems) ==>
                  m < |nodes| && nodes[s].g + nodes[s].h <= nodes[m].g + nodes[m].h
      ensures openFp.pq.heap == old(openFp.pq.heap) || fresh(openFp.pq.heap)
      ensures openF.pq.heap == old(openF.pq.heap) || fresh(openF.pq.heap)
    {
      hide PQOpenList.Valid, F, FPrime;
      QueuesOf(nodes);
      if incumbent.None? {
        s := openFp.Take(nodes);
      } else if openFp.best as real < incumbentCost {
        s := openFp.Take(nodes);
        openF.Remove(nodes, s);
      } else {
        s := openF.Take(nodes);
        openFp.Remove(nodes, s);
      }
    }

    method GetNextState() returns (s: nat)
      requires Valid() && openFp.pq.Elems != {}
      modifies this`nodes, openFp`best, openF`best, openFp.pq, openF.pq, openFp.pq.heap, openF.pq.heap
      ensures Valid() && s in old(openFp.pq.Elems) && openFp.pq.Elems == old(openFp.pq.Elems) - {s}
      ensures s < |nodes| == |old(nodes)| && nodes == old(nodes)[s := old(nodes)[s].(open := false)]
      ensures incumbent.Some? ==>
                FPrime(openFp.weight, nodes[s].g, nodes[s].h) as real < incumbentCost
                || F(nodes[s].g, nodes[s].h) == old(openF.best)
      ensures old(incumbent).None? || old(openFp.best) as real < old(incumbentCost) ==>
                forall m :: m in old(openFp.pq.Elems) ==>
                  && m < |old(nodes)|
                  && FPrime(openFp.weight, old(nodes)[s].g, old(nodes)[s].h) <= FPrime(openFp.weight, old(nodes)[m].g, old(nodes)[m].h)
                  && (FPrime(openFp.weight, old(nodes)[s].g, old(nodes)[s].h) == FPrime(openFp.weight, old(nodes)[m].g, old(nodes)[m].h) ==>
                        old(nodes)[s].g + old(nodes)[s].h <= old(nodes)[m].g + old(nodes)[m].h)
      ensures old(incumbent).Some? && old(openFp.best) as real >= old(incumbentCost) ==>
                forall m :: m in old(openFp.pq.Elems) ==>
                  m < |old(nodes)| && old(nodes)[s].g + old(nodes)[s].h <= old(nodes)[m].g + old(nodes)[m].h
      ensures openFp.pq.heap == old(openFp.pq.heap) || fresh(openFp.pq.heap)
      ensures openF.pq.heap == old(openF.pq.heap) || fresh(openF.pq.heap)
    {
      hide PQOpenList.Valid, NodesOk, Rooted, Finite, F, FPrime, Queues, Apart;
      KeysInRange();
      s := TakeFromQueues();
      KeysInRange();
      FlagKeeps(gr, nodes, closed, s, false);
      BothKept(nodes, nodes[s := nodes[s].(open := false)]);
      nodes := nodes[s := nodes[s].(open := false)];
    }

    method SetIncumbent(s: nat)
      requires Valid() && s < |nodes| && gr.goal(nodes[s].x)
      modifies this`incumbent, this`incumbentCost, openF`best, openF.pq, openF.pq.heap
      ensures Valid() && Good() && incumbent.Some? && Paid() == Some(nodes[s].g)
      ensures incumbentCost * FP_ONE as real == nodes[s].g as real
      ensures openFp.pq.Elems == old(openFp.pq.Elems)
      ensures openF.pq.heap == old(openF.pq.heap) || fresh(openF.pq.heap)
    {
      hide PQOpenList.Valid, NodesOk, Rooted, Finite;
      KeysInRange();
      if incumbent.None? {
        FillOpenF();
      }
      var path := GetPath(gr, nodes, closed, s);
      incumbent := Some(path);
      incumbentCost := Double(nodes[s].g);
    }

    /** The careful queue is filled when the first solution is found. */
    method FillOpenF()
      requires Apart() && Queues(nodes) && incumbent.None?
      modifies openF`best, openF.pq, openF.pq.heap
      ensures Apart() && openFp.Valid(nodes) && openF.Valid(nodes) && openF.pq.Elems == openFp.pq.Elems
      ensures openF.pq.heap == old(openF.pq.heap) || fresh(openF.pq.heap)
    {
      hide PQOpenList.Valid, Queues;
      KeysInRange();
      QueuesParts();
      assert openF.pq.Elems == {} by { NotUsed(); }
      var all := openFp.States(nodes);
      for i := 0 to |all|
        invariant Apart() && openFp.Valid(nodes) && openF.Valid(nodes)
        invariant forall n :: n in openF.pq.Elems <==> n in all[..i]
        invariant openF.pq.heap == old(openF.pq.heap) || fresh(openF.pq.heap)
      {
        assert all[i] in all;
        openF.Add(nodes, all[i]);
      }
      assert all[..|all|] == all;
    }

    lemma NotUsed()
      requires Queues(nodes) && incumbent.None?
      ensures openF.pq.Elems == {}
    {
    }

    /** Whether the incumbent is proved to be within the bound. */
    method SearchComplete() returns (b: bool)
      requires Valid()
      ensures b <==> incumbent.Some? && bound * Double(openF.best) >= incumbentCost
    {
      if incumbent.None? {
        return false;
      }
      return bound * Double(openF.best) >= incumbentCost;
    }

    // ----- the search -----

    /** What holds between the rounds of the loop. */
    ghost predicate Ready()
      reads this, openFp, openF, openFp.pq, openF.pq, openFp.pq.heap, openF.pq.heap
    {
      && Valid() && Good() && (incumbent.Some? ==> incumbent.value != [])
      && Closed(gr, nodes, closed, openFp.pq.Elems, None, true)
      && GoalsPaid(gr, nodes, openFp.pq.Elems, Paid())
    }

    /** One round of the loop.  The program overwrites its incumbent without
        comparing costs; the new one is cheaper all the same. */
    method Round() returns (s: nat)
      requires Ready() && openFp.pq.Elems != {} && bound >= 1.0
      requires incumbent.Some? ==> bound * Double(openF.best) < incumbentCost
      modifies this`nodes, this`closed, this`incumbent, this`incumbentCost
      modifies openFp`best, openF`best, openFp.pq, openF.pq, openFp.pq.heap, openF.pq.heap
      ensures Ready() && s in old(openFp.pq.Elems) && s < |old(nodes)|
      ensures old(incumbent).None? || old(openFp.best) as real < old(incumbentCost) ==>
                forall m :: m in old(openFp.pq.Elems) ==>
                  && m < |old(nodes)|
                  && FPrime(openFp.weight, old(nodes)[s].g, old(nodes)[s].h) <= FPrime(openFp.weight, old(nodes)[m].g, old(nodes)[m].h)
                  && (FPrime(openFp.weight, old(nodes)[s].g, old(nodes)[s].h) == FPrime(openFp.weight, old(nodes)[m].g, old(nodes)[m].h) ==>
                        old(nodes)[s].g + old(nodes)[s].h <= old(nodes)[m].g + old(nodes)[m].h)
      ensures old(incumbent).Some? && old(openFp.best) as real >= old(incumbentCost) ==>
                forall m :: m in old(openFp.pq.Elems) ==>
                  m < |old(nodes)| && old(nodes)[s].g + old(nodes)[s].h <= old(nodes)[m].g + old(nodes)[m].h
      ensures if gr.goal(old(nodes)[s].x) then Paid() == Some(old(nodes)[s].g) else incumbent == old(incumbent)
      ensures old(incumbent).Some? ==> incumbent.Some? && incumbent.value != [] && old(incumbent).value != []
      ensures old(incumbent).Some? && incumbent != old(incumbent) ==> incumbent.value[0].g < old(incumbent).value[0].g
      ensures openFp.pq.heap == old(openFp.pq.heap) || fresh(openFp.pq.heap)
      ensures openF.pq.heap == old(openF.pq.heap) || fresh(openF.pq.heap)
      ensures |closed| > |old(closed)| || (|closed| == |old(closed)| && SumG(nodes) < SumG(old(nodes)))
              || (|closed| == |old(closed)| && SumG(nodes) == SumG(old(nodes)) && |openFp.pq.Elems| < |old(openFp.pq.Elems)|)
    {
      hide PQOpenList.Valid, Rooted, Finite, NodesOk, Closed, GoalsPaid, PathOf, Queues, Space, Apart, Good, F, FPrime, Double, SumG;
      if incumbent.Some? { CostOf(); }
      ghost var was, closedWas, openWas, paidWas := nodes, closed, openFp.pq.Elems, Paid();
      s := GetNextState();
      SumSame(was, nodes);
      FlagClosed(gr, was, nodes, closed, openWas, s, true);
      if gr.goal(nodes[s].x) {
        if incumbent.Some? {
          Cheaper(openFp.weight, nodes[s].g, nodes[s].h, bound, paidWas.value, old(openF.best));
        }
        SetIncumbent(s);
        GoalClosed(gr, nodes, closed, openFp.pq.Elems, s);
        GoalPays(gr, was, nodes, openWas, s, paidWas, Paid());
        return;
      }
      NoGoalFlag(gr, was, nodes, openWas, s, paidWas);
      Expand(s);
    }

    lemma CostOf()
      requires Good() && incumbent.Some? && incumbent.value != []
      ensures Paid().Some? && incumbentCost == Double(Paid().value)
    {
    }

    /** One round and the test that ends the loop. */
    method RoundAndTest() returns (complete: bool)
      requires Ready() && openFp.pq.Elems != {} && bound >= 1.0
      requires incumbent.Some? ==> bound * Double(openF.best) < incumbentCost
      modifies this`nodes, this`closed, this`incumbent, this`incumbentCost
      modifies openFp`best, openF`best, openFp.pq, openF.pq, openFp.pq.heap, openF.pq.heap
      ensures Ready() && (complete <==> incumbent.Some? && bound * Double(openF.best) >= incumbentCost)
      ensures (openFp.Empty() <==> openFp.pq.Elems == {}) && |closed| <= |states|
      ensures openFp.pq.heap == old(openFp.pq.heap) || fresh(openFp.pq.heap)
      ensures openF.pq.heap == old(openF.pq.heap) || fresh(openF.pq.heap)
      ensures |closed| > |old(closed)| || (|closed| == |old(closed)| && SumG(nodes) < SumG(old(nodes)))
              || (|closed| == |old(closed)| && SumG(nodes) == SumG(old(nodes)) && |openFp.pq.Elems| < |old(openFp.pq.Elems)|)
    {
      hide PQOpenList.Valid, Rooted, Finite, NodesOk, Closed, GoalsPaid, PathOf, Queues, Space, Apart, Double, Ready, Valid,
           SumG, PQOpenList.Empty, Good, Paid, FPrime;
      var _ := Round();
      LoopFacts();
      complete := SearchComplete();
    }

    /** The loop of the search. */
    method Rounds()
      requires Ready() && bound >= 1.0
      modifies this`nodes, this`closed, this`incumbent, this`incumbentCost
      modifies openFp`best, openF`best, openFp.pq, openF.pq, openFp.pq.heap, openF.pq.heap
      ensures Ready()
      ensures openFp.pq.Elems == {} || (incumbent.Some? && bound * Double(openF.best) >= incumbentCost)
      ensures openFp.pq.heap == old(openFp.pq.heap) || fresh(openFp.pq.heap)
      ensures openF.pq.heap == old(openF.pq.heap) || fresh(openF.pq.heap)
    {
      hide *;
      LoopFacts();
      var complete := SearchComplete();
      while !openFp.Empty() && !complete
        invariant Ready()
        invariant openFp.pq.heap == old(openFp.pq.heap) || fresh(openFp.pq.heap)
        invariant openF.pq.heap == old(openF.pq.heap) || fresh(openF.pq.heap)
        invariant openFp.Empty() <==> openFp.pq.Elems == {}
        invariant complete <==> incumbent.Some? && bound * Double(openF.best) >= incumbentCost
        decreases |states| - |closed|, SumG(nodes), |openFp.pq.Elems|
      {
        complete := RoundAndTest();
      }
    }

    method Search() returns (path: Option<seq<Node>>)
      requires Valid() && closed == map[] && openFp.pq.Elems == {} && |nodes| == 1 && incumbent.None? && bound >= 1.0
      modifies this`nodes, this`closed, this`incumbent, this`incumbentCost
      modifies openFp`best, openF`best, openFp.pq, openF.pq, openFp.pq.heap, openF.pq.heap
      ensures path.Some? ==> PathOf(gr, path.value) && gr.goal(path.value[0].x)
      ensures path.None? ==> forall q :: !gr.IsSolution(gr.init, q)
      ensures path.Some? && gr.Admissible() ==>
                forall q :: gr.IsSolution(gr.init, q) ==> path.value[0].g as real <= bound * Cost(q) as real
    {
      hide *;
      OpenRoot();
      OnlyRoot(gr, nodes, closed, true);
      Starts();
      Rounds();
      LoopFacts();
      Proved();
      Results();
      return incumbent;
    }

    lemma Starts()
      requires Valid() && incumbent.None? && openFp.pq.Elems == {0}
      requires Closed(gr, nodes, closed, {0}, None, true) && GoalsPaid(gr, nodes, {0}, None)
      ensures Ready()
    {
      hide PQOpenList.Valid, Rooted, Finite, NodesOk, Closed, GoalsPaid;
    }

    lemma LoopFacts()
      requires Ready()
      ensures Valid() && |closed| <= |states| && (openFp.Empty() <==> openFp.pq.Elems == {})
      ensures incumbent.Some? ==> incumbent.value != [] && PathOf(gr, incumbent.value) && gr.goal(incumbent.value[0].x)
    {
      hide PQOpenList.Valid, Closed, GoalsPaid, PathOf, Queues;
      Bounded();
      QueuesParts();
      openFp.EmptyMeans(nodes);
    }

    lemma Results()
      requires forall q :: gr.IsSolution(gr.init, q) ==> IsGoodEnough(q)
      ensures incumbent.None? ==> forall q :: !gr.IsSolution(gr.init, q)
      ensures incumbent.Some? && incumbent.value != [] && gr.Admissible() ==>
                forall q :: gr.IsSolution(gr.init, q) ==> incumbent.value[0].g as real <= bound * Cost(q) as real
    {
    }

    method OpenRoot()
      requires Valid() && closed == map[] && openFp.pq.Elems == {} && |nodes| == 1 && incumbent.None?
      modifies this`nodes, openFp`best, openF`best, openFp.pq, openF.pq, openFp.pq.heap, openF.pq.heap
      ensures Valid() && openFp.pq.Elems == {0} && |nodes| == 1 && openFp.Valid(nodes)
      ensures openFp.pq.heap == old(openFp.pq.heap) || fresh(openFp.pq.heap)
      ensures openF.pq.heap == old(openF.pq.heap) || fresh(openF.pq.heap)
    {
      hide PQOpenList.Valid, Rooted, Finite, NodesOk;
      FlagKeeps(gr, nodes, closed, 0, true);
      BothKept(nodes, nodes[0 := nodes[0].(open := true)]);
      nodes := nodes[0 := nodes[0].(open := true)];
      openFp.Add(nodes, 0);
    }

    lemma QueuesParts()
      requires Queues(nodes)
      ensures openFp.Valid(nodes) && openF.Valid(nodes) && openFp.order == ByFPrime && openF.order == ByF
      ensures incumbent.Some? ==> openF.pq.Elems == openFp.pq.Elems
    {
    }

    lemma Bounded()
      requires Valid()
      ensures |closed| <= |states|
    {
      assert closed.Keys <= states;
      SubsetSize(closed.Keys, states);
    }

    /** When the loop ends, the incumbent is good enough, or there is no solution. */
    lemma Proved()
      requires Ready() && bound >= 1.0
      requires openFp.pq.Elems == {} || (incumbent.Some? && bound * Double(openF.best) >= incumbentCost)
      ensures forall q :: gr.IsSolution(gr.init, q) ==> IsGoodEnough(q)
    {
      hide Ready, IsGoodEnough;
      forall q | gr.IsSolution(gr.init, q) ensures IsGoodEnough(q) {
        ProvedFor(q);
      }
    }

    /** There is an incumbent, and it costs at most the bound times the solution `q`. */
    ghost predicate IsGoodEnough(q: seq<Edge>)
      reads this`incumbent
    {
      incumbent.Some? && incumbent.value != []
      && (gr.Admissible() ==> incumbent.value[0].g as real <= bound * Cost(q) as real)
    }

    lemma ProvedFor(q: seq<Edge>)
      requires Ready() && bound >= 1.0 && gr.IsSolution(gr.init, q)
      requires openFp.pq.Elems == {} || (incumbent.Some? && bound * Double(openF.best) >= incumbentCost)
      ensures IsGoodEnough(q)
    {
      hide Graph.Admissible, PQOpenList.Valid, Expanded, Rooted, Finite, PathOf, Double, F, Closed, GoalsPaid, Queues, NodesOk;
      RootIsInit(gr, nodes, closed);
      var m, r := Frontier(gr, nodes, closed, openFp.pq.Elems, true, 0, q);
      if m !in openFp.pq.Elems {
        GoalPaid(gr, nodes, openFp.pq.Elems, Paid(), m);
        AtMost(bound, incumbent.value[0].g, Cost(q));
      } else if gr.Admissible() {
        BestBelow(m);
        WithinBound(gr, bound, openF.best, nodes[m], r, incumbent.value[0].g, Cost(q));
      }
    }

    lemma BestBelow(m: nat)
      requires Queues(nodes) && incumbent.Some? && m in openFp.pq.Elems && m < |nodes|
      ensures openF.best <= F(nodes[m].g, nodes[m].h)
    {
    }
  }

  lemma RootIsInit(gr: Graph, nodes: seq<Node>, closed: map<nat, nat>)
    requires NodesOk(gr, nodes, closed)
    ensures nodes != [] && nodes[0].x == gr.init && nodes[0].g == 0
    ensures forall n: nat :: n < |nodes| ==> nodes[n].h == gr.h(nodes[n].x)
  {
    assert NodeOk(gr, nodes, closed, 0);
    forall n: nat | n < |nodes| ensures nodes[n].h == gr.h(nodes[n].x) { assert NodeOk(gr, nodes, closed, n); }
  }

  lemma GoalPaid(gr: Graph, nodes: seq<Node>, open: set<nat>, cost: Option<nat>, m: nat)
    requires GoalsPaid(gr, nodes, open, cost) && m < |nodes| && m !in open && gr.goal(nodes[m].x)
    ensures cost.Some? && cost.value <= nodes[m].g
  {
  }

  lemma AtMost(bound: real, a: nat, b: nat)
    requires bound >= 1.0 && a <= b
    ensures a as real <= bound * b as real
  {
    ScaleReal(b as real, 1.0, bound);
  }

  lemma ScaleReal(k: real, a: real, b: real)
    requires k >= 0.0 && a <= b
    ensures k * a <= k * b
  {
  }

  lemma WithinBound(gr: Graph, bound: real, best: nat, m: Node, r: seq<Edge>, cost: nat, q: nat)
    requires bound >= 1.0 && gr.Admissible() && m.h == gr.h(m.x) && gr.IsSolution(m.x, r) && m.g + Cost(r) <= q
    requires best <= F(m.g, m.h) && bound * Double(best) >= Double(cost)
    ensures cost as real <= bound * q as real
  {
    hide Graph.Admissible, F, Double;
    FBelow(gr, m, r, q);
    Undouble(bound, best, cost);
    ScaleReal(bound, best as real, q as real);
  }

  lemma FBelow(gr: Graph, m: Node, r: seq<Edge>, q: nat)
    requires gr.Admissible() && m.h == gr.h(m.x) && gr.IsSolution(m.x, r) && m.g + Cost(r) <= q
    ensures F(m.g, m.h) <= q
  {
  }

  lemma Undouble(bound: real, best: nat, cost: nat)
    requires bound * Double(best) >= Double(cost)
    ensures bound * best as real >= cost as real
  {
    var k := FP_ONE as real;
    assert Double(best) * k == best as real && Double(cost) * k == cost as real;
    ScaleReal(k, Double(cost), bound * Double(best));
    assert k * (bound * Double(best)) == bound * (Double(best) * k);
  }

  lemma DoubleMono(a: nat, b: nat)
    requires a <= b
    ensures 0.0 <= Double(a) <= Double(b)
  {
  }

  /** A node that was taken while the incumbent was not proved good enough is cheaper. */
  lemma Cheaper(w: nat, g: nat, h: nat, bound: real, cost: nat, best: nat)
    requires bound >= 1.0 && bound * Double(best) < Double(cost)
    requires FPrime(w, g, h) as real < Double(cost) || F(g, h) == best
    ensures g < cost
  {
    AtLeastG(w, g, h);
    if F(g, h) == best {
      if best >= cost {
        AtMost(bound, cost, best);
        DoubleMono(cost, best);
        ScaleReal(Double(best), 1.0, bound);
      }
    } else {
      assert Double(cost) <= cost as real;
    }
  }

  lemma GoalClosed(gr: Graph, nodes: seq<Node>, closed: map<nat, nat>, open: set<nat>, s: nat)
    requires Closed(gr, nodes, closed, open, Some(s), true) && s < |nodes| && gr.goal(nodes[s].x)
    ensures Closed(gr, nodes, closed, open, None, true)
  {
    hide Expanded;
  }

  lemma GoalPays(gr: Graph, was: seq<Node>, now: seq<Node>, open: set<nat>, s: nat, cost: Option<nat>, cost': Option<nat>)
    requires GoalsPaid(gr, was, open, cost) && s < |was| && now == was[s := was[s].(open := false)]
    requires cost' == Some(now[s].g) && (cost.Some? ==> cost'.value < cost.value)
    ensures GoalsPaid(gr, now, open - {s}, cost')
  {
  }

  lemma NoGoalFlag(gr: Graph, was: seq<Node>, now: seq<Node>, open: set<nat>, s: nat, cost: Option<nat>)
    requires GoalsPaid(gr, was, open, cost) && s < |was| && now == was[s := was[s].(open := false)] && !gr.goal(was[s].x)
    ensures GoalsPaid(gr, now, open - {s}, cost)
  {
  }
}
