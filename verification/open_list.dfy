/** Open lists: priority queues of search nodes that publish their best value. */
module OpenLists {
  import opened Orders
  import opened FixedPoint
  import opened PriorityQueues

  /** A state object of a search: nodes are named by their position in the
      sequence of all generated ones, and `parent` is such a name. */
  datatype Node = Node(x: nat, g: nat, c: nat, h: nat, parent: Option<nat>, open: bool)

  datatype Order = ByF | ByFPrime

  function ValueOf(o: Order, w: nat, a: Node): nat {
    if o == ByF then F(a.g, a.h) else FPrime(w, a.g, a.h)
  }

  predicate LessF(a: Node, b: Node) {
    if F(a.g, a.h) == F(b.g, b.h) then a.g > b.g else F(a.g, a.h) < F(b.g, b.h)
  }

  /** The comparators; ties go to the greater g, by f' first to the smaller f. */
  predicate Less(o: Order, w: nat, a: Node, b: Node) {
    if ValueOf(o, w, a) == ValueOf(o, w, b) then LessF(a, b) else ValueOf(o, w, a) < ValueOf(o, w, b)
  }

  /** What it means in g and h that `b` does not come before `a`. */
  lemma ServedFirst(o: Order, w: nat, a: Node, b: Node)
    requires !Less(o, w, b, a)
    ensures o == ByF ==> a.g + a.h <= b.g + b.h && (a.g + a.h == b.g + b.h ==> b.g <= a.g)
    ensures o == ByFPrime ==> FPrime(w, a.g, a.h) <= FPrime(w, b.g, b.h)
    ensures o == ByFPrime && FPrime(w, a.g, a.h) == FPrime(w, b.g, b.h) ==>
              a.g + a.h <= b.g + b.h && (a.g + a.h == b.g + b.h ==> b.g <= a.g)
  {
    hide FPrime;
  }

  function Pred(o: Order, w: nat, nodes: seq<Node>): (nat, nat) -> bool {
    (a: nat, b: nat) => a < |nodes| && (b >= |nodes| || Less(o, w, nodes[a], nodes[b]))
  }

  lemma PredIsStrictWeakOrder(o: Order, w: nat, nodes: seq<Node>)
    ensures StrictWeakOrder(Pred(o, w, nodes))
  {
    hide FPrime, F;
  }

  /** At weight one the two comparators order alike. */
  lemma SameOrderAtOne(a: Node, b: Node)
    ensures Less(ByFPrime, FP_ONE, a, b) <==> Less(ByF, FP_ONE, a, b)
  {
    FPrimeAtOne(a.g, a.h);
    FPrimeAtOne(b.g, b.h);
  }

  /** Nodes of `s` have the keys that they had. */
  ghost predicate SameKeys(was: seq<Node>, now: seq<Node>, s: set<nat>) {
    && |was| <= |now|
    && forall n :: n in s && n < |was| ==> now[n].g == was[n].g && now[n].h == was[n].h
  }

  class PQOpenList {
    const order: Order
    const weight: nat
    const pq: PriorityQueue<nat>
    var best: nat

    ghost predicate Valid(nodes: seq<Node>)
      reads this, pq, pq.heap
    {
      && pq.Valid() && pq.OutIsOut() && pq.HeapOrdered(Pred(order, weight, nodes))
      && (forall n :: n in pq.Elems ==> n < |nodes|)
      && BestOk(nodes)
    }

    /** The published value is that of the best node, or infinity. */
    ghost predicate BestOk(nodes: seq<Node>)
      reads this`best, pq`Elems
      requires forall n :: n in pq.Elems ==> n < |nodes|
    {
      && (pq.Elems == {} ==> best == FP_INFINITY)
      && (pq.Elems != {} ==> exists n :: n in pq.Elems && best == ValueOf(order, weight, nodes[n]))
      && (forall n :: n in pq.Elems ==> best <= ValueOf(order, weight, nodes[n]))
    }

    constructor (o: Order, w: nat)
      ensures order == o && weight == w && fresh(pq) && fresh(pq.heap) && pq.Elems == {} && Valid([])
    {
      order := o;
      weight := w;
      pq := new PriorityQueue<nat>();
      best := FP_INFINITY;
    }

    predicate Empty()
      reads this, pq
    {
      pq.fill == 0
    }

    lemma EmptyMeans(nodes: seq<Node>)
      requires Valid(nodes)
      ensures Empty() <==> pq.Elems == {}
    {
      if pq.Elems != {} {
        var n :| n in pq.Elems;
        assert 0 <= pq.IndexOf(n) < pq.fill;
      }
      if pq.fill > 0 { assert pq.heap[..pq.fill][0] in pq.Elems; }
    }

    /** The list stays valid as long as only nodes that are not in it change. */
    lemma KeysKept(was: seq<Node>, now: seq<Node>)
      requires Valid(was) && SameKeys(was, now, pq.Elems)
      ensures Valid(now)
    {
      hide F, FPrime;
      forall j: nat | 0 < j < pq.fill
        ensures !Pred(order, weight, now)(pq.heap[..pq.fill][j], pq.heap[..pq.fill][ParentOf(j)])
      {
        assert pq.heap[..pq.fill][j] in pq.Elems && pq.heap[..pq.fill][ParentOf(j)] in pq.Elems;
        assert !Pred(order, weight, was)(pq.heap[..pq.fill][j], pq.heap[..pq.fill][ParentOf(j)]);
      }
    }

    /** Publishes the front's value. */
    method Publish(nodes: seq<Node>)
      requires pq.Valid() && pq.OutIsOut() && pq.HeapOrdered(Pred(order, weight, nodes))
      requires forall n :: n in pq.Elems ==> n < |nodes|
      modifies this`best
      ensures Valid(nodes)
    {
      PredIsStrictWeakOrder(order, weight, nodes);
      var f := pq.Front();
      if f.Some? {
        pq.FrontIsMinimum(Pred(order, weight, nodes));
        best := ValueOf(order, weight, nodes[f.value]);
        hide F, FPrime;
        forall n | n in pq.Elems ensures best <= ValueOf(order, weight, nodes[n]) {
          assert !Pred(order, weight, nodes)(n, f.value);
        }
      } else {
        best := FP_INFINITY;
      }
    }

    method Add(nodes: seq<Node>, n: nat)
      requires Valid(nodes) && n < |nodes| && n !in pq.Elems
      modifies this`best, pq, pq.heap
      ensures Valid(nodes) && pq.Elems == old(pq.Elems) + {n}
      ensures pq.heap == old(pq.heap) || fresh(pq.heap)
    {
      PredIsStrictWeakOrder(order, weight, nodes);
      hide StrictWeakOrder, Pred, Inverse;
      pq.Add(Pred(order, weight, nodes), n);
      Publish(nodes);
    }

    method Take(nodes: seq<Node>) returns (n: nat)
      requires Valid(nodes) && pq.Elems != {}
      modifies this`best, pq, pq.heap
      ensures Valid(nodes) && n in old(pq.Elems) && pq.Elems == old(pq.Elems) - {n} && pq.heap == old(pq.heap)
      ensures n < |nodes| && forall m :: m in old(pq.Elems) ==> m < |nodes| && !Less(order, weight, nodes[m], nodes[n])
      ensures forall m :: m in old(pq.Elems) ==> ValueOf(order, weight, nodes[n]) <= ValueOf(order, weight, nodes[m])
      ensures ValueOf(order, weight, nodes[n]) == old(best)
      ensures forall m :: m in old(pq.Elems) && order == ByF ==>
                && m < |nodes|
                && nodes[n].g + nodes[n].h <= nodes[m].g + nodes[m].h
                && (nodes[n].g + nodes[n].h == nodes[m].g + nodes[m].h ==> nodes[m].g <= nodes[n].g)
      ensures forall m :: m in old(pq.Elems) && order == ByFPrime ==>
                && m < |nodes|
                && FPrime(weight, nodes[n].g, nodes[n].h) <= FPrime(weight, nodes[m].g, nodes[m].h)
                && (FPrime(weight, nodes[n].g, nodes[n].h) == FPrime(weight, nodes[m].g, nodes[m].h) ==>
                      && nodes[n].g + nodes[n].h <= nodes[m].g + nodes[m].h
                      && (nodes[n].g + nodes[n].h == nodes[m].g + nodes[m].h ==> nodes[m].g <= nodes[n].g))
    {
      PredIsStrictWeakOrder(order, weight, nodes);
      hide StrictWeakOrder, Inverse, F, FPrime;
      var r := pq.Take(Pred(order, weight, nodes));
      n := r.value;
      forall m | m in old(pq.Elems)
        ensures !Less(order, weight, nodes[m], nodes[n])
        ensures ValueOf(order, weight, nodes[n]) <= ValueOf(order, weight, nodes[m])
        ensures order == ByF ==>
                  nodes[n].g + nodes[n].h <= nodes[m].g + nodes[m].h &&
                  (nodes[n].g + nodes[n].h == nodes[m].g + nodes[m].h ==> nodes[m].g <= nodes[n].g)
        ensures order == ByFPrime ==>
                  FPrime(weight, nodes[n].g, nodes[n].h) <= FPrime(weight, nodes[m].g, nodes[m].h) &&
                  (FPrime(weight, nodes[n].g, nodes[n].h) == FPrime(weight, nodes[m].g, nodes[m].h) ==>
                     nodes[n].g + nodes[n].h <= nodes[m].g + nodes[m].h &&
                     (nodes[n].g + nodes[n].h == nodes[m].g + nodes[m].h ==> nodes[m].g <= nodes[n].g))
      {
        assert !Pred(order, weight, nodes)(m, n);
        ServedFirst(order, weight, nodes[n], nodes[m]);
      }
      Publish(nodes);
    }

    method Remove(nodes: seq<Node>, n: nat)
      requires Valid(nodes) && n in pq.Elems
      modifies this`best, pq, pq.heap
      ensures Valid(nodes) && pq.Elems == old(pq.Elems) - {n} && pq.heap == old(pq.heap)
    {
      PredIsStrictWeakOrder(order, weight, nodes);
      assert 0 <= pq.IndexOf(n) < pq.fill && pq.heap[..pq.fill][pq.IndexOf(n)] == n;
      hide StrictWeakOrder, Pred, Inverse;
      pq.Remove(Pred(order, weight, nodes), pq.IndexOf(n));
      Publish(nodes);
    }

    /** Restores the order after the key of `n` has changed in any way. */
    method SeeUpdate(nodes: seq<Node>, n: nat, ghost was: seq<Node>)
      requires Valid(was) && n in pq.Elems && SameKeys(was, nodes, pq.Elems - {n})
      modifies this`best, pq, pq.heap
      ensures Valid(nodes) && pq.Elems == old(pq.Elems) && pq.heap == old(pq.heap)
    {
      PredIsStrictWeakOrder(order, weight, nodes);
      PredIsStrictWeakOrder(order, weight, was);
      assert 0 <= pq.IndexOf(n) < pq.fill && pq.heap[..pq.fill][pq.IndexOf(n)] == n;
      Agree(was, nodes, n);
      hide StrictWeakOrder, Pred, Inverse, AgreeExcept, SameKeys;
      pq.SeeUpdate(Pred(order, weight, nodes), pq.IndexOf(n), Pred(order, weight, was));
      Publish(nodes);
    }

    lemma Agree(was: seq<Node>, now: seq<Node>, n: nat)
      requires Valid(was) && SameKeys(was, now, pq.Elems - {n})
      ensures AgreeExcept(Pred(order, weight, now), Pred(order, weight, was), pq.Elems, n)
    {
      hide F, FPrime;
    }

    /** Rebuilds the list after any keys may have changed. */
    method Resort(nodes: seq<Node>)
      requires pq.Valid() && pq.OutIsOut() && forall n :: n in pq.Elems ==> n < |nodes|
      modifies this`best, pq
      ensures Valid(nodes) && pq.Elems == old(pq.Elems) && fresh(pq.heap)
    {
      PredIsStrictWeakOrder(order, weight, nodes);
      hide StrictWeakOrder, Pred, Inverse;
      pq.Resort(Pred(order, weight, nodes));
      Publish(nodes);
    }

    /** The nodes of the list. */
    method States(nodes: seq<Node>) returns (ns: seq<nat>)
      requires Valid(nodes)
      ensures forall n :: n in ns <==> n in pq.Elems
      ensures forall i: nat, j: nat :: i < j < |ns| ==> ns[i] != ns[j]
    {
      ns := pq.heap[..pq.fill];
      forall n | n in pq.Elems ensures n in ns {
        assert 0 <= pq.IndexOf(n) < pq.fill && ns[pq.IndexOf(n)] == n;
      }
    }
  }
}
