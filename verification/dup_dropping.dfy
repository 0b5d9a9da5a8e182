/**
 * A* that drops duplicates: an expanded node whose cost falls later is not opened
 * again.  With a consistent heuristic the cost bound holds all the same.
 */
module DupDropping {
  import opened FixedPoint
  import opened PriorityQueues
  import opened SearchGraphs
  import opened OpenLists
  import opened SearchNodes

  lemma {:induction false} ConsistentPath(gr: Graph, x: nat, q: seq<Edge>)
    requires gr.Consistent() && gr.IsPath(x, q)
    ensures gr.h(x) <= Cost(q) + gr.h(End(x, q))
    decreases |q|
  {
    if q != [] { ConsistentPath(gr, q[0].to, q[1..]); }
  }

  /** The recorded cost of `a` is within the weight of the cost `p`. */
  predicate Within(w: nat, a: Node, p: nat) { a.g * FP_ONE <= w * p }

  /** All ways over `x` to its successors are known at a cost within the weight. */
  ghost predicate WellKnown(gr: Graph, w: nat, nodes: seq<Node>, closed: map<nat, nat>, x: nat) {
    forall e, q :: e in gr.succ(x) && WayTo(gr, x, q) ==> KnownWithin(w, nodes, closed, e, Cost(q) + e.cost)
  }

  ghost predicate WayTo(gr: Graph, x: nat, q: seq<Edge>) {
    gr.IsPath(gr.init, q) && End(gr.init, q) == x
  }

  predicate KnownWithin(w: nat, nodes: seq<Node>, closed: map<nat, nat>, e: Edge, p: nat) {
    e.to in closed && closed[e.to] < |nodes| && Within(w, nodes[closed[e.to]], p)
  }

  /** Every node that is neither open nor a goal nor `but` was expanded at a cost within the weight. */
  ghost predicate AllKnown(gr: Graph, w: nat, nodes: seq<Node>, closed: map<nat, nat>, open: set<nat>, but: Option<nat>) {
    forall n: nat :: n < |nodes| && n !in open && but != Some(n) && !gr.goal(nodes[n].x) ==>
      WellKnown(gr, w, nodes, closed, nodes[n].x)
  }

  /** Along every way some open node, or else the end of the way, has been reached within the weight. */
  lemma {:induction false} KnownFrontier(gr: Graph, w: nat, nodes: seq<Node>, closed: map<nat, nat>, open: set<nat>,
                                         n: nat, p: seq<Edge>, q: seq<Edge>) returns (m: nat, r: seq<Edge>, c: nat)
    requires NodesOk(gr, nodes, closed) && AllKnown(gr, w, nodes, closed, open, None) && GoalsPaid(gr, nodes, open, None)
    requires n < |nodes| && WayTo(gr, nodes[n].x, p) && Within(w, nodes[n], Cost(p)) && gr.IsPath(nodes[n].x, q)
    ensures m < |nodes| && gr.IsPath(nodes[m].x, r) && End(nodes[m].x, r) == End(nodes[n].x, q)
    ensures Within(w, nodes[m], c) && c + Cost(r) == Cost(p) + Cost(q)
    ensures m in open || r == []
    decreases |q|
  {
    hide NodesOk, Within;
    if n in open || q == [] {
      m, r, c := n, q, Cost(p);
    } else {
      assert WellKnown(gr, w, nodes, closed, nodes[n].x);
      var e := q[0];
      assert KnownWithin(w, nodes, closed, e, Cost(p) + e.cost);
      ClosedNode(gr, nodes, closed, e.to);
      Extend(gr, gr.init, p, e);
      m, r, c := KnownFrontier(gr, w, nodes, closed, open, closed[e.to], p + [e], q[1..]);
    }
  }

  /** What is taken first costs no more than any way to it allows.  The integer
      division in f' does no harm, because ties go to the smaller f. */
  lemma TakenWithin(w: nat, s: Node, m: Node, p: nat, c: nat)
    requires FP_ONE <= w && !Less(ByFPrime, w, m, s) && Within(w, m, p) && m.h <= c + s.h
    ensures Within(w, s, p + c)
  {
    Product(w, p, c);
    if FPrime(w, s.g, s.h) == FPrime(w, m.g, m.h) {
      hide FPrime;
      assert s.g <= m.g + c;
      Scale2(FP_ONE, w, c);
    } else {
      assert FPrime(w, s.g, s.h) < FPrime(w, m.g, m.h);
      Rounded(w, s.h);
      Rounded(w, m.h);
      Rise(w, m.h, s.h, c);
    }
  }

  lemma Product(w: nat, p: nat, c: nat)
    ensures w * (p + c) == w * p + w * c
  {
  }

  lemma Scale2(a: nat, b: nat, c: nat)
    requires a <= b
    ensures a * c <= b * c
  {
  }

  lemma Rise(w: nat, a: nat, b: nat, c: nat)
    requires a <= c + b
    ensures w * a <= w * c + w * b
  {
    Product(w, c, b);
    Scale(w, a, c + b);
  }

  lemma Rounded(w: nat, h: nat)
    ensures w * h - FP_ONE < FP_ONE * (w * h / FP_ONE) <= w * h
  {
  }

  /** A node that may be taken has a cost within the weight of every way to its
      state, unless that state has been expanded before. */
  lemma TakenIsWithin(gr: Graph, w: nat, nodes: seq<Node>, closed: map<nat, nat>, open: set<nat>, s: nat, q: seq<Edge>)
    requires FP_ONE <= w && gr.Consistent()
    requires NodesOk(gr, nodes, closed) && AllKnown(gr, w, nodes, closed, open, None) && GoalsPaid(gr, nodes, open, None)
    requires s in open && s < |nodes| && !gr.goal(nodes[s].x) && WayTo(gr, nodes[s].x, q)
    requires forall m :: m in open ==> m < |nodes| && !Less(ByFPrime, w, nodes[m], nodes[s])
    ensures Within(w, nodes[s], Cost(q)) || WellKnown(gr, w, nodes, closed, nodes[s].x)
  {
    assert NodeOk(gr, nodes, closed, 0) && NodeOk(gr, nodes, closed, s);
    var m, r, c := KnownFrontier(gr, w, nodes, closed, open, 0, [], q);
    assert NodeOk(gr, nodes, closed, m);
    hide AllKnown, WellKnown, Less, NodesOk;
    if m in open {
      ConsistentPath(gr, nodes[m].x, r);
      TakenWithin(w, nodes[s], nodes[m], c, Cost(r));
    } else if s != 0 {
      assert m == 0;
      KnownAt(gr, w, nodes, closed, open, 0);
    }
  }

  lemma KnownAt(gr: Graph, w: nat, nodes: seq<Node>, closed: map<nat, nat>, open: set<nat>, n: nat)
    requires AllKnown(gr, w, nodes, closed, open, None) && n < |nodes| && n !in open && !gr.goal(nodes[n].x)
    ensures WellKnown(gr, w, nodes, closed, nodes[n].x)
  {
  }

  /** Expanding the node that was taken makes its state well known. */
  lemma ExpansionIsKnown(gr: Graph, w: nat, was: seq<Node>, closedWas: map<nat, nat>, openWas: set<nat>, s: nat,
                         now: seq<Node>, closed: map<nat, nat>, open: set<nat>)
    requires FP_ONE <= w && gr.Consistent()
    requires NodesOk(gr, was, closedWas) && AllKnown(gr, w, was, closedWas, openWas, None) && GoalsPaid(gr, was, openWas, None)
    requires s in openWas && s < |was| && !gr.goal(was[s].x)
    requires forall m :: m in openWas ==> m < |was| && !Less(ByFPrime, w, was[m], was[s])
    requires Learns(was, closedWas, now, closed, open, false) && s < |now| && now[s].g == was[s].g
    requires forall e :: e in gr.succ(was[s].x) ==> Reached(now, closed, s, e, true)
    ensures WellKnown(gr, w, now, closed, was[s].x)
  {
    hide WellKnown, AllKnown, Less, NodesOk, Learns, GoalsPaid, Within;
    if WellKnown(gr, w, was, closedWas, was[s].x) {
      KnownKept(gr, w, was, closedWas, now, closed, open, was[s].x);
    } else {
      forall e, q | e in gr.succ(was[s].x) && WayTo(gr, was[s].x, q)
        ensures KnownWithin(w, now, closed, e, Cost(q) + e.cost)
      {
        TakenIsWithin(gr, w, was, closedWas, openWas, s, q);
        StepWithin(w, now, closed, s, was[s], e, Cost(q));
      }
      IsKnown(gr, w, now, closed, was[s].x);
    }
  }

  lemma IsKnown(gr: Graph, w: nat, nodes: seq<Node>, closed: map<nat, nat>, x: nat)
    requires forall e, q :: e in gr.succ(x) && WayTo(gr, x, q) ==> KnownWithin(w, nodes, closed, e, Cost(q) + e.cost)
    ensures WellKnown(gr, w, nodes, closed, x)
  {
  }

  lemma StepWithin(w: nat, now: seq<Node>, closed: map<nat, nat>, s: nat, a: Node, e: Edge, p: nat)
    requires FP_ONE <= w && s < |now| && now[s].g == a.g && Within(w, a, p) && Reached(now, closed, s, e, true)
    ensures KnownWithin(w, now, closed, e, p + e.cost)
  {
    Product(w, p, e.cost);
    Scale2(FP_ONE, w, e.cost);
  }

  /** What is known stays known: costs only fall. */
  lemma KnownKept(gr: Graph, w: nat, was: seq<Node>, closedWas: map<nat, nat>, now: seq<Node>, closed: map<nat, nat>,
                  open: set<nat>, x: nat)
    requires WellKnown(gr, w, was, closedWas, x) && Learns(was, closedWas, now, closed, open, false)
    ensures WellKnown(gr, w, now, closed, x)
  {
    hide Learns;
    forall e, q | e in gr.succ(x) && WayTo(gr, x, q) ensures KnownWithin(w, now, closed, e, Cost(q) + e.cost) {
      assert KnownWithin(w, was, closedWas, e, Cost(q) + e.cost);
      WithinKept(w, was, closedWas, now, closed, open, e, Cost(q) + e.cost);
    }
  }

  lemma WithinKept(w: nat, was: seq<Node>, closedWas: map<nat, nat>, now: seq<Node>, closed: map<nat, nat>,
                   open: set<nat>, e: Edge, p: nat)
    requires KnownWithin(w, was, closedWas, e, p) && Learns(was, closedWas, now, closed, open, false)
    ensures KnownWithin(w, now, closed, e, p)
  {
    Scale(FP_ONE, now[closed[e.to]].g, was[closed[e.to]].g);
  }

  /** One round of the loop keeps the invariant. */
  lemma RoundKnows(gr: Graph, w: nat, was: seq<Node>, closedWas: map<nat, nat>, openWas: set<nat>, s: nat,
                   now: seq<Node>, closed: map<nat, nat>, open: set<nat>)
    requires AllKnown(gr, w, was, closedWas, openWas, None) && s in openWas && s < |was|
    requires Learns(was, closedWas, now, closed, open, false) && WellKnown(gr, w, now, closed, was[s].x)
    requires openWas - {s} <= open && forall n: nat :: |was| <= n < |now| ==> n in open
    ensures AllKnown(gr, w, now, closed, open, None)
  {
    hide WellKnown;
    forall n: nat | n < |now| && n !in open && !gr.goal(now[n].x) ensures WellKnown(gr, w, now, closed, now[n].x) {
      if n != s { KnownKept(gr, w, was, closedWas, now, closed, open, was[n].x); }
    }
  }

  /** The first goal that is taken costs at most the weight times any solution. */
  lemma GoalWithin(gr: Graph, w: nat, nodes: seq<Node>, closed: map<nat, nat>, open: set<nat>, s: nat, q: seq<Edge>)
    requires FP_ONE <= w && gr.Admissible()
    requires NodesOk(gr, nodes, closed) && AllKnown(gr, w, nodes, closed, open, None) && GoalsPaid(gr, nodes, open, None)
    requires s in open && s < |nodes| && gr.IsSolution(gr.init, q)
    requires forall m :: m in open ==> m < |nodes| && !Less(ByFPrime, w, nodes[m], nodes[s])
    ensures Within(w, nodes[s], Cost(q))
  {
    assert NodeOk(gr, nodes, closed, 0);
    var m, r, c := KnownFrontier(gr, w, nodes, closed, open, 0, [], q);
    assert NodeOk(gr, nodes, closed, m);
    assert m in open;
    assert gr.IsSolution(nodes[m].x, r);
    assert nodes[m].h <= Cost(r);
    hide AllKnown, NodesOk, GoalsPaid, Graph.Admissible;
    CheaperThan(w, nodes[s], nodes[m], c, Cost(r));
  }

  lemma CheaperThan(w: nat, s: Node, m: Node, p: nat, c: nat)
    requires FP_ONE <= w && !Less(ByFPrime, w, m, s) && Within(w, m, p) && m.h <= c
    ensures Within(w, s, p + c)
  {
    Product(w, p, c);
    assert FPrime(w, s.g, s.h) <= FPrime(w, m.g, m.h);
    AtLeastG(w, s.g, s.h);
    Rounded(w, m.h);
    Scale(w, m.h, c);
  }

  lemma RootKnown(gr: Graph, w: nat, nodes: seq<Node>, closed: map<nat, nat>)
    requires |nodes| == 1
    ensures AllKnown(gr, w, nodes, closed, {0}, None)
  {
  }
}
