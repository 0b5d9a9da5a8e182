/** What holds over every run of hash-distributed A*. */
module HdaTheorems {
  import opened PriorityQueues
  import opened SearchGraphs
  import opened HdaStar
  import opened HdaQuiescence
  import opened HdaMessages

  // ----- no message is lost, duplicated or overtaken -----

  /** The messages that came from `a`. */
  function From(es: seq<Entry>, a: nat): seq<Msg> {
    if es == [] then [] else (if es[0].sender == a then [es[0].m] else []) + From(es[1..], a)
  }

  lemma {:induction false} FromAppend(es: seq<Entry>, en: Entry, a: nat)
    ensures From(es + [en], a) == From(es, a) + if en.sender == a then [en.m] else []
  {
    if es == [] {
      assert es + [en] == [en] && [en][1..] == [];
    } else {
      FromAppend(es[1..], en, a);
      assert (es + [en])[1..] == es[1..] + [en];
    }
  }

  /** What `a` ever sent to `b`, in order, is what `b` has treated, then what it
      has queued, then what `a` still has buffered. */
  ghost predicate Fifo(p: Picture, a: nat, b: nat)
    requires a < |p.vs| && b < |p.vs|
  {
    var va, vb := p.vs[a], p.vs[b];
    && b < |va.rest| && b < |va.sent|
    && From(vb.got + vb.unread, a) + va.rest[b] == va.sent[b]
  }

  lemma FifoStep(c: Config, p: Picture, p': Picture, t: nat, f: Effect, a: nat, b: nat)
    requires Happens(c, p, p', t, f) && a < |p.vs| && b < |p.vs| && Fifo(p, a, b)
    ensures Fifo(p', a, b)
  {
    hide EnterView, Config.Pruned, Config.Children;
    var va, vb, va', vb' := p.vs[a], p.vs[b], p'.vs[a], p'.vs[b];
    match f
    case Buffers(d, m) =>
      assert From(vb.got + vb.unread, a) + (va.rest[b] + [m]) == From(vb.got + vb.unread, a) + va.rest[b] + [m];
    case Pushes(d, m) =>
      if d == b {
        FromAppend(vb.got + vb.unread, Entry(t, m), a);
        assert vb.got + (vb.unread + [Entry(t, m)]) == vb.got + vb.unread + [Entry(t, m)];
        if a == t { assert va.rest[b] == [m] + va'.rest[b]; }
      }
    case Reads(en) =>
      assert vb.unread != [] ==> (vb.got + [vb.unread[0]]) + vb.unread[1..] == vb.got + vb.unread;
      EnterSame(p.vs[t], en.m);
    case Opens(m) => EnterSame(p.vs[t], m);
    case _ =>
  }

  lemma EnterSame(v: View, m: Msg)
    ensures var w := EnterView(v, m); w == v.(open := w.open, closed := w.closed)
  {
  }

  // ----- every generated state is accounted for -----

  ghost predicate Carries(v: View, m: Msg) {
    || m in v.pending
    || (exists d: nat :: d < |v.rest| && m in v.rest[d])
    || (exists i: nat :: i < |v.unread| && v.unread[i].m == m)
  }

  ghost predicate Flying(p: Picture, m: Msg) { exists u: nat :: u < |p.vs| && Carries(p.vs[u], m) }

  ghost predicate Knows(v: View, m: Msg) { m.x in v.closed && v.closed[m.x] <= m.g }

  /** The message is on its way, or its owner knows as good a way, or it is hopeless. */
  ghost predicate Covered(c: Config, p: Picture, m: Msg) {
    Flying(p, m) || (c.owner(m.x) < |p.vs| && Knows(p.vs[c.owner(m.x)], m)) || c.Pruned(m, p.bound)
  }

  /** Nothing more has to be done about a state reached at this cost. */
  ghost predicate Settled(c: Config, p: Picture, m: Msg) {
    || c.Pruned(m, p.bound)
    || ((c.graph.goal(m.x) ==> p.bound <= m.g) && forall ch :: ch in c.Children(m) ==> Covered(c, p, ch))
  }

  /** Messages go to their owners, and lists hold their owner's states. */
  ghost predicate OwnedView(c: Config, u: nat, v: View) {
    && (forall d: nat, m: Msg :: d < |v.rest| && m in v.rest[d] ==> c.owner(m.x) == d)
    && (forall i: nat :: i < |v.unread| ==> c.owner(v.unread[i].m.x) == u)
    && (forall x :: x in v.closed ==> c.owner(x) == u)
  }

  ghost predicate Owned(c: Config, p: Picture) {
    forall u: nat :: u < |p.vs| ==> OwnedView(c, u, p.vs[u])
  }

  lemma EnterKnows(v: View, m: Msg)
    ensures Knows(EnterView(v, m), m)
    ensures forall n :: Knows(v, n) ==> Knows(EnterView(v, m), n)
    ensures forall x :: x in EnterView(v, m).closed <==> x in v.closed || x == m.x
  {
  }

  lemma OwnedStep(c: Config, p: Picture, p': Picture, t: nat, f: Effect)
    requires Owned(c, p) && Happens(c, p, p', t, f)
    ensures Owned(c, p')
  {
    hide Config.Pruned, Config.Children, EnterView;
    forall u: nat | u < |p'.vs| ensures OwnedView(c, u, p'.vs[u]) {
      assert OwnedView(c, u, p.vs[u]) && OwnedView(c, t, p.vs[t]);
      match f
      case Opens(m) => EnterSame(p.vs[t], m); EnterKnows(p.vs[t], m);
      case Reads(en) => EnterSame(p.vs[t], en.m); EnterKnows(p.vs[t], en.m);
      case _ =>
    }
  }

  /** Only the step that treats a message takes it out of the traffic. */
  predicate Treats(c: Config, bound: nat, f: Effect, m: Msg) {
    match f
    case Opens(n) => n == m
    case Reads(en) => en.m == m
    case Skips(n) => n == m
    case _ => false
  }

  lemma FlyingStep(c: Config, p: Picture, p': Picture, t: nat, f: Effect, m: Msg)
    requires Happens(c, p, p', t, f) && Flying(p, m)
    ensures Flying(p', m) || Treats(c, p.bound, f, m)
  {
    hide Config.Pruned, Config.Children, EnterView, Carries;
    var u: nat :| u < |p.vs| && Carries(p.vs[u], m);
    if u != t {
      if p'.vs[u] != p.vs[u] { GetsCarry(p.vs[u], p'.vs[u], m, Entry(t, f.m)); }
      assert Carries(p'.vs[u], m);
    } else if f.Pushes? && f.m == m {
      GotCarry(p.vs[f.d], p'.vs[f.d], Entry(t, m));
      assert Carries(p'.vs[f.d], m);
    } else if !Treats(c, p.bound, f, m) {
      OwnCarry(c, p, t, p.vs[t], p'.vs[t], f, m);
      assert Carries(p'.vs[t], m);
    }
  }

  lemma GetsCarry(v: View, v': View, m: Msg, en: Entry)
    requires Carries(v, m) && v' == v.(unread := v.unread + [en])
    ensures Carries(v', m)
  {
    if i: nat :| i < |v.unread| && v.unread[i].m == m {
      assert v'.unread[i].m == m;
    }
  }

  lemma GotCarry(v: View, v': View, en: Entry)
    requires v' == v.(unread := v.unread + [en])
    ensures Carries(v', en.m)
  {
    assert v'.unread[|v.unread|] == en;
  }

  /** A message that a thread does not treat or push stays with it. */
  lemma OwnCarry(c: Config, p: Picture, t: nat, v: View, v': View, f: Effect, m: Msg)
    requires Own(c, p, t, v, v', f) && Carries(v, m) && !Treats(c, p.bound, f, m) && !(f.Pushes? && f.m == m)
    ensures Carries(v', m)
  {
    hide Config.Pruned, Config.Children, EnterView;
    if f.Opens? { EnterSame(v, f.m); }
    if f.Reads? { EnterSame(v, f.en.m); }
    if d: nat :| d < |v.rest| && m in v.rest[d] {
      assert d < |v'.rest| && m in v'.rest[d];
    } else if i: nat :| i < |v.unread| && v.unread[i].m == m {
      if f.Reads? { assert v'.unread[i - 1].m == m; } else { assert v'.unread[i].m == m; }
    } else {
      assert m in v.pending;
      if f.Buffers? && m == f.m { BufferCarries(v', f.d, m); }
    }
  }

  lemma BufferCarries(v: View, d: nat, m: Msg)
    requires d < |v.rest| && m in v.rest[d]
    ensures Carries(v, m)
  {
  }

  lemma CoveredStep(c: Config, p: Picture, p': Picture, t: nat, f: Effect, m: Msg)
    requires Owned(c, p) && Happens(c, p, p', t, f) && Covered(c, p, m)
    ensures Covered(c, p', m)
  {
    hide Config.Children, EnterView, Carries;
    assert p'.bound <= p.bound;
    if Flying(p, m) {
      FlyingStep(c, p, p', t, f, m);
      if Treats(c, p.bound, f, m) { TreatedStep(c, p, p', t, f, m); }
    } else if c.owner(m.x) < |p.vs| && Knows(p.vs[c.owner(m.x)], m) {
      KnownStep(c, p, p', t, f, m, c.owner(m.x));
    }
  }

  lemma TreatedStep(c: Config, p: Picture, p': Picture, t: nat, f: Effect, m: Msg)
    requires Owned(c, p) && Happens(c, p, p', t, f) && Treats(c, p.bound, f, m)
    ensures Covered(c, p', m)
  {
    hide Config.Children, EnterView, Flying, Knows;
    match f
    case Opens(n) => EnterKnows(p.vs[t], n); EnterSame(p.vs[t], n); SameKnows(EnterView(p.vs[t], n), p'.vs[t], n);
    case Reads(en) =>
      assert OwnedView(c, t, p.vs[t]) && p.vs[t].unread[0] == en;
      EnterKnows(p.vs[t], en.m);
      EnterSame(p.vs[t], en.m);
      if !c.Pruned(en.m, p.bound) { SameKnows(EnterView(p.vs[t], en.m), p'.vs[t], en.m); }
    case _ =>
  }

  lemma SameKnows(v: View, v': View, m: Msg)
    requires Knows(v, m) && v'.closed == v.closed
    ensures Knows(v', m)
  {
  }

  lemma KnownStep(c: Config, p: Picture, p': Picture, t: nat, f: Effect, m: Msg, u: nat)
    requires Happens(c, p, p', t, f) && u < |p.vs| && Knows(p.vs[u], m)
    ensures Knows(p'.vs[u], m)
  {
    hide Config.Children, Config.Pruned, EnterView, Knows;
    if u != t || !(f.Opens? || f.Reads?) {
      SameKnows(p.vs[u], p'.vs[u], m);
    } else {
      var n := if f.Opens? then f.m else f.en.m;
      EnterKnows(p.vs[t], n);
      EnterSame(p.vs[t], n);
      if f.Reads? && c.Pruned(n, p.bound) { SameKnows(p.vs[t], p'.vs[t], m); }
      else { SameKnows(EnterView(p.vs[t], n), p'.vs[t], m); }
    }
  }

  lemma SettledStep(c: Config, p: Picture, p': Picture, t: nat, f: Effect, m: Msg)
    requires Owned(c, p) && Happens(c, p, p', t, f) && Settled(c, p, m)
    ensures Settled(c, p', m)
  {
    hide Covered, Config.Children, Own;
    BoundFalls(c, p, p', t, f);
    if !c.Pruned(m, p.bound) {
      forall ch | ch in c.Children(m) ensures Covered(c, p', ch) { CoveredStep(c, p, p', t, f, ch); }
    }
  }

  lemma BoundFalls(c: Config, p: Picture, p': Picture, t: nat, f: Effect)
    requires Happens(c, p, p', t, f)
    ensures p'.bound <= p.bound
  {
  }

  // ----- who still has work to do -----

  function WorkMsg(w: Work): Option<Msg> { if w.Rests? then None else Some(w.m) }

  /** Every state in a closed list is open, or taken and not yet expanded, or settled. */
  ghost predicate ViewWorks(c: Config, p: Picture, v: View) {
    && v.open <= v.closed.Keys
    && (forall x :: x in v.closed && x !in v.open && WorkMsg(v.work) != Some(Msg(x, v.closed[x])) ==>
          Settled(c, p, Msg(x, v.closed[x])))
    && (v.work.Offers? ==> v.work.b <= v.work.m.g)
    && (v.work.Cleared? && c.graph.goal(v.work.m.x) ==> p.bound <= v.work.m.g)
  }

  ghost predicate RootWorks(c: Config, p: Picture) {
    || (exists u: nat :: u < |p.vs| && (p.vs[u].root || WorkMsg(p.vs[u].work) == Some(Msg(c.graph.init, 0))))
    || Settled(c, p, Msg(c.graph.init, 0))
  }

  ghost predicate Works(c: Config, p: Picture) {
    && Owned(c, p) && RootWorks(c, p)
    && forall u: nat :: u < |p.vs| ==> ViewWorks(c, p, p.vs[u])
  }

  /** Giving up or expanding the state that was taken settles it. */
  lemma WorkDone(c: Config, p: Picture, p': Picture, t: nat, f: Effect, m: Msg)
    requires Owned(c, p) && Happens(c, p, p', t, f) && ViewWorks(c, p, p.vs[t])
    requires WorkMsg(p.vs[t].work) == Some(m) && WorkMsg(p'.vs[t].work) != Some(m)
    ensures Settled(c, p', m)
  {
    hide EnterView, Covered, Config.Children;
    if f.Generates? {
      forall ch | ch in c.Children(m) ensures Covered(c, p', ch) {
        PendingCovered(c, p', t, ch);
      }
    }
  }

  lemma PendingCovered(c: Config, p: Picture, t: nat, m: Msg)
    requires t < |p.vs| && m in p.vs[t].pending
    ensures Covered(c, p, m)
  {
    assert Carries(p.vs[t], m);
  }

  lemma RootStep(c: Config, p: Picture, p': Picture, t: nat, f: Effect)
    requires Works(c, p) && Happens(c, p, p', t, f)
    ensures RootWorks(c, p')
  {
    hide EnterView, Settled, Config.Children, Owned;
    var m := Msg(c.graph.init, 0);
    if Settled(c, p, m) {
      SettledStep(c, p, p', t, f, m);
    } else {
      var u: nat :| u < |p.vs| && (p.vs[u].root || WorkMsg(p.vs[u].work) == Some(m));
      if u == t && WorkMsg(p.vs[u].work) == Some(m) && WorkMsg(p'.vs[u].work) != Some(m) {
        WorkDone(c, p, p', t, f, m);
      } else {
        RootKept(c, p, p', t, f, u);
      }
    }
  }

  lemma RootKept(c: Config, p: Picture, p': Picture, t: nat, f: Effect, u: nat)
    requires Happens(c, p, p', t, f) && u < |p.vs|
    requires p.vs[u].root || WorkMsg(p.vs[u].work) == Some(Msg(c.graph.init, 0))
    requires u == t && WorkMsg(p.vs[u].work) == Some(Msg(c.graph.init, 0)) ==> WorkMsg(p'.vs[u].work) == Some(Msg(c.graph.init, 0))
    ensures p'.vs[u].root || WorkMsg(p'.vs[u].work) == Some(Msg(c.graph.init, 0))
  {
    hide EnterView, Config.Children, Config.Pruned;
    if f.Opens? { EnterSame(p.vs[t], f.m); }
    if f.Reads? { EnterSame(p.vs[t], f.en.m); }
  }

  lemma WorksStep(c: Config, p: Picture, p': Picture, t: nat, f: Effect)
    requires Works(c, p) && Happens(c, p, p', t, f)
    ensures Works(c, p')
  {
    OwnedStep(c, p, p', t, f);
    RootStep(c, p, p', t, f);
    hide Owned, RootWorks, ViewWorks;
    forall u: nat | u < |p'.vs| ensures ViewWorks(c, p', p'.vs[u]) {
      if u == t { OwnWorks(c, p, p', t, f); } else { OtherWorks(c, p, p', t, f, u); }
    }
  }

  lemma OtherWorks(c: Config, p: Picture, p': Picture, t: nat, f: Effect, u: nat)
    requires Owned(c, p) && Happens(c, p, p', t, f) && u < |p.vs| && u != t && ViewWorks(c, p, p.vs[u])
    ensures ViewWorks(c, p', p'.vs[u])
  {
    hide Owned, Settled;
    var v, v' := p.vs[u], p'.vs[u];
    forall x | x in v'.closed && x !in v'.open && WorkMsg(v'.work) != Some(Msg(x, v'.closed[x]))
      ensures Settled(c, p', Msg(x, v'.closed[x]))
    {
      SettledStep(c, p, p', t, f, Msg(x, v.closed[x]));
    }
    BoundFalls(c, p, p', t, f);
  }

  lemma OwnWorks(c: Config, p: Picture, p': Picture, t: nat, f: Effect)
    requires Owned(c, p) && Happens(c, p, p', t, f) && ViewWorks(c, p, p.vs[t])
    ensures ViewWorks(c, p', p'.vs[t])
  {
    hide Owned, Settled, Config.Children;
    var v, v' := p.vs[t], p'.vs[t];
    forall x | x in v'.closed && x !in v'.open && WorkMsg(v'.work) != Some(Msg(x, v'.closed[x]))
      ensures Settled(c, p', Msg(x, v'.closed[x]))
    {
      var m := Msg(x, v'.closed[x]);
      NotNew(c, p, t, v, v', f, x);
      if WorkMsg(v.work) == Some(m) {
        WorkDone(c, p, p', t, f, m);
      } else {
        SettledStep(c, p, p', t, f, m);
      }
    }
    BoundFalls(c, p, p', t, f);
    OwnFits(c, p, p', t, f);
  }

  /** A closed state that is neither open nor taken after the step was there before. */
  lemma NotNew(c: Config, p: Picture, t: nat, v: View, v': View, f: Effect, x: nat)
    requires Own(c, p, t, v, v', f) && x in v'.closed && x !in v'.open && WorkMsg(v'.work) != Some(Msg(x, v'.closed[x]))
    ensures x in v.closed && v'.closed[x] == v.closed[x] && x !in v.open
  {
    hide Config.Pruned, Config.Children;
  }

  lemma OwnFits(c: Config, p: Picture, p': Picture, t: nat, f: Effect)
    requires Happens(c, p, p', t, f) && ViewWorks(c, p, p.vs[t])
    ensures var v' := p'.vs[t];
            && v'.open <= v'.closed.Keys
            && (v'.work.Offers? ==> v'.work.b <= v'.work.m.g)
            && (v'.work.Cleared? && c.graph.goal(v'.work.m.x) ==> p'.bound <= v'.work.m.g)
  {
    hide Settled, Config.Children, Config.Pruned;
  }

  // ----- every cost is that of a real path -----

  ghost predicate IsSolutionCost(c: Config, b: nat) {
    exists q :: c.graph.IsSolution(c.graph.init, q) && Cost(q) == b
  }

  ghost predicate RealMsg(c: Config, m: Msg) { Reachable(c.graph, m.x, m.g) }

  ghost predicate RealView(c: Config, v: View) {
    && (forall m :: m in v.pending ==> RealMsg(c, m))
    && (forall d: nat, m: Msg :: d < |v.rest| && m in v.rest[d] ==> RealMsg(c, m))
    && (forall en :: en in v.unread ==> RealMsg(c, en.m))
    && (forall x :: x in v.closed ==> RealMsg(c, Msg(x, v.closed[x])))
    && (!v.work.Rests? ==> RealMsg(c, v.work.m))
    && (v.work.Offers? ==> IsSolutionCost(c, v.work.b))
  }

  ghost predicate Real(c: Config, p: Picture) {
    && (forall u: nat :: u < |p.vs| ==> RealView(c, p.vs[u]))
    && (p.best.Some? ==> IsSolutionCost(c, p.best.value))
    && (p.bound == c.start || IsSolutionCost(c, p.bound))
  }

  lemma GoalCost(c: Config, m: Msg)
    requires RealMsg(c, m) && c.graph.goal(m.x)
    ensures IsSolutionCost(c, m.g)
  {
    var q :| c.graph.IsPath(c.graph.init, q) && End(c.graph.init, q) == m.x && Cost(q) == m.g;
    assert c.graph.IsSolution(c.graph.init, q);
  }

  lemma ChildrenReal(c: Config, m: Msg)
    requires RealMsg(c, m)
    ensures forall ch :: ch in c.Children(m) ==> RealMsg(c, ch)
  {
    forall i: nat | i < |c.Children(m)| ensures RealMsg(c, c.Children(m)[i]) {
      ReachNext(c.graph, m.x, m.g, c.graph.succ(m.x)[i]);
    }
  }

  lemma RealStep(c: Config, p: Picture, p': Picture, t: nat, f: Effect)
    requires Real(c, p) && Happens(c, p, p', t, f)
    ensures Real(c, p')
  {
    hide RealMsg, IsSolutionCost, Config.Pruned, Config.Children, EnterView;
    assert RealView(c, p.vs[t]);
    if f.Generates? { ChildrenReal(c, f.m); }
    if f.Enters? || f.Chooses? { GoalCost(c, f.m); }
    if f.Takes? && f.root { RootReal(c); }
    OwnReal(c, p, t, p.vs[t], p'.vs[t], f);
    forall u: nat | u < |p'.vs| ensures RealView(c, p'.vs[u]) {
      assert RealView(c, p.vs[u]);
    }
  }

  lemma RootReal(c: Config)
    ensures RealMsg(c, Msg(c.graph.init, 0))
  {
    ReachInit(c.graph);
  }

  lemma OwnReal(c: Config, p: Picture, t: nat, v: View, v': View, f: Effect)
    requires RealView(c, v) && Own(c, p, t, v, v', f)
    requires p.best.Some? ==> IsSolutionCost(c, p.best.value)
    requires f.Generates? ==> forall ch :: ch in c.Children(f.m) ==> RealMsg(c, ch)
    requires f.Enters? || f.Chooses? ==> IsSolutionCost(c, f.m.g)
    requires f.Takes? && f.root ==> RealMsg(c, Msg(c.graph.init, 0))
    ensures RealView(c, v')
    ensures f.Pushes? ==> RealMsg(c, f.m)
    ensures f.Enters? ==> IsSolutionCost(c, f.b)
    ensures f.Lowers? ==> IsSolutionCost(c, f.b)
  {
    hide RealMsg, IsSolutionCost, Config.Pruned, Config.Children;
  }

  // ----- the result -----

  /** A settled state bounds the cost of every solution through it, unless some
      state on the way is still flying or has work left. */
  lemma {:induction false} SettledBounds(c: Config, p: Picture, m: Msg, q: seq<Edge>)
    requires c.graph.Admissible() && Quiet(c, p) && Settled(c, p, m) && c.graph.IsSolution(m.x, q)
    ensures p.bound <= m.g + Cost(q)
    decreases |q|
  {
    hide Carries;
    if c.Pruned(m, p.bound) {
      assert c.graph.h(m.x) <= Cost(q);
    } else if q != [] {
      var i: nat :| i < |c.graph.succ(m.x)| && c.graph.succ(m.x)[i] == q[0];
      var ch := c.Children(m)[i];
      assert ch == Msg(q[0].to, m.g + q[0].cost) && ch in c.Children(m);
      if c.Pruned(ch, p.bound) {
        assert c.graph.IsSolution(ch.x, q[1..]);
        assert c.graph.h(ch.x) <= Cost(q[1..]);
      } else {
        var v := p.vs[c.owner(ch.x)];
        SettledBounds(c, p, Msg(ch.x, v.closed[ch.x]), q[1..]);
      }
    }
  }

  /** Nothing is flying, nothing is open, and everything known is settled. */
  ghost predicate Quiet(c: Config, p: Picture) {
    && (forall m :: !Flying(p, m))
    && (forall u: nat, x: nat :: u < |p.vs| && x in p.vs[u].closed ==> Settled(c, p, Msg(x, p.vs[u].closed[x])))
    && Settled(c, p, Msg(c.graph.init, 0))
  }

  lemma IdleIsQuiet(c: Config, p: Picture)
    requires Works(c, p)
    requires forall u: nat :: u < |p.vs| ==>
      var v := p.vs[u]; v.work.Rests? && v.pending == [] && v.open == {} && !v.root && v.unread == []
                        && forall d: nat :: d < |v.rest| ==> v.rest[d] == []
    ensures Quiet(c, p)
  {
    hide Settled, Owned;
  }

  ghost predicate AllInv(c: Config, s: State) {
    Inv(c, s) && AllBounds(c, s) && Works(c, PictureOf(c, s)) && Real(c, PictureOf(c, s))
    && forall a: nat, b: nat :: a < |s.th| && b < |s.th| ==> Fifo(PictureOf(c, s), a, b)
  }

  lemma InitialAll(c: Config, s: State)
    requires c.Valid() && Initial(c, s)
    ensures AllInv(c, s)
  {
    InitialInv(c, s);
    assert AllBounds(c, s);
    var p := PictureOf(c, s);
    assert p.vs[c.rootAt].root;
    assert RootWorks(c, p);
    forall a: nat, b: nat | a < |s.th| && b < |s.th| ensures Fifo(p, a, b) {
      assert p.vs[b].got + p.vs[b].unread == [];
    }
  }

  lemma StepAll(c: Config, s: State, s': State, e: Step)
    requires c.Valid() && AllInv(c, s) && StepTo(c, s, s', e)
    ensures AllInv(c, s')
  {
    hide Inv, StepTo, AllBounds, Works, Real, Fifo, PictureOf, Happens;
    HdaQuiescence.StepInv(c, s, s', e);
    StepRefines(c, s, s', e);
    SameSize(c, s);
    SameSize(c, s');
    var p, p' := PictureOf(c, s), PictureOf(c, s');
    if p' != p {
      var f :| Happens(c, p, p', e.t, f);
      WorksStep(c, p, p', e.t, f);
      RealStep(c, p, p', e.t, f);
      forall a: nat, b: nat | a < |s'.th| && b < |s'.th| ensures Fifo(p', a, b) {
        FifoStep(c, p, p', e.t, f, a, b);
      }
    }
  }

  lemma SameSize(c: Config, s: State)
    requires Inv(c, s) && AllBounds(c, s)
    ensures |PictureOf(c, s).vs| == |s.th| == c.n
  {
  }

  lemma {:induction false} RunKeepsAll(c: Config, tr: seq<State>, i: nat)
    requires c.Valid() && IsRun(c, tr) && i < |tr|
    ensures AllInv(c, tr[i])
  {
    hide AllInv, Initial, CanStep;
    if i == 0 {
      InitialAll(c, tr[0]);
    } else {
      RunKeepsAll(c, tr, i - 1);
      assert CanStep(c, tr[i - 1], tr[(i - 1) + 1]);
      StepAll(c, tr[i - 1], tr[i], TheStep(c, tr[i - 1], tr[i]));
    }
  }

  /** Messages are neither lost nor duplicated nor reordered: for every pair of
      threads the messages treated, then queued, then buffered are, in this order,
      exactly those that were sent. */
  lemma MessagesConserved(c: Config, tr: seq<State>, i: nat, a: nat, b: nat)
    requires c.Valid() && IsRun(c, tr) && i < |tr| && a < c.n && b < c.n
    ensures |tr[i].th| == c.n && Bounds(c, tr[i].th[a]) && Bounds(c, tr[i].th[b])
    ensures var va, vb := ViewOf(c, tr[i].th[a]), ViewOf(c, tr[i].th[b]);
            && b < |va.rest| && b < |va.sent|
            && From(vb.got + vb.unread, a) + va.rest[b] == va.sent[b]
  {
    RunKeepsAll(c, tr, i);
    hide Works, Real;
    SameSize(c, tr[i]);
    hide Inv;
    assert Fifo(PictureOf(c, tr[i]), a, b);
  }

  /** When the search is over every message that was ever sent has been treated,
      in the order in which it was sent. */
  lemma AllMessagesTreated(c: Config, tr: seq<State>, i: nat, a: nat, b: nat)
    requires c.Valid() && IsRun(c, tr) && i < |tr| && tr[i].done && a < c.n && b < c.n
    ensures |tr[i].th| == c.n && b < |tr[i].th[a].sent| && From(tr[i].th[b].got, a) == tr[i].th[a].sent[b]
  {
    hide IsRun, Idle, ViewOf, Bounds, IsComplete;
    FullCounterMeansQuiescent(c, tr, i);
    MessagesConserved(c, tr, i, a, b);
    assert Idle(c, tr[i], a) && Idle(c, tr[i], b);
    IdleView(c, tr[i], a);
    IdleView(c, tr[i], b);
    var vb := ViewOf(c, tr[i].th[b]);
    assert vb.got + [] == vb.got;
  }

  lemma IdleView(c: Config, s: State, t: nat)
    requires t < |s.th| && Idle(c, s, t) && Bounds(c, s.th[t])
    ensures var v := ViewOf(c, s.th[t]);
            && v.work.Rests? && v.pending == [] && v.open == {} && !v.root && v.unread == []
            && (forall d: nat :: d < |v.rest| ==> v.rest[d] == []) && v.sent == s.th[t].sent && v.got == s.th[t].got
  {
  }

  /** Hash-distributed A* is optimal: when the counter is full, or the search has
      been declared done, the bound does not exceed the cost of any solution, and
      it is the initial bound or the cost of a solution. */
  lemma ResultIsOptimal(c: Config, tr: seq<State>, i: nat, q: seq<Edge>)
    requires c.Valid() && c.graph.Admissible() && IsRun(c, tr) && i < |tr| && (tr[i].done || IsComplete(c, tr[i]))
    ensures c.graph.IsSolution(c.graph.init, q) ==> tr[i].bound <= Cost(q)
    ensures tr[i].bound == c.start || IsSolutionCost(c, tr[i].bound)
  {
    RunKeepsAll(c, tr, i);
    FullCounterMeansQuiescent(c, tr, i);
    var s := tr[i];
    SameSize(c, s);
    hide Works, Fifo, Inv, IsRun, IsComplete;
    var p := PictureOf(c, s);
    assert p.bound == s.bound && Real(c, p);
    forall u: nat | u < |p.vs|
      ensures var v := p.vs[u]; v.work.Rests? && v.pending == [] && v.open == {} && !v.root && v.unread == []
                                && forall d: nat :: d < |v.rest| ==> v.rest[d] == []
    {
      IdleView(c, s, u);
    }
    hide ViewOf, Idle;
    IdleIsQuiet(c, p);
    hide Quiet;
    if c.graph.IsSolution(c.graph.init, q) {
      QuietBounds(c, p, q);
    }
  }

  lemma QuietBounds(c: Config, p: Picture, q: seq<Edge>)
    requires c.graph.Admissible() && Quiet(c, p) && c.graph.IsSolution(c.graph.init, q)
    ensures p.bound <= Cost(q)
  {
    SettledBounds(c, p, Msg(c.graph.init, 0), q);
  }

  // ----- reading the best solution -----

  /** Whoever is about to read the best solution has entered one of its own. */
  ghost predicate Entered(s: State) {
    forall t: nat :: t < |s.th| && s.th[t].pc.ReadBest? ==> s.best.Some? && s.best.value <= s.th[t].pc.m.g
  }

  /** Only thread `t` moves on, not to reading the best solution, which stays the same. */
  ghost predicate Elsewhere(s: State, s': State, t: nat) {
    && |s'.th| == |s.th| && t < |s.th| && s'.best == s.best && !s'.th[t].pc.ReadBest?
    && forall u: nat :: u < |s.th| && u != t ==> s'.th[u].pc == s.th[u].pc
  }

  lemma ListSteps(c: Config, s: State, s': State, e: Step)
    requires e.t < |s.th|
    ensures TakeStep(c, s, s', e) ==> Elsewhere(s, s', e.t)
    ensures forall d, has, first :: FlushStep(c, s, s', e.t, d, has, first) ==> Elsewhere(s, s', e.t)
    ensures forall has, first :: RecvStep(c, s, s', e.t, has, first) || LockedStep(s, s', e.t, has, first) ==> Elsewhere(s, s', e.t)
  {
  }

  lemma ProcessStays(c: Config, s: State, s': State, t: nat, i: nat, has: bool, first: bool)
    requires t < |s.th| && ProcessStep(c, s, s', t, i, has, first)
    ensures Elsewhere(s, s', t)
  {
  }

  lemma DeliverStays(c: Config, s: State, s': State, t: nat, m: Msg, rest: seq<Msg>)
    requires t < |s.th| && DeliverStep(c, s, s', t, m, rest)
    ensures Elsewhere(s, s', t)
  {
  }

  lemma PushStays(s: State, s': State, t: nat, d: nat, i: nat, k: Cont)
    requires t < |s.th| && d < |s.th| && (PushStep(s, s', t, d, i, k) || ClearStep(s, s', t, d, k))
    ensures Elsewhere(s, s', t)
  {
  }

  /** The steps of a thread that deals with another one's queue. */
  predicate Dealing(pc: Pc) {
    pc.LockFor? || pc.Pushing? || pc.Posting? || pc.Uncounted? || pc.Raising? || pc.Clearing? || pc.Deliver?
  }

  lemma TellingStays(c: Config, s: State, s': State, e: Step)
    requires StepTo(c, s, s', e) && Dealing(s.th[e.t].pc)
    ensures Elsewhere(s, s', e.t)
  {
    hide Config.Pruned, DeliverStep, PushStep, ClearStep;
    match s.th[e.t].pc
    case Deliver(ms) => DeliverStays(c, s, s', e.t, ms[0], ms[1..]);
    case Pushing(d, i, k) => PushStays(s, s', e.t, d, i, k);
    case Clearing(d, k) => PushStays(s, s', e.t, d, 0, k);
    case _ =>
  }

  lemma OwnStays(c: Config, s: State, s': State, e: Step)
    requires StepTo(c, s, s', e) && !Dealing(s.th[e.t].pc) && !s.th[e.t].pc.Publish?
    ensures Elsewhere(s, s', e.t)
  {
    hide Config.Children, Config.Pruned, Enter, IsComplete, TakeStep, FlushStep, RecvStep, LockedStep, ProcessStep;
    ListSteps(c, s, s', e);
    match s.th[e.t].pc
    case Processing(i, has, first) => ProcessStays(c, s, s', e.t, i, has, first);
    case _ =>
  }

  lemma PublishStays(c: Config, s: State, s': State, e: Step)
    requires StepTo(c, s, s', e) && s.th[e.t].pc.Publish?
    ensures |s'.th| == |s.th| && forall u: nat :: u < |s.th| && u != e.t ==> s'.th[u].pc == s.th[u].pc
    ensures s'.best == Some(Better(s.best, s.th[e.t].pc.m.g)) && s'.th[e.t].pc == ReadBest(s.th[e.t].pc.m)
  {
  }

  lemma OthersStay(c: Config, s: State, s': State, e: Step)
    requires StepTo(c, s, s', e)
    ensures |s'.th| == |s.th| && forall u: nat :: u < |s.th| && u != e.t ==> s'.th[u].pc == s.th[u].pc
    ensures !s.th[e.t].pc.Publish? ==> s'.best == s.best && !s'.th[e.t].pc.ReadBest?
    ensures s.th[e.t].pc.Publish? ==> s'.best == Some(Better(s.best, s.th[e.t].pc.m.g)) && s'.th[e.t].pc == ReadBest(s.th[e.t].pc.m)
  {
    assert e.t < |s.th|;
    hide StepTo;
    if s.th[e.t].pc.Publish? { PublishStays(c, s, s', e); }
    else if Dealing(s.th[e.t].pc) { TellingStays(c, s, s', e); }
    else { OwnStays(c, s, s', e); }
  }

  lemma {:induction false} RunEntered(c: Config, tr: seq<State>, i: nat)
    requires c.Valid() && IsRun(c, tr) && i < |tr|
    ensures Entered(tr[i])
  {
    hide StepTo;
    if i > 0 {
      RunEntered(c, tr, i - 1);
      assert CanStep(c, tr[i - 1], tr[(i - 1) + 1]);
      OthersStay(c, tr[i - 1], tr[i], TheStep(c, tr[i - 1], tr[i]));
    }
  }

  /** What is read is the best solution entered so far, by whatever thread. */
  lemma BestIsRead(c: Config, tr: seq<State>, i: nat, t: nat)
    requires c.Valid() && IsRun(c, tr) && i < |tr| && t < |tr[i].th| && tr[i].th[t].pc.ReadBest?
    ensures tr[i].best == Some(Better(tr[i].best, tr[i].th[t].pc.m.g))
  {
    RunEntered(c, tr, i);
  }
}
