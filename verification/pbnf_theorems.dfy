/** What holds over every run of the nblock scheduler. */
module PbnfTheorems {
  import opened FixedPoint
  import opened PbnfScheduler
  import Interference

  /** A run: any interleaving of the threads' steps from an initial state. */
  ghost predicate IsRun(c: Config, tr: seq<State>) {
    && tr != []
    && Initial(c, tr[0])
    && forall i: nat :: i + 1 < |tr| ==> CanStep(c, tr[i], tr[i + 1])
  }

  lemma {:induction false} RunKeepsInv(c: Config, tr: seq<State>, i: nat)
    requires c.Valid() && IsRun(c, tr) && i < |tr|
    ensures Inv(c, tr[i])
  {
    if i == 0 {
      InitialInv(c, tr[0]);
    } else {
      RunKeepsInv(c, tr, i - 1);
      assert CanStep(c, tr[i - 1], tr[(i - 1) + 1]);
      StepInv(c, tr[i - 1], tr[i], TheStep(c, tr[i - 1], tr[i]));
    }
  }

  lemma RunSteps(c: Config, tr: seq<State>, i: nat)
    requires c.Valid() && IsRun(c, tr) && i + 1 < |tr|
    ensures CanStep(c, tr[i], tr[i + 1]) && Inv(c, tr[i]) && Inv(c, tr[i + 1])
  {
    RunKeepsInv(c, tr, i);
    RunKeepsInv(c, tr, i + 1);
  }

  /** The scheduler's view of a projection. */
  ghost function ConfigOf(p: Interference.Projection, weight: nat, boundWeight: real): Config
    requires p.InRange()
  {
    Config(seq(|p.preds|, b requires 0 <= b < |p.preds| => p.Scope(b)),
           seq(|p.preds|, b requires 0 <= b < |p.preds| => p.Touched(b)),
           weight, boundWeight)
  }

  /** Projections with inverse neighbour lists, in which every block interferes
      with another, meet all that the scheduler relies on. */
  lemma ProjectionIsValid(p: Interference.Projection, weight: nat, boundWeight: real)
    requires p.InRange() && p.Inverse()
    requires forall b: nat :: b < |p.preds| ==> p.Scope(b) != {}
    requires FP_ONE <= weight && boundWeight * (FP_ONE as real) >= weight as real
    ensures ConfigOf(p, weight, boundWeight).Valid()
  {
    var c := ConfigOf(p, weight, boundWeight);
    forall a: nat, b: nat | a < |c.scope| && b < |c.scope|
      ensures a in c.scope[b] ==> a != b && b in c.scope[a]
      ensures a != b && c.touched[a] * c.touched[b] != {} ==> a in c.scope[b]
    {
      Interference.ScopeSymmetric(p, a, b);
      if a != b && p.Touched(a) * p.Touched(b) != {} {
        Interference.SharedBlockInterferes(p, a, b);
      }
    }
  }

  /** Two threads never hold blocks that share an open or closed list. */
  lemma NoSharedLists(c: Config, tr: seq<State>, i: nat, t: nat, u: nat)
    requires c.Valid() && IsRun(c, tr) && i < |tr|
    requires Holds(tr[i], t) && Holds(tr[i], u) && t != u
    ensures var a := tr[i].phase[t].block; var b := tr[i].phase[u].block;
            a < |c.touched| && b < |c.touched| && a != b && c.touched[a] !! c.touched[b]
  {
    RunKeepsInv(c, tr, i);
  }

  /** While a block is on the free list no search changes its open list, so the
      keys that order the free list are frozen. */
  lemma ListedKeysFrozen(c: Config, tr: seq<State>, i: nat, t: nat)
    requires c.Valid() && IsRun(c, tr) && i + 1 < |tr|
    requires Holds(tr[i], t) && SearchChanges(c, tr[i], tr[i + 1], tr[i].phase[t].block)
    ensures forall b :: b in tr[i].listed ==> b < |tr[i].open| && tr[i + 1].open[b] == tr[i].open[b]
  {
    RunKeepsInv(c, tr, i);
    forall b | b in tr[i].listed ensures b < |tr[i].open| && tr[i + 1].open[b] == tr[i].open[b] {
      SearchTouchesNoFreeBlock(c, tr[i], tr[i].phase[t].block, b);
    }
  }

  /** Hot blocks are pairwise apart and each of them waits for a block in use. */
  lemma HotBlocksWait(c: Config, tr: seq<State>, i: nat, a: nat, b: nat)
    requires c.Valid() && IsRun(c, tr) && i < |tr| && a in tr[i].hot && b in tr[i].hot
    ensures a < |c.scope| && b < |c.scope| && a !in c.scope[b]
    ensures c.scope[a] * tr[i].inuse != {} && a !in tr[i].inuse
  {
    RunKeepsInv(c, tr, i);
    var x :| x in c.scope[a] * tr[i].inuse;
    Symmetric(c, a, x);
  }

  /** The blocks that keep `b` from being free: its sigma is their number. */
  ghost function Waiting(c: Config, s: State, b: nat): set<nat>
    requires b < |c.scope|
  {
    c.scope[b] * s.inuse
  }

  /** Nothing a hot block waits for is added by a step after which it is hot. */
  lemma HotStep(c: Config, s: State, s': State, step: Step, b: nat)
    requires c.Valid() && Inv(c, s) && StepTo(c, s, s', step)
    requires b in s.hot && b in s'.hot
    ensures b < |c.scope| && Waiting(c, s', b) <= Waiting(c, s, b)
  {
    if step.First? {
      HotPick(c, s, s', step.t, b);
    } else if step.Next? {
      ReleaseBetween(c, s, step.t, step.u);
      HotPick(c, Released(c, s, step.t, step.u), s', step.t, b);
    } else if step.Resume? {
      var m, o :| PickAgain(c, s, m, o) && s' == Settle(s, m, step.t, o);
      if !s.done && s.listed != {} {
        var n :| TakeFront(c, s, m, o, n);
        HotTake(c, s, m, step.t, o, n, b);
      }
    }
  }

  lemma HotTake(c: Config, s: State, m: State, t: nat, o: Outcome, n: nat, b: nat)
    requires c.Valid() && Between(c, s, t) && TakeFront(c, s, m, o, n) && b in m.hot
    ensures b < |c.scope| && Waiting(c, m, b) <= Waiting(c, s, b)
  {
    assert b in s.hot && IsFree(c, s, n);
    Symmetric(c, n, b);
  }

  lemma HotPick(c: Config, s: State, s': State, t: nat, b: nat)
    requires c.Valid() && Between(c, s, t) && Picks(c, s, s', t) && b in s'.hot
    ensures b < |c.scope| && Waiting(c, s', b) <= Waiting(c, s, b)
  {
    hide TakeFront, ListedAreFree, UnlistedAreHopeless, HeldOnce, Config.Valid;
    var m, o :| Pick(c, s, m, o) && s' == Settle(s, m, t, o);
    if s.listed != {} && !s.done {
      var n :| TakeFront(c, s, m, o, n);
      HotTake(c, s, m, t, o, n, b);
    }
  }

  /** Livelock freedom: as long as a block stays hot no block of its scope is
      taken, so what it waits for only shrinks. */
  lemma {:induction false} HotOnlyShrinks(c: Config, tr: seq<State>, i: nat, j: nat, b: nat)
    requires c.Valid() && IsRun(c, tr) && i <= j < |tr|
    requires forall k: nat :: i <= k <= j ==> b in tr[k].hot
    ensures b < |c.scope| && Waiting(c, tr[j], b) <= Waiting(c, tr[i], b)
  {
    hide *;
    if i < j {
      HotOnlyShrinks(c, tr, i, j - 1, b);
      RunSteps(c, tr, j - 1);
      HotStep(c, tr[j - 1], tr[j], TheStep(c, tr[j - 1], tr[j]), b);
    } else {
      RunKeepsInv(c, tr, j);
      HotNotInUse(c, tr[j], b);
    }
  }

  /** Each release of a block in its scope lowers the sigma of a hot block by
      one; the release that brings it to zero makes the block cold and, if it
      has open nodes, puts it on the free list. */
  lemma ReleaseServesHot(c: Config, s: State, t: nat, b: nat)
    requires c.Valid() && Inv(c, s) && Holds(s, t) && b in s.hot
    requires s.phase[t].block in c.scope[b]
    ensures var s' := Release(c, s, s.phase[t].block);
            && |Waiting(c, s', b)| == |Waiting(c, s, b)| - 1
            && (b in s'.hot <==> |Waiting(c, s', b)| > 0)
            && (|Waiting(c, s', b)| == 0 && s.open[b] != {} ==> b in s'.listed)
  {
    var n := s.phase[t].block;
    assert n in s.inuse;
    HotNotInUse(c, s, b);
    hide Relist, IsFree, Config.Free, Config.Valid, UnlistedAreHopeless, ListedAreFree, HeldOnce;
    var s' := Release(c, s, n);
    assert n in Waiting(c, s, b);
    assert Waiting(c, s', b) == Waiting(c, s, b) - {n};
    assert |Waiting(c, s', b)| == 0 <==> Waiting(c, s', b) == {};
    ServedIsListed(c, s, n, b);
  }

  /** A hot block that has nothing left to wait for is free after the release, and was not before. */
  lemma ServedIsListed(c: Config, s: State, n: nat, b: nat)
    requires WellFormed(c, s) && Quiet(c, s.inuse, s.hot) && b in s.hot && b < |c.scope| && b !in s.inuse
    ensures var s' := Release(c, s, n);
            c.scope[b] * s'.inuse == {} && s.open[b] != {} ==> b in s'.listed
  {
    var s' := Release(c, s, n);
    if c.scope[b] * s'.inuse == {} && s.open[b] != {} {
      assert c.scope[b] !! s'.hot;
      assert c.Free(s'.inuse, s'.hot, s.open, b);
      assert !IsFree(c, s, b);
    }
  }

  lemma HotNotInUse(c: Config, s: State, b: nat)
    requires c.Valid() && Inv(c, s) && b in s.hot
    ensures b < |c.scope| && b !in s.inuse
  {
    var x :| x in c.scope[b] * s.inuse;
    Symmetric(c, b, x);
  }

  /** A hopeless node cannot lead to a solution better than the bound. */
  lemma HopelessNode(c: Config, open: set<Node>, bound: nat, x: Node)
    requires c.Valid() && c.Hopeless(open, bound) && x in open
    ensures F(x.g, x.h) >= bound
  {
    FPrimeBound(c.weight, x.g, x.h);
    WeightedBound(c.FPrimeOf(x), F(x.g, x.h), c.weight, bound, c.boundWeight);
  }

  /** The arithmetic of the pruning test, for the scaled and the unscaled weight. */
  lemma WeightedBound(fp: nat, f: nat, weight: nat, bound: nat, k: real)
    requires FP_ONE * fp <= weight * f && fp as real >= bound as real * k
    requires 0 < weight && k * (FP_ONE as real) >= weight as real
    ensures f >= bound
  {
    var w := weight as real;
    if f < bound {
      calc {
        w * (bound as real);
      <= { Scale(bound as real, w, k * (FP_ONE as real)); }
        bound as real * (k * (FP_ONE as real));
      ==
        (bound as real * k) * (FP_ONE as real);
      <= { Scale(FP_ONE as real, bound as real * k, fp as real); }
        fp as real * (FP_ONE as real);
      == { Product(FP_ONE, fp); }
        (FP_ONE * fp) as real;
      <=
        (weight * f) as real;
      == { Product(weight, f); }
        w * (f as real);
      }
      Strict(w, f as real, bound as real);
    }
  }

  lemma Product(a: nat, b: nat)
    ensures (a * b) as real == a as real * b as real
  {
  }

  lemma Scale(k: real, a: real, b: real)
    requires k >= 0.0 && a <= b
    ensures k * a <= k * b
  {
  }

  lemma Strict(k: real, a: real, b: real)
    requires k > 0.0 && a < b
    ensures k * a < k * b
  {
  }

  /** Termination is sound: once the search is declared finished no block is in
      use or hot, and no node left in any open list has an f below the bound,
      however much the bound has dropped since. */
  lemma DoneIsSound(c: Config, tr: seq<State>, i: nat, b: nat, x: Node)
    requires c.Valid() && IsRun(c, tr) && i < |tr| && tr[i].done
    ensures tr[i].inuse == {} && tr[i].hot == {}
    ensures b < |tr[i].open| && x in tr[i].open[b] ==> F(x.g, x.h) >= tr[i].bound
  {
    RunKeepsInv(c, tr, i);
    if b < |tr[i].open| && x in tr[i].open[b] {
      assert IsFree(c, tr[i], b);
      HopelessNode(c, tr[i].open[b], tr[i].bound, x);
    }
  }

  lemma PickExits(c: Config, s: State, m: State, o: Outcome)
    requires WellFormed(c, s) && (Pick(c, s, m, o) || PickAgain(c, s, m, o))
    ensures m.phase == s.phase && (o == Over ==> m.done)
  {
    hide WellFormed, AllSigmaZero, Config.BestOf, Config.Hopeless;
    if s.listed != {} && !s.done {
      var n :| TakeFront(c, s, m, o, n);
    }
  }

  lemma ExitStep(c: Config, s: State, s': State, step: Step, t: nat)
    requires WellFormed(c, s) && StepTo(c, s, s', step) && t in s'.phase && s'.phase[t].Exited?
    ensures s'.done || (t in s.phase && s.phase[t].Exited?)
  {
    hide WellFormed, Pick, PickAgain, Later, AtOnce, AllSigmaZero, Config.BestOf, Config.Hopeless;
    if step.First? || step.Next? {
      var r := if step.First? then s else Released(c, s, step.t, step.u);
      var m, o :| Pick(c, r, m, o) && s' == Settle(r, m, step.t, o);
      PickExits(c, r, m, o);
    } else if step.Resume? {
      var m, o :| PickAgain(c, s, m, o) && s' == Settle(s, m, step.t, o);
      PickExits(c, s, m, o);
    }
  }

  lemma DoneStays(c: Config, s: State, s': State, step: Step)
    requires WellFormed(c, s) && StepTo(c, s, s', step) && s.done
    ensures s'.done
  {
    hide WellFormed, Later, AtOnce, AllSigmaZero, Config.BestOf, Config.Hopeless;
  }

  /** Nobody gives up: a thread is sent away only when the search is over. */
  lemma {:induction false} ExitMeansDone(c: Config, tr: seq<State>, i: nat, t: nat)
    requires c.Valid() && IsRun(c, tr) && i < |tr| && t in tr[i].phase && tr[i].phase[t].Exited?
    ensures tr[i].done
  {
    hide Inv, StepTo, WellFormed;
    if i > 0 {
      RunSteps(c, tr, i - 1);
      var step := TheStep(c, tr[i - 1], tr[i]);
      ExitStep(c, tr[i - 1], tr[i], step, t);
      if !tr[i].done {
        ExitMeansDone(c, tr, i - 1, t);
        DoneStays(c, tr[i - 1], tr[i], step);
      }
    }
  }

  /** After the search is declared finished no open list changes any more. */
  lemma DoneIsFinal(c: Config, tr: seq<State>, i: nat)
    requires c.Valid() && IsRun(c, tr) && i + 1 < |tr| && tr[i].done
    ensures tr[i + 1].done && tr[i + 1].open == tr[i].open
  {
    RunKeepsInv(c, tr, i);
    var step := TheStep(c, tr[i], tr[i + 1]);
  }

  /** No lost wake-up: a thread that waits without having been signalled has nothing
      to wake up for.  As long as a block is listed, or once the search is over,
      every waiting thread has been signalled since it fell asleep. */
  lemma NoLostWakeUp(c: Config, tr: seq<State>, i: nat, t: nat)
    requires c.Valid() && IsRun(c, tr) && i < |tr| && t in tr[i].phase && tr[i].phase[t].Asleep?
    ensures tr[i].listed == {} && !tr[i].done
  {
    RunKeepsInv(c, tr, i);
    hide Quiet, ListedAreFree, UnlistedAreHopeless, HeldOnce;
    assert SomeAsleep(tr[i].phase);
  }

  lemma IsAtOnce(c: Config, s: State, t: nat)
    requires Inv(c, s) && Holds(s, t)
    requires var n := s.phase[t].block; n < |s.open| && s.open[n] != {} && c.scope[n] !! s.hot
    ensures AtOnce(c, s, s.phase[t].block)
  {
    var n := s.phase[t].block;
    hide UnlistedAreHopeless, ListedAreFree;
    assert n in s.inuse && c.scope[n] !! s.inuse;
  }

  /** The single signal of a release reaches a waiting thread, if there is one: it is sent when the block that is
      given back has open nodes and no hot block in its scope. */
  lemma SignalWakesOne(c: Config, s: State, s': State, t: nat, u: nat, v: nat)
    requires c.Valid() && Inv(c, s) && StepTo(c, s, s', Next(t, u)) && v in s.phase && s.phase[v].Asleep?
    requires var n := s.phase[t].block; n < |s.open| && s.open[n] != {} && c.scope[n] !! s.hot
    ensures exists w :: w in s.phase && s.phase[w].Asleep? && w in s'.phase && s'.phase[w] == Ready
  {
    hide Inv, Config.Valid, Config.Free, WellFormed, Pick, Later, AtOnce, Release;
    IsAtOnce(c, s, t);
    var r := Released(c, s, t, u);
    assert SomeAsleep(s.phase);
    assert u in r.phase && r.phase[u] == Ready;
    var m, o :| Pick(c, r, m, o) && s' == Settle(r, m, t, o);
    PickExits(c, r, m, o);
    assert s'.phase[u] == Ready;
  }

  /** A release that lists another block wakes every waiting thread. */
  lemma BroadcastWakesAll(c: Config, s: State, s': State, t: nat, u: nat, b: nat, v: nat)
    requires c.Valid() && Inv(c, s) && StepTo(c, s, s', Next(t, u)) && v in s.phase && s.phase[v].Asleep?
    requires b in Release(c, s, s.phase[t].block).listed && b !in s.listed && b != s.phase[t].block
    ensures v in s'.phase && s'.phase[v] == Ready
  {
    hide Inv, Config.Valid, Config.Free, WellFormed, Pick, AtOnce, Release;
    var n := s.phase[t].block;
    assert b in Later(c, s, n);
    var r := Released(c, s, t, u);
    assert v in r.phase && r.phase[v] == Ready;
    var m, o :| Pick(c, r, m, o) && s' == Settle(r, m, t, o);
    PickExits(c, r, m, o);
  }

  /** Whoever makes blocks cold, so that another is listed, wakes every waiting thread. */
  lemma CoolingWakesAll(c: Config, s: State, s': State, t: nat, b: nat, v: nat)
    requires c.Valid() && Inv(c, s) && StepTo(c, s, s', MakeCold(t)) && v in s.phase && s.phase[v].Asleep?
    requires b in s'.listed && b !in s.listed
    ensures v in s'.phase && s'.phase[v] == Ready
  {
    hide Inv, Config.Valid, Config.Free, WellFormed, Relist;
  }

  /** Not all sleep: until the search is over some thread is neither asleep nor
      gone, and afterwards nobody is asleep. */
  lemma NeverAllAsleep(c: Config, tr: seq<State>, i: nat)
    requires c.Valid() && IsRun(c, tr) && i < |tr|
    ensures tr[i].done ==> forall t :: t in tr[i].phase ==> !tr[i].phase[t].Asleep?
    ensures !tr[i].done ==> exists t :: t in tr[i].phase && (tr[i].phase[t].Holding? || tr[i].phase[t].Outside?)
  {
    RunKeepsInv(c, tr, i);
    if !tr[i].done {
      if tr[i].inuse == {} {
        var t :| t in tr[i].phase;
        assert tr[i].phase[t].Outside?;
      } else {
        var b :| b in tr[i].inuse;
        var t :| t in tr[i].phase && tr[i].phase[t] == Holding(b);
      }
    }
  }
}
