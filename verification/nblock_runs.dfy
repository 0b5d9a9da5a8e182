/**
 * The nblock graph in the hands of its threads: whatever the threads call, in
 * whatever order, is a run of the scheduler's state machine.
 */
module NBlockRuns {
  import opened PriorityQueues
  import opened PbnfScheduler
  import opened PbnfTheorems
  import opened NBlockGraphs

  /** What the graph stands for, together with the bound and the threads. */
  ghost function WithThreads(v: State, bound: nat, phase: map<nat, Phase>): State {
    v.(bound := bound, phase := phase)
  }

  // ----- the operations do not look at the phases -----

  lemma PickPhases(c: Config, s: State, s': State, o: Outcome, phase: map<nat, Phase>)
    requires WellFormed(c, s) && s.phase == s'.phase == map[] && Pick(c, s, s', o)
    ensures WellFormed(c, s.(phase := phase)) && Pick(c, s.(phase := phase), s'.(phase := phase), o)
  {
    hide TakeFront, StartOver;
    if s.listed == {} {
      StartPhases(c, s, s', o, phase);
    } else if !s.done {
      var n :| TakeFront(c, s, s', o, n);
      FrontPhases(c, s, s', o, n, phase);
    }
  }

  lemma PickAgainPhases(c: Config, s: State, s': State, o: Outcome, phase: map<nat, Phase>)
    requires WellFormed(c, s) && s.phase == s'.phase == map[] && PickAgain(c, s, s', o)
    ensures WellFormed(c, s.(phase := phase)) && PickAgain(c, s.(phase := phase), s'.(phase := phase), o)
  {
    hide TakeFront, StartOver;
    if s.listed != {} && !s.done {
      var n :| TakeFront(c, s, s', o, n);
      FrontPhases(c, s, s', o, n, phase);
    }
  }

  lemma StartPhases(c: Config, s: State, s': State, o: Outcome, phase: map<nat, Phase>)
    requires s.phase == s'.phase == map[] && StartOver(c, s, s', o)
    ensures StartOver(c, s.(phase := phase), s'.(phase := phase), o)
  {
  }

  lemma FrontPhases(c: Config, s: State, s': State, o: Outcome, n: nat, phase: map<nat, Phase>)
    requires WellFormed(c, s) && s.phase == s'.phase == map[] && TakeFront(c, s, s', o, n)
    ensures TakeFront(c, s.(phase := phase), s'.(phase := phase), o, n)
  {
    RelistPhases(c, s, s.bound, phase, s.inuse + {n}, s.hot);
    assert n < |s.open|;
    hide Relist, Config.BestOf, Config.Hopeless;
    if c.Hopeless(s.open[n], s.bound) { StartPhases(c, s.(listed := {}), s', o, phase); }
  }

  lemma RelistPhases(c: Config, s: State, bound: nat, phase: map<nat, Phase>, inuse: set<nat>, hot: set<nat>)
    ensures Relist(c, WithThreads(s, bound, phase), inuse, hot) == Relist(c, s, inuse, hot)
  {
  }

  lemma ReleasePhases(c: Config, s: State, bound: nat, phase: map<nat, Phase>, n: nat)
    ensures Release(c, WithThreads(s, bound, phase), n) == WithThreads(Release(c, s, n), bound, phase)
    ensures AtOnce(c, WithThreads(s, bound, phase), n) <==> AtOnce(c, s, n)
    ensures Later(c, WithThreads(s, bound, phase), n) == Later(c, s, n)
  {
    RelistPhases(c, s, bound, phase, s.inuse - {n}, StillHot(c, s.hot, s.inuse - {n}));
  }

  lemma HeatPhases(c: Config, s: State, bound: nat, phase: map<nat, Phase>, b: nat)
    requires b < |c.scope|
    ensures Heat(c, WithThreads(s, bound, phase), b) == WithThreads(Heat(c, s, b), bound, phase)
    ensures Cool(c, WithThreads(s, bound, phase), b) == WithThreads(Cool(c, s, b), bound, phase)
  {
    RelistPhases(c, s, bound, phase, s.inuse, s.hot - c.scope[b] + {b});
    RelistPhases(c, s, bound, phase, s.inuse, s.hot - c.scope[b]);
  }

  /** The phases after a broadcast, or without one. */
  function Woken(phase: map<nat, Phase>, broadcast: bool): map<nat, Phase> {
    if broadcast then map t | t in phase :: (if phase[t].Asleep? then Ready else phase[t]) else phase
  }

  function PhaseFor(o: Outcome): Phase {
    match o case Take(n) => Holding(n) case Over => Exited case Wait => Asleep
  }

  lemma WokenIsWakeAll(phase: map<nat, Phase>)
    ensures Woken(phase, true) == WakeAll(phase) && Woken(phase, false) == phase
    ensures WakeAll(WakeAll(phase)) == WakeAll(phase)
  {
  }

  // ----- calls are steps -----

  /** A thread asks for its first block: `broadcast` tells the end of the search. */
  lemma AskIsStep(c: Config, v: State, v': State, bound: nat, phase: map<nat, Phase>, t: nat, o: Outcome, broadcast: bool)
    requires v.phase == v'.phase == map[] && Inv(c, WithThreads(v, bound, phase)) && t in phase
    requires WellFormed(c, v.(bound := bound))
    requires || (phase[t].Outside? && Pick(c, v.(bound := bound), v'.(bound := bound), o))
             || (phase[t].Ready? && PickAgain(c, v.(bound := bound), v'.(bound := bound), o))
    requires (v'.done && !v.done ==> broadcast) && (broadcast ==> v'.done)
    ensures CanStep(c, WithThreads(v, bound, phase), WithThreads(v', bound, Woken(phase, broadcast)[t := PhaseFor(o)]))
  {
    var s, m := WithThreads(v, bound, phase), WithThreads(v', bound, phase);
    var s' := WithThreads(v', bound, Woken(phase, broadcast)[t := PhaseFor(o)]);
    WokenIsWakeAll(phase);
    if v.done { NoSleepers(phase); }
    hide Inv;
    if phase[t].Outside? {
      PickPhases(c, v.(bound := bound), v'.(bound := bound), o, phase);
      hide Pick, PickAgain;
      assert s' == Settle(s, m, t, o);
      assert Picks(c, s, s', t);
      assert StepTo(c, s, s', First(t));
    } else {
      PickAgainPhases(c, v.(bound := bound), v'.(bound := bound), o, phase);
      hide Pick, PickAgain;
      assert s' == Settle(s, m, t, o);
      assert Resumes(c, s, s', t);
      assert StepTo(c, s, s', PbnfScheduler.Resume(t));
    }
  }

  lemma SpuriousIsStep(c: Config, s: State, t: nat)
    requires Inv(c, s) && t in s.phase && s.phase[t].Asleep?
    ensures CanStep(c, s, s.(phase := s.phase[t := Ready]))
  {
    assert StepTo(c, s, s.(phase := s.phase[t := Ready]), Spurious(t));
  }

  lemma BoundIsStep(c: Config, s: State, bound: nat)
    requires Inv(c, s) && bound < s.bound
    ensures CanStep(c, s, s.(bound := bound))
  {
    assert StepTo(c, s, s.(bound := bound), LowerBound(bound));
  }

  lemma ChangeIsStep(c: Config, v: State, v': State, bound: nat, phase: map<nat, Phase>, t: nat)
    requires Inv(c, WithThreads(v, bound, phase)) && t in phase && phase[t].Holding? && SearchChanges(c, v, v', phase[t].block)
    ensures CanStep(c, WithThreads(v, bound, phase), WithThreads(v', bound, phase))
  {
    assert StepTo(c, WithThreads(v, bound, phase), WithThreads(v', bound, phase), PbnfScheduler.Search(t));
  }

  lemma HeatIsStep(c: Config, v: State, bound: nat, phase: map<nat, Phase>, t: nat, b: nat, broadcast: bool)
    requires Inv(c, WithThreads(v, bound, phase)) && t in phase && phase[t].Holding? && b < |c.scope| && Heatable(c, v, b)
    requires broadcast || Heat(c, v, b).listed <= v.listed
    ensures CanStep(c, WithThreads(v, bound, phase), WithThreads(Heat(c, v, b), bound, Woken(phase, broadcast)))
  {
    var s, s' := WithThreads(v, bound, phase), WithThreads(Heat(c, v, b), bound, Woken(phase, broadcast));
    HeatPhases(c, v, bound, phase, b);
    WokenIsWakeAll(phase);
    assert s' == Announced(Heat(c, s, b), broadcast);
    assert StepTo(c, s, s', MakeHot(t, b, broadcast));
  }

  lemma CoolIsStep(c: Config, v: State, bound: nat, phase: map<nat, Phase>, t: nat)
    requires Inv(c, WithThreads(v, bound, phase)) && t in phase && phase[t].Holding? && phase[t].block < |c.scope|
    ensures var m := Cool(c, v, phase[t].block);
            CanStep(c, WithThreads(v, bound, phase), WithThreads(m, bound, Woken(phase, m.listed != v.listed)))
  {
    var n := phase[t].block;
    var m := Cool(c, v, n);
    var s, s' := WithThreads(v, bound, phase), WithThreads(m, bound, Woken(phase, m.listed != v.listed));
    HeatPhases(c, v, bound, phase, n);
    WokenIsWakeAll(phase);
    assert s' == Announced(Cool(c, s, n), m.listed != v.listed);
    assert StepTo(c, s, s', MakeCold(t));
  }

  /** The phases after a release: a signal to `u`, and a broadcast. */
  function After(phase: map<nat, Phase>, t: nat, signal: bool, u: nat, broadcast: bool, o: Outcome): map<nat, Phase> {
    var p := phase[t := Outside];
    var q := if signal && u in p && p[u].Asleep? then p[u := Ready] else p;
    Woken(q, broadcast)[t := PhaseFor(o)]
  }

  /** A thread gives its block back and asks for the next. */
  lemma GiveBackIsStep(c: Config, v: State, v': State, bound: nat, phase: map<nat, Phase>, t: nat, u: nat, o: Outcome,
                       signal: bool, broadcast: bool)
    requires v.phase == v'.phase == map[] && c.Valid() && Inv(c, WithThreads(v, bound, phase))
    requires t in phase && phase[t].Holding?
    requires var n := phase[t].block; var r := Release(c, v, n).(bound := bound);
             && WellFormed(c, r) && Pick(c, r, v'.(bound := bound), o)
             && (signal <==> AtOnce(c, v, n)) && (Later(c, v, n) != {} ==> broadcast) && (v'.done && !v.done ==> broadcast)
             && (broadcast ==> v'.done || Later(c, v, n) != {})
    requires SomeAsleep(phase) ==> u in phase && phase[u].Asleep?
    ensures CanStep(c, WithThreads(v, bound, phase), WithThreads(v', bound, After(phase, t, signal, u, broadcast, o)))
  {
    hide Inv, Config.Valid, Pick, AtOnce, Later, Between, Release, WellFormed, Settle, After;
    var s, n := WithThreads(v, bound, phase), phase[t].block;
    HolderGoesOn(c, s, t);
    ReleasePhases(c, v, bound, phase, n);
    ReleaseBetween(c, s, t, u);
    SettledPhases(c, s, t, u, v', bound, o, signal, broadcast);
    BetweenWellFormed(c, Released(c, s, t, u), t);
    ReleasedPick(c, v, v', bound, phase, t, u, o);
    NextIsStep(c, s, WithThreads(v', bound, Released(c, s, t, u).phase), t, u, o);
  }

  lemma HolderGoesOn(c: Config, s: State, t: nat)
    requires Inv(c, s) && Holds(s, t)
    ensures !s.done && WellFormed(c, s) && s.phase[t].block in s.inuse
  {
  }

  lemma ReleasedPick(c: Config, v: State, v': State, bound: nat, phase: map<nat, Phase>, t: nat, u: nat, o: Outcome)
    requires v.phase == v'.phase == map[] && t in phase && phase[t].Holding?
    requires var r := Release(c, v, phase[t].block).(bound := bound); WellFormed(c, r) && Pick(c, r, v'.(bound := bound), o)
    ensures var r := Released(c, WithThreads(v, bound, phase), t, u);
            WellFormed(c, r) && Pick(c, r, WithThreads(v', bound, r.phase), o)
  {
    var n := phase[t].block;
    ReleasePhases(c, v, bound, phase, n);
    hide Pick, AtOnce, Later, WellFormed, Relist, StillHot;
    var r := Released(c, WithThreads(v, bound, phase), t, u);
    PickPhases(c, Release(c, v, n).(bound := bound), v'.(bound := bound), o, r.phase);
    assert r == Release(c, v, n).(bound := bound).(phase := r.phase);
  }

  lemma NextIsStep(c: Config, s: State, m: State, t: nat, u: nat, o: Outcome)
    requires WellFormed(c, s) && Holds(s, t) && WellFormed(c, Released(c, s, t, u)) && Pick(c, Released(c, s, t, u), m, o)
    requires SomeAsleep(s.phase) ==> u in s.phase && s.phase[u].Asleep?
    ensures CanStep(c, s, Settle(Released(c, s, t, u), m, t, o))
  {
    hide Pick, AtOnce, Later, Released, WellFormed, Settle;
    var s' := Settle(Released(c, s, t, u), m, t, o);
    assert Picks(c, Released(c, s, t, u), s', t);
    assert StepTo(c, s, s', Next(t, u));
  }

  lemma BetweenWellFormed(c: Config, s: State, t: nat)
    requires Between(c, s, t)
    ensures WellFormed(c, s)
  {
  }

  lemma SettledPhases(c: Config, s: State, t: nat, u: nat, v': State, bound: nat, o: Outcome, signal: bool, broadcast: bool)
    requires Holds(s, t) && !s.done && bound == s.bound && v'.phase == map[]
    requires var n := s.phase[t].block;
             (signal <==> AtOnce(c, s, n)) && (broadcast <==> v'.done || Later(c, s, n) != {})
    ensures var r := Released(c, s, t, u);
            WithThreads(v', bound, After(s.phase, t, signal, u, broadcast, o)) == Settle(r, WithThreads(v', bound, r.phase), t, o)
  {
    hide AtOnce, Later, Relist, StillHot;
    var p := s.phase[t := Outside];
    var q := if signal then Signalled(p, u) else p;
    WokenIsWakeAll(q);
  }

  lemma NoSleepers(phase: map<nat, Phase>)
    requires forall t :: t in phase ==> !phase[t].Asleep?
    ensures Woken(phase, true) == phase
  {
  }

  /** The search object: the graph, the shared bound, and where each thread is.
      `run` is what has happened so far. */
  class Search {
    const graph: NBlockGraph
    var bound: nat
    var phase: map<nat, Phase>
    ghost var run: seq<State>

    ghost function Now(): State
      reads this, graph, graph.freeList
    {
      WithThreads(graph.View(), bound, phase)
    }

    ghost predicate Valid()
      reads this, graph, graph.freeList, graph.freeList.heap
    {
      && graph.Valid()
      && run != [] && IsRun(graph.c, run) && run[|run| - 1] == Now()
    }

    /** All threads are about to ask for their first block. */
    constructor (g: NBlockGraph, start: nat, threads: set<nat>, init: nat)
      requires g.Valid() && threads != {} && InuseOf(g.blocks) == {} && HotOf(g.blocks) == {} && !g.done
      requires init < |g.open| && g.open[init].nodes != {} && g.freeList.Elems == {init}
      requires forall b: nat :: b < |g.open| && b != init ==> g.open[b].nodes == {}
      ensures Valid() && graph == g && bound == start && run == [Now()] && phase.Keys == threads
    {
      hide NBlockGraph.Valid, NBlockGraph.View, IsRun, NodesOf;
      graph := g;
      bound := start;
      phase := map t | t in threads :: Outside;
      run := [WithThreads(g.View(), start, map t | t in threads :: Outside)];
      new;
      var t :| t in threads;
      assert t in phase;
      Begins(init);
    }

    lemma Begins(init: nat)
      requires graph.Valid() && InuseOf(graph.blocks) == {} && HotOf(graph.blocks) == {} && !graph.done
      requires init < |graph.open| && graph.open[init].nodes != {} && graph.freeList.Elems == {init}
      requires forall b: nat :: b < |graph.open| && b != init ==> graph.open[b].nodes == {}
      requires phase != map[] && forall t :: t in phase ==> phase[t].Outside?
      ensures IsRun(graph.c, [Now()])
    {
      graph.ViewWellFormed(bound);
      NodesLength(graph.open);
      graph.ViewParts();
      hide NBlockGraph.Valid, WellFormed, NodesOf, InuseOf, HotOf;
      assert Now().inuse == InuseOf(graph.blocks) && Now().hot == HotOf(graph.blocks);
      assert Now().open[init] != {};
      assert Initial(graph.c, Now());
    }

    /** What is known of the present moment. */
    lemma Here()
      requires Valid()
      ensures graph.c.Valid() && Inv(graph.c, Now()) && |graph.blocks| == |graph.c.scope|
    {
      hide NBlockGraph.Valid, NBlockGraph.View, IsRun, Inv, Config.Valid, WithThreads, Now;
      GraphConfig();
      LastInv(graph.c, run, Now());
    }

    lemma LastInv(c: Config, tr: seq<State>, s: State)
      requires c.Valid() && tr != [] && IsRun(c, tr) && tr[|tr| - 1] == s
      ensures Inv(c, s)
    {
      hide IsRun, Inv, Config.Valid;
      RunKeepsInv(c, tr, |tr| - 1);
    }

    lemma Parts()
      ensures var s := Now();
              && s.inuse == InuseOf(graph.blocks) && s.hot == HotOf(graph.blocks) && s.phase == phase && s.bound == bound
              && s.done == graph.done && s.listed == graph.freeList.Elems
    {
      hide InuseOf, HotOf, NodesOf;
    }

    lemma GraphConfig()
      requires graph.Valid()
      ensures graph.c.Valid() && |graph.blocks| == |graph.c.scope|
    {
    }

    lemma Grows(was: seq<State>, now: State)
      requires was != [] && IsRun(graph.c, was) && CanStep(graph.c, was[|was| - 1], now)
      ensures IsRun(graph.c, was + [now])
    {
      var all := was + [now];
      forall i: nat | i + 1 < |all| ensures CanStep(graph.c, all[i], all[i + 1]) {
        if i + 1 < |was| { assert CanStep(graph.c, was[i], was[i + 1]); }
      }
    }

    /** A thread asks for its first block, or asks again after it was woken. */
    method Ask(t: nat)
      requires Valid() && t in phase && (phase[t].Outside? || phase[t].Ready?)
      modifies this, graph, graph.freeList, graph.freeList.heap
      ensures Valid() && run == old(run) + [Now()]
    {
      hide NBlockGraph.Valid, NBlockGraph.View, IsRun, Inv, Pick, PickAgain, WellFormed, Config.Valid;
      Here();
      Viewed();
      var o, broadcast;
      if phase[t].Outside? {
        var signal;
        o, signal, broadcast := graph.NextNBlock(None, true, bound);
      } else {
        o, broadcast := graph.Resume(bound);
      }
      Viewed();
      AskIsStep(graph.c, old(graph.View()), graph.View(), bound, phase, t, o, broadcast);
      phase := Woken(phase, broadcast)[t := PhaseFor(o)];
      Grows(run, Now());
      run := run + [Now()];
    }

    lemma Viewed()
      ensures graph.View().phase == map[] && graph.View().done == graph.done
    {
    }

    /** A thread is done with its block and asks for the next; a signal goes to `u`,
        one of the waiting threads if there is any. */
    method GiveBack(t: nat, lockFree: bool, u: nat)
      requires Valid() && t in phase && phase[t].Holding?
      requires SomeAsleep(phase) ==> u in phase && phase[u].Asleep?
      modifies this, graph, graph.freeList, graph.freeList.heap
      ensures Valid() && (run == old(run) + [Now()] || (run == old(run) && Now() == old(Now())))
    {
      hide NBlockGraph.Valid, NBlockGraph.View, IsRun, Inv, Pick, PickAgain, WellFormed, Config.Valid, AtOnce, Later, Release;
      Here();
      Viewed();
      HeldInUse(t);
      var n := phase[t].block;
      var keeps := graph.open[n].nodes != {} && !lockFree;
      var o, signal, broadcast := graph.NextNBlock(Some(n), lockFree, bound);
      if keeps {
        return;
      }
      Viewed();
      GiveBackIsStep(graph.c, old(graph.View()), graph.View(), bound, phase, t, u, o, signal, broadcast);
      phase := After(phase, t, signal, u, broadcast, o);
      Grows(run, Now());
      run := run + [Now()];
    }

    lemma HeldInUse(t: nat)
      requires Valid() && t in phase && phase[t].Holding?
      ensures var n := phase[t].block; n < |graph.blocks| == |graph.open| && graph.blocks[n].inuse
    {
      Here();
      Parts();
      hide NBlockGraph.View, IsRun, Config.Valid;
      assert phase[t].block in Now().inuse;
    }

    /** A waiting thread wakes up without having been signalled. */
    method WakeUp(t: nat)
      requires Valid() && t in phase && phase[t].Asleep?
      modifies this`phase, this`run
      ensures Valid() && run == old(run) + [Now()]
    {
      hide NBlockGraph.Valid, NBlockGraph.View, IsRun, Inv, WellFormed, Config.Valid;
      Here();
      SpuriousIsStep(graph.c, Now(), t);
      phase := phase[t := Ready];
      Grows(run, Now());
      run := run + [Now()];
    }

    /** A thread lowers the shared bound. */
    method SetBound(b: nat)
      requires Valid() && b < bound
      modifies this`bound, this`run
      ensures Valid() && run == old(run) + [Now()] && bound == b
    {
      hide NBlockGraph.Valid, NBlockGraph.View, IsRun, Inv, WellFormed, Config.Valid;
      Here();
      BoundIsStep(graph.c, Now(), b);
      bound := b;
      Grows(run, Now());
      run := run + [Now()];
    }

    /** A searching thread changes the open list of a block that it may touch. */
    method Change(t: nat, m: nat, o: OpenList)
      requires Valid() && t in phase && phase[t].Holding? && phase[t].block < |graph.c.touched|
      requires m in graph.c.touched[phase[t].block] && Published(graph.c, o)
      modifies this`run, graph`open
      ensures Valid() && run == old(run) + [Now()]
    {
      hide NBlockGraph.Valid, NBlockGraph.View, IsRun, Inv, WellFormed, Config.Valid, Published, SearchChanges;
      Here();
      HeldInUse(t);
      graph.SetOpen(phase[t].block, m, o);
      ChangeIsStep(graph.c, old(graph.View()), graph.View(), bound, phase, t);
      Grows(run, Now());
      run := run + [Now()];
    }

    /** A searching thread asks for block `b`. */
    method Want(t: nat, b: nat, val: nat, lockFree: bool)
      requires Valid() && t in phase && phase[t].Holding? && b < |graph.blocks|
      modifies this`phase, this`run, graph`blocks, graph.freeList, graph.freeList.heap
      ensures Valid() && (run == old(run) + [Now()] || (run == old(run) && Now() == old(Now())))
    {
      hide NBlockGraph.Valid, NBlockGraph.View, IsRun, Inv, WellFormed, Config.Valid, Heatable, Preferred, FreesInPassing, Heat;
      Here();
      Viewed();
      ghost var v := graph.View();
      ghost var heats := lockFree && Heatable(graph.c, v, b) && Preferred(graph.blocks, graph.open, graph.c.scope[b], val);
      var ok, broadcast := graph.SetHot(b, val, lockFree);
      WokenIsWakeAll(phase);
      phase := Woken(phase, broadcast);
      if heats {
        HeatIsStep(graph.c, v, bound, old(phase), t, b, broadcast);
        Grows(run, Now());
        run := run + [Now()];
      }
    }

    /** A searching thread keeps its block. */
    method Keep(t: nat, lockFree: bool)
      requires Valid() && t in phase && phase[t].Holding?
      modifies this`phase, this`run, graph`blocks, graph.freeList, graph.freeList.heap
      ensures Valid() && (run == old(run) + [Now()] || (run == old(run) && Now() == old(Now())))
    {
      hide NBlockGraph.Valid, NBlockGraph.View, IsRun, Inv, WellFormed, Config.Valid, Cool;
      Here();
      Viewed();
      HeldInUse(t);
      var n := phase[t].block;
      ghost var v := graph.View();
      ghost var cools := lockFree || graph.blocks[n].sigmaHot == 0;
      var broadcast := graph.WontRelease(n, lockFree);
      WokenIsWakeAll(phase);
      phase := Woken(phase, broadcast);
      if cools {
        CoolIsStep(graph.c, v, bound, old(phase), t);
        Grows(run, Now());
        run := run + [Now()];
      }
    }

    /** What the threads rely on: no two of them hold blocks that share a list. */
    lemma HoldersApart(t: nat, u: nat)
      requires Valid() && t in phase && u in phase && t != u && phase[t].Holding? && phase[u].Holding?
      ensures var a, b := phase[t].block, phase[u].block;
              a < |graph.c.touched| && b < |graph.c.touched| && graph.c.touched[a] !! graph.c.touched[b]
    {
      hide NBlockGraph.Valid, NBlockGraph.View, IsRun, Inv, Config.Valid;
      GraphConfig();
      ApartInRun(graph.c, run, Now(), t, u);
    }

    /** A thread that waits without having been signalled has nothing to wake up for. */
    lemma NobodyOversleeps(t: nat)
      requires Valid() && t in phase && phase[t].Asleep?
      ensures graph.freeList.Elems == {} && !graph.done
    {
      Parts();
      hide NBlockGraph.Valid, NBlockGraph.View, IsRun, Inv, Config.Valid, Now;
      GraphConfig();
      AsleepInRun(graph.c, run, Now(), t);
    }

    lemma AsleepInRun(c: Config, tr: seq<State>, s: State, t: nat)
      requires c.Valid() && tr != [] && IsRun(c, tr) && tr[|tr| - 1] == s && t in s.phase && s.phase[t].Asleep?
      ensures s.listed == {} && !s.done
    {
      hide IsRun, Config.Valid;
      NoLostWakeUp(c, tr, |tr| - 1, t);
    }

    lemma ApartInRun(c: Config, tr: seq<State>, s: State, t: nat, u: nat)
      requires c.Valid() && tr != [] && IsRun(c, tr) && tr[|tr| - 1] == s && Holds(s, t) && Holds(s, u) && t != u
      ensures var a, b := s.phase[t].block, s.phase[u].block;
              a < |c.touched| && b < |c.touched| && c.touched[a] !! c.touched[b]
    {
      hide IsRun, Config.Valid;
      NoSharedLists(c, tr, |tr| - 1, t, u);
    }
  }
}
