/** What hash-distributed A* is sure to get on with. */
module HdaProgress {
  import opened PriorityQueues
  import opened HdaStar
  import opened HdaQuiescence

  // ----- the end of the search -----

  /** How many steps a thread is from its end once the counter is full. */
  function Distance(pc: Pc): nat {
    match pc
    case Exited => 0
    case Loop => 1
    case SetDone => 2
    case AfterRecv(_) => 3
    case Woken => 4
    case Relock => 5
    case Waiting => 6
    case _ => 7
  }

  function Left(th: seq<Thread>): (r: nat)
    ensures r <= 7 * |th|
  {
    if th == [] then 0 else Left(th[..|th| - 1]) + Distance(th[|th| - 1].pc)
  }

  lemma {:induction false} LeftUpdated(th: seq<Thread>, t: nat, x: Thread)
    requires t < |th|
    ensures Left(th[t := x]) == Left(th) - Distance(th[t].pc) + Distance(x.pc)
  {
    var k := |th| - 1;
    if t == k {
      assert th[t := x][..k] == th[..k];
    } else {
      assert th[t := x][..k] == th[..k][t := x];
      LeftUpdated(th[..k], t, x);
    }
  }

  lemma {:induction false} NoneLeft(th: seq<Thread>)
    ensures Left(th) == 0 <==> forall t: nat :: t < |th| ==> th[t].pc.Exited?
  {
    if th != [] {
      var k := |th| - 1;
      NoneLeft(th[..k]);
      assert forall t: nat :: t < k ==> th[..k][t] == th[t];
    }
  }

  /** With a full counter a thread has one way to go, and nothing is in its way. */
  lemma FullThread(c: Config, s: State, t: nat)
    requires c.Valid() && Inv(c, s) && s.counter >= c.n && t < c.n
    ensures |s.th| == c.n && Idle(c, s, t)
    ensures var x := s.th[t];
            && (x.pc.Relock? ==> x.lock.None?)
            && (x.pc.AfterRecv? ==> !x.pc.has)
            && (x.pc.Loop? ==> s.done)
  {
    FullMeansQuiet(c, s);
    assert ThreadOk(c, s, t);
    var x := s.th[t];
    if x.pc.Relock? && x.lock.Some? {
      var u := x.lock.value;
      assert LockOf(u, s.th[u].pc) == Some(t);
      assert Idle(c, s, u);
    }
  }

  /** A full counter: every step of any thread brings it one nearer to its end. */
  lemma FullStep(c: Config, s: State, s': State, e: Step)
    requires c.Valid() && Inv(c, s) && s.counter >= c.n && StepTo(c, s, s', e)
    ensures |s'.th| == |s.th| && Left(s'.th) == Left(s.th) - 1
  {
    FullThread(c, s, e.t);
    var x := s.th[e.t];
    assert s'.th == s.th[e.t := s'.th[e.t]] && Distance(s'.th[e.t].pc) == Distance(x.pc) - 1 by {
      hide Inv, Idle, ThreadOk;
    }
    LeftUpdated(s.th, e.t, s'.th[e.t]);
  }

  /** A full counter: nobody has to wait, neither for a message nor for a lock. */
  lemma FullCanStep(c: Config, s: State, t: nat) returns (s': State, e: Step)
    requires c.Valid() && Inv(c, s) && s.counter >= c.n && t < c.n == |s.th| && !s.th[t].pc.Exited?
    ensures e.t == t && |s'.th| == |s.th| && s'.th[t].pc != s.th[t].pc
    ensures StepTo(c, s, s', e)
  {
    FullThread(c, s, t);
    hide Inv, Idle;
    e := Step(t, false, 0, false);
    var x := s.th[t];
    s' := if x.pc.Loop? then Go(s, t, Exited)
          else if x.pc.Unlocking? then Put(s, t, x.(pc := Waiting, lock := None))
          else if x.pc.Waiting? then Go(s, t, Relock)
          else if x.pc.Relock? then Put(s, t, x.(pc := Woken, lock := Some(t)))
          else if x.pc.Woken? then Put(s, t, x.(pc := AfterRecv(false), lock := None))
          else if x.pc.AfterRecv? then Go(s, t, SetDone)
          else Go(s.(done := true), t, Loop);
  }

  /** Only thread `t` moves, and it does not leave. */
  ghost predicate Stays(s: State, s': State, t: nat) {
    && t < |s.th| == |s'.th| && s'.done == s.done && !s'.th[t].pc.Exited?
    && forall u: nat :: u < |s.th| && u != t ==> s'.th[u].pc == s.th[u].pc
  }

  lemma FlushStays(c: Config, s: State, s': State, t: nat, d: nat, has: bool, first: bool)
    requires t < |s.th| && FlushStep(c, s, s', t, d, has, first)
    ensures Stays(s, s', t)
  {
    hide Config.Pruned, Enter;
  }

  lemma RecvStays(c: Config, s: State, s': State, t: nat, has: bool, first: bool)
    requires t < |s.th| && RecvStep(c, s, s', t, has, first)
    ensures Stays(s, s', t)
  {
    hide Config.Pruned, Enter;
  }

  lemma ProcessStays(c: Config, s: State, s': State, t: nat, i: nat, has: bool, first: bool)
    requires t < |s.th| && ProcessStep(c, s, s', t, i, has, first)
    ensures Stays(s, s', t)
  {
    hide Config.Pruned;
  }

  lemma TakeStays(c: Config, s: State, s': State, e: Step)
    requires e.t < |s.th| && TakeStep(c, s, s', e)
    ensures Stays(s, s', e.t)
  {
    hide Config.Pruned, Enter;
  }

  lemma DeliverStays(c: Config, s: State, s': State, t: nat, m: Msg, rest: seq<Msg>)
    requires t < |s.th| && DeliverStep(c, s, s', t, m, rest)
    ensures Stays(s, s', t)
  {
    hide Config.Pruned, Enter;
  }

  lemma PushStays(s: State, s': State, t: nat, d: nat, i: nat, k: Cont)
    requires t < |s.th| && d < |s.th| && PushStep(s, s', t, d, i, k)
    ensures Stays(s, s', t)
  {
    hide Config.Pruned, Enter;
  }

  lemma ClearStays(s: State, s': State, t: nat, d: nat, k: Cont)
    requires t < |s.th| && d < |s.th| && ClearStep(s, s', t, d, k)
    ensures Stays(s, s', t)
  {
    hide Config.Pruned, Enter;
  }

  /** Thread `t` moves on, having changed something of thread `d`. */
  lemma GoStays(s: State, t: nat, pc: Pc, d: nat, x: Thread)
    requires t < |s.th| && d < |s.th| && x.pc == s.th[d].pc && !pc.Exited?
    ensures Stays(s, Go(Put(s, d, x), t, pc), t)
  {
  }

  /** The steps of a thread that is emptying a buffer. */
  predicate Posts(pc: Pc) {
    pc.LockFor? || pc.Pushing? || pc.Posting? || pc.Uncounted? || pc.Raising? || pc.Clearing?
  }

  lemma PostStays(c: Config, s: State, s': State, e: Step)
    requires StepTo(c, s, s', e) && Posts(s.th[e.t].pc)
    ensures Stays(s, s', e.t)
  {
    hide Config.Pruned, Config.Children, Enter, Better, AfterCheck, IsComplete,
         FlushStep, RecvStep, ProcessStep, TakeStep, DeliverStep, PushStep, ClearStep;
    match s.th[e.t].pc
    case LockFor(d, k) => GoStays(s, e.t, Pushing(d, 0, k), d, s.th[d].(lock := Some(e.t)));
    case Pushing(d, i, k) => PushStays(s, s', e.t, d, i, k);
    case Uncounted(d, k) => GoStays(s, e.t, Raising(d, k), d, s.th[d].(completed := false));
    case Raising(d, k) => GoStays(s, e.t, HdaStar.Clearing(d, k), d, s.th[d].(qEmpty := false));
    case Clearing(d, k) => ClearStays(s, s', e.t, d, k);
    case _ =>
  }

  /** The steps of a thread that looks for something to do. */
  predicate Receives(pc: Pc) {
    pc.Flush? || pc.CheckOpen? || pc.Recv? || pc.Processing? || pc.TakeOpen? || pc.Deliver?
  }

  lemma ReceiveStays(c: Config, s: State, s': State, e: Step)
    requires StepTo(c, s, s', e) && Receives(s.th[e.t].pc)
    ensures Stays(s, s', e.t)
  {
    hide Config.Pruned, Config.Children, Enter, Better, AfterCheck, IsComplete,
         FlushStep, RecvStep, ProcessStep, TakeStep, DeliverStep, PushStep, ClearStep;
    match s.th[e.t].pc
    case Flush(d, has, first) => FlushStays(c, s, s', e.t, d, has, first);
    case CheckOpen(has) => CheckStays(s.th[e.t], has);
    case Recv(has, first) => RecvStays(c, s, s', e.t, has, first);
    case Processing(i, has, first) => ProcessStays(c, s, s', e.t, i, has, first);
    case TakeOpen => TakeStays(c, s, s', e);
    case Deliver(ms) => DeliverStays(c, s, s', e.t, ms[0], ms[1..]);
    case _ =>
  }

  lemma OtherExit(c: Config, s: State, s': State, e: Step, t: nat)
    requires StepTo(c, s, s', e) && !Posts(s.th[e.t].pc) && !Receives(s.th[e.t].pc)
    requires t < |s'.th| && s'.th[t].pc.Exited?
    ensures s.done ==> s'.done
    ensures s'.done || (t < |s.th| && s.th[t].pc.Exited?)
  {
    hide Config.Pruned, Config.Children, Enter, Better, AfterCheck, IsComplete,
         FlushStep, RecvStep, ProcessStep, TakeStep, DeliverStep, PushStep, ClearStep;
  }

  lemma ExitStep(c: Config, s: State, s': State, e: Step, t: nat)
    requires StepTo(c, s, s', e) && t < |s'.th| && s'.th[t].pc.Exited?
    ensures s.done ==> s'.done
    ensures s'.done || (t < |s.th| && s.th[t].pc.Exited?)
  {
    hide StepTo;
    if e.t < |s.th| && Posts(s.th[e.t].pc) {
      PostStays(c, s, s', e);
    } else if e.t < |s.th| && Receives(s.th[e.t].pc) {
      ReceiveStays(c, s, s', e);
    } else {
      ActorIs(c, s, s', e);
      OtherExit(c, s, s', e, t);
    }
  }

  lemma ActorIs(c: Config, s: State, s': State, e: Step)
    requires StepTo(c, s, s', e)
    ensures e.t < |s.th|
  {
    hide FlushStep, RecvStep, ProcessStep, TakeStep, DeliverStep, PushStep, ClearStep;
  }

  lemma CheckStays(x: Thread, has: bool)
    ensures !AfterCheck(x, has).Exited?
  {
  }

  /** A thread leaves only when the search has been declared over. */
  lemma {:induction false} ExitMeansDone(c: Config, tr: seq<State>, i: nat, t: nat)
    requires c.Valid() && IsRun(c, tr) && i < |tr| && t < |tr[i].th| && tr[i].th[t].pc.Exited?
    ensures tr[i].done
  {
    hide StepTo;
    if i > 0 {
      assert CanStep(c, tr[i - 1], tr[(i - 1) + 1]);
      ExitStep(c, tr[i - 1], tr[i], TheStep(c, tr[i - 1], tr[i]), t);
      if !tr[i].done { ExitMeansDone(c, tr, i - 1, t); }
    }
  }

  /** Once the counter is full, every step of the run is one of at most seven that
      each thread still has to take. */
  lemma {:induction false} FullCountsDown(c: Config, tr: seq<State>, i: nat, j: nat)
    requires c.Valid() && IsRun(c, tr) && i <= j < |tr| && tr[i].counter >= c.n
    ensures tr[j].counter >= c.n && |tr[i].th| == |tr[j].th| == c.n
    ensures Left(tr[j].th) + (j - i) == Left(tr[i].th) <= 7 * c.n
  {
    hide Inv, StepTo, Initial;
    if i < j {
      FullCountsDown(c, tr, i, j - 1);
      RunSteps(c, tr, j - 1);
      var e := TheStep(c, tr[j - 1], tr[j]);
      FullStaysFull(c, tr[j - 1], tr[j], e);
      FullStep(c, tr[j - 1], tr[j], e);
    } else {
      FullCounterMeansQuiescent(c, tr, i);
    }
  }

  lemma Extended(c: Config, tr: seq<State>, s': State, e: Step)
    requires IsRun(c, tr) && StepTo(c, tr[|tr| - 1], s', e)
    ensures IsRun(c, tr + [s'])
  {
    hide Initial, StepTo;
    var r := tr + [s'];
    assert CanStep(c, tr[|tr| - 1], s');
    forall i: nat | i + 1 < |r| ensures CanStep(c, r[i], r[i + 1]) {
      if i + 1 < |tr| { assert CanStep(c, tr[i], tr[i + 1]); }
    }
  }

  /** A full counter ends the search: whatever the threads do next, and as long as any
      of them goes on, they come to a state in which all have left and the search is over. */
  lemma {:induction false} FullCounterEnds(c: Config, tr: seq<State>) returns (r: seq<State>, z: State)
    requires c.Valid() && IsRun(c, tr) && tr[|tr| - 1].counter >= c.n
    ensures IsRun(c, r) && tr <= r && |r| == |tr| + Left(tr[|tr| - 1].th) && z == r[|r| - 1]
    ensures z.done && |z.th| == c.n && forall t: nat :: t < c.n ==> z.th[t].pc.Exited?
    decreases Left(tr[|tr| - 1].th)
  {
    hide *;
    RunNotEmpty(c, tr);
    var s := tr[|tr| - 1];
    LastFacts(c, tr);
    if Left(s.th) == 0 {
      r, z := tr, s;
    } else {
      var s' := OneNearer(c, tr, s);
      r, z := FullCounterEnds(c, tr + [s']);
    }
  }

  lemma OneNearer(c: Config, tr: seq<State>, s: State) returns (s': State)
    requires c.Valid() && IsRun(c, tr) && s == tr[|tr| - 1] && s.counter >= c.n && Inv(c, s) && |s.th| == c.n
    requires exists t: nat :: t < c.n && !s.th[t].pc.Exited?
    ensures IsRun(c, tr + [s']) && s'.counter >= c.n && Left(s'.th) == Left(s.th) - 1
  {
    hide Inv, StepTo, IsRun;
    var t: nat :| t < c.n && !s.th[t].pc.Exited?;
    var e;
    s', e := FullCanStep(c, s, t);
    Extended(c, tr, s', e);
    FullStep(c, s, s', e);
    FullStaysFull(c, s, s', e);
  }

  lemma RunNotEmpty(c: Config, tr: seq<State>)
    requires IsRun(c, tr)
    ensures tr != []
  {
    hide CanStep, Initial;
  }

  lemma LastFacts(c: Config, tr: seq<State>)
    requires c.Valid() && IsRun(c, tr) && tr[|tr| - 1].counter >= c.n
    ensures var s := tr[|tr| - 1];
            && |s.th| == c.n && Inv(c, s)
            && (Left(s.th) == 0 <==> forall t: nat :: t < c.n ==> s.th[t].pc.Exited?)
            && (Left(s.th) == 0 ==> s.done)
  {
    var s := tr[|tr| - 1];
    RunKeepsInv(c, tr, |tr| - 1);
    FullCounterMeansQuiescent(c, tr, |tr| - 1);
    NoneLeft(s.th);
    hide Inv, StepTo, Initial, Idle;
    if Left(s.th) == 0 { ExitMeansDone(c, tr, |tr| - 1, c.rootAt); }
  }
}
