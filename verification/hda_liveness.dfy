/** Hash-distributed A* never gets stuck, and what a thread sends or receives arrives. */
module HdaLiveness {
  import opened PriorityQueues
  import opened HdaStar
  import opened HdaQuiescence
  import HdaProgress

  // ----- what a thread can count on besides the invariant -----

  ghost predicate OwnOk(x: Thread) {
    && x.open <= x.closed.Keys
    && (x.pc.Deliver? ==> x.pc.ms != [])
    && (x.pc.TakeOpen? ==> x.open != {} || x.root)
    && (x.pc.Counting? || x.pc.Unlocking? ==> x.completed)
  }

  /** Whoever waits is flagged completed, or has messages, or is about to be told of them. */
  ghost predicate WaitsRightly(s: State, t: nat)
    requires t < |s.th|
  {
    s.th[t].pc.Waiting? ==> s.th[t].completed || !s.th[t].qEmpty || ToldBy(s, t)
  }

  ghost predicate ToldBy(s: State, t: nat) {
    exists v: nat :: v < |s.th| && s.th[v].pc.Raising? && s.th[v].pc.d == t
  }

  ghost predicate Going(s: State) {
    && (forall t: nat :: t < |s.th| ==> OwnOk(s.th[t]))
    && (forall t: nat :: t < |s.th| ==> WaitsRightly(s, t))
  }

  /** What a step of thread `t` does to the other threads. */
  ghost predicate Serves(s: State, s': State, t: nat) {
    && t < |s.th| == |s'.th|
    && (forall u: nat :: u < |s.th| && u != t ==> Kept(s.th[u], s'.th[u]))
    && (forall u: nat :: u < |s.th| && u != t && s.th[u].completed && !s'.th[u].completed ==>
          s'.th[t].pc.Raising? && s'.th[t].pc.d == u)
    && (s.th[t].pc.Raising? ==> s.th[t].pc.d < |s.th| && (s.th[t].pc.d != t ==> !s'.th[s.th[t].pc.d].qEmpty))
  }

  ghost predicate Kept(x: Thread, x': Thread) {
    && x'.pc == x.pc && x'.open == x.open && x'.closed == x.closed && x'.root == x.root
    && (!x.qEmpty ==> !x'.qEmpty)
    && (x.pc.Counting? || x.pc.Unlocking? ==> x'.completed == x.completed)
  }

  lemma GoingKept(c: Config, s: State, s': State, t: nat)
    requires Inv(c, s) && Going(s) && Serves(s, s', t) && OwnOk(s'.th[t])
    requires s'.th[t].pc.Waiting? ==> s.th[t].pc.Unlocking? && s'.th[t].completed == s.th[t].completed
    ensures Going(s')
  {
    hide Inv;
    forall u: nat | u < |s'.th| ensures OwnOk(s'.th[u]) && WaitsRightly(s', u) {
      assert OwnOk(s.th[u]) && WaitsRightly(s, u);
      if u != t && s'.th[u].pc.Waiting? {
        StillRight(s, s', t, u);
      }
    }
  }

  lemma StillRight(s: State, s': State, t: nat, u: nat)
    requires Serves(s, s', t) && u < |s.th| && u != t && s'.th[u].pc.Waiting? && WaitsRightly(s, u)
    ensures WaitsRightly(s', u)
  {
    assert Kept(s.th[u], s'.th[u]);
    if s.th[u].completed {
      if !s'.th[u].completed { assert ToldBy(s', u); }
    } else if s.th[u].qEmpty {
      var v: nat :| v < |s.th| && s.th[v].pc.Raising? && s.th[v].pc.d == u;
      if v != t {
        assert Kept(s.th[v], s'.th[v]);
        assert ToldBy(s', u);
      }
    }
  }

  lemma EnterOwn(x: Thread, m: Msg)
    ensures Enter(x, m) == x.(open := Enter(x, m).open, closed := Enter(x, m).closed)
    ensures x.open <= x.closed.Keys ==> Enter(x, m).open <= Enter(x, m).closed.Keys
  {
  }

  ghost predicate Keeps(s: State, s': State, t: nat)
    requires t < |s.th|
  {
    && Serves(s, s', t) && (OwnOk(s.th[t]) ==> OwnOk(s'.th[t]))
    && (s'.th[t].pc.Waiting? ==> s.th[t].pc.Unlocking? && s'.th[t].completed == s.th[t].completed)
  }

  /** Thread `t` changes only what is its own. */
  lemma OwnKeeps(s: State, s': State, t: nat, y: Thread)
    requires t < |s.th| && s'.th == s.th[t := y] && !s.th[t].pc.Raising? && (OwnOk(s.th[t]) ==> OwnOk(y))
    requires y.pc.Waiting? ==> s.th[t].pc.Unlocking? && y.completed == s.th[t].completed
    ensures Keeps(s, s', t)
  {
  }

  /** Thread `t` takes the lock of `d`. */
  lemma LockKeeps(s: State, t: nat, y: Thread, d: nat, pc: Pc)
    requires t < |s.th| && d < |s.th| && !s.th[t].pc.Raising? && pc.Pushing?
    requires y.open == s.th[t].open && y.closed == s.th[t].closed
    ensures Keeps(s, Go(SetLock(Put(s, t, y), d, Some(t)), t, pc), t)
  {
  }

  lemma FlushKeeps(c: Config, s: State, s': State, t: nat, d: nat, has: bool, first: bool)
    requires t < |s.th| && s.th[t].pc == Flush(d, has, first) && FlushStep(c, s, s', t, d, has, first)
    ensures Keeps(s, s', t)
  {
    hide Keeps;
    if d >= c.n || !c.asyncSend || s.th[t].out[d] == [] || s.th[d].lock.Some? {
      OwnKeeps(s, s', t, s'.th[t]);
    } else {
      assert Put(s, t, s.th[t]) == s;
      LockKeeps(s, t, s.th[t], d, Pushing(d, 0, ToFlush(d + 1, has, first)));
    }
  }

  lemma RecvKeeps(c: Config, s: State, s': State, t: nat, has: bool, first: bool)
    requires t < |s.th| && s.th[t].pc == Recv(has, first) && RecvStep(c, s, s', t, has, first)
    ensures Keeps(s, s', t)
  {
  }

  lemma LockedKeeps(s: State, s': State, t: nat, has: bool, first: bool)
    requires t < |s.th| && s.th[t].pc == Locked(has, first) && LockedStep(s, s', t, has, first)
    ensures Keeps(s, s', t)
  {
  }

  lemma ProcessKeeps(c: Config, s: State, s': State, t: nat, i: nat, has: bool, first: bool)
    requires t < |s.th| && s.th[t].pc == Processing(i, has, first) && ProcessStep(c, s, s', t, i, has, first)
    ensures Keeps(s, s', t)
  {
    hide Config.Pruned, Enter;
    if i < |s.th[t].q| { EnterOwn(s.th[t], s.th[t].q[i].m); }
  }

  lemma TakeKeeps(c: Config, s: State, s': State, e: Step)
    requires e.t < |s.th| && s.th[e.t].pc.TakeOpen? && TakeStep(c, s, s', e)
    ensures Keeps(s, s', e.t)
  {
  }

  lemma DeliverKeeps(c: Config, s: State, s': State, t: nat, m: Msg, rest: seq<Msg>)
    requires t < |s.th| && s.th[t].pc.Deliver? && DeliverStep(c, s, s', t, m, rest)
    ensures Keeps(s, s', t)
  {
    hide Enter, Keeps;
    var x := s.th[t];
    var d := c.owner(m.x);
    EnterOwn(x, m);
    if d == t || s.th[d].lock.Some? {
      OwnKeeps(s, s', t, s'.th[t]);
    } else {
      LockKeeps(s, t, x.(out := x.out[d := x.out[d] + [m]], sent := x.sent[d := x.sent[d] + [m]]), d,
                Pushing(d, 0, ToSending(rest)));
    }
  }

  lemma PushKeeps(s: State, s': State, t: nat, d: nat, i: nat, k: Cont)
    requires t < |s.th| && d < |s.th| && d != t && s.th[t].pc == Pushing(d, i, k) && PushStep(s, s', t, d, i, k)
    ensures Keeps(s, s', t)
  {
  }

  lemma ClearKeeps(s: State, s': State, t: nat, d: nat, k: Cont)
    requires t < |s.th| && d < |s.th| && d != t && s.th[t].pc == HdaStar.Clearing(d, k) && ClearStep(s, s', t, d, k)
    ensures Keeps(s, s', t)
  {
  }

  /** Thread `t` moves on, having changed something that thread `d` shares. */
  lemma GoKeeps(s: State, t: nat, pc: Pc, d: nat, x: Thread)
    requires t < |s.th| && d < |s.th| && d != t && Kept(s.th[d], x)
    requires s.th[d].completed && !x.completed ==> pc.Raising? && pc.d == d
    requires s.th[t].pc.Raising? ==> s.th[t].pc.d == d && !x.qEmpty
    requires !pc.Waiting? && !pc.Deliver? && !pc.TakeOpen? && !pc.Counting? && !pc.Unlocking?
    ensures Keeps(s, Go(Put(s, d, x), t, pc), t)
  {
  }

  /** The thread whose lock `t` holds to tell it of messages is at neither of the steps that it makes under its own lock. */
  lemma NotItself(c: Config, s: State, t: nat)
    requires Inv(c, s) && t < |s.th| && Target(s.th[t].pc).Some?
    ensures var d := Target(s.th[t].pc).value;
            d < |s.th| && d != t && (s.th[t].pc.Uncounted? ==> !s.th[d].pc.Counting? && !s.th[d].pc.Unlocking?)
  {
    assert ThreadOk(c, s, t);
    var d := Target(s.th[t].pc).value;
    assert ThreadOk(c, s, d);
  }

  predicate Posts(pc: Pc) {
    pc.LockFor? || pc.Pushing? || pc.Posting? || pc.Uncounted? || pc.Raising? || pc.Clearing?
  }

  lemma PushesKeeps(c: Config, s: State, s': State, e: Step)
    requires Inv(c, s) && StepTo(c, s, s', e) && var pc := s.th[e.t].pc; pc.LockFor? || pc.Pushing? || pc.Posting?
    ensures Keeps(s, s', e.t)
  {
    NotItself(c, s, e.t);
    hide Inv, Keeps, FlushStep, RecvStep, ProcessStep, TakeStep, DeliverStep, PushStep, ClearStep;
    match s.th[e.t].pc
    case LockFor(d, k) => GoKeeps(s, e.t, Pushing(d, 0, k), d, s.th[d].(lock := Some(e.t)));
    case Pushing(d, i, k) => PushKeeps(s, s', e.t, d, i, k);
    case Posting(d, k) => OwnKeeps(s, s', e.t, s'.th[e.t]);
  }

  lemma TellsKeeps(c: Config, s: State, s': State, e: Step)
    requires Inv(c, s) && StepTo(c, s, s', e) && var pc := s.th[e.t].pc; pc.Uncounted? || pc.Raising? || pc.Clearing?
    ensures Keeps(s, s', e.t)
  {
    NotItself(c, s, e.t);
    hide Inv, Keeps, FlushStep, RecvStep, ProcessStep, TakeStep, DeliverStep, PushStep, ClearStep;
    match s.th[e.t].pc
    case Uncounted(d, k) => GoKeeps(s, e.t, Raising(d, k), d, s.th[d].(completed := false));
    case Raising(d, k) => GoKeeps(s, e.t, HdaStar.Clearing(d, k), d, s.th[d].(qEmpty := false));
    case Clearing(d, k) => ClearKeeps(s, s', e.t, d, k);
  }

  predicate Receives(pc: Pc) {
    pc.Flush? || pc.CheckOpen? || pc.Recv? || pc.Locked? || pc.Processing? || pc.TakeOpen? || pc.Deliver?
  }

  lemma ReceiveKeeps(c: Config, s: State, s': State, e: Step)
    requires StepTo(c, s, s', e) && Receives(s.th[e.t].pc)
    ensures Keeps(s, s', e.t)
  {
    hide Keeps, FlushStep, RecvStep, LockedStep, ProcessStep, TakeStep, DeliverStep, PushStep, ClearStep;
    match s.th[e.t].pc
    case Flush(d, has, first) => FlushKeeps(c, s, s', e.t, d, has, first);
    case CheckOpen(has) => OwnKeeps(s, s', e.t, s'.th[e.t]);
    case Recv(has, first) => RecvKeeps(c, s, s', e.t, has, first);
    case Locked(has, first) => LockedKeeps(s, s', e.t, has, first);
    case Processing(i, has, first) => ProcessKeeps(c, s, s', e.t, i, has, first);
    case TakeOpen => TakeKeeps(c, s, s', e);
    case Deliver(ms) => DeliverKeeps(c, s, s', e.t, ms[0], ms[1..]);
  }

  lemma FindKeeps(c: Config, s: State, s': State, e: Step)
    requires StepTo(c, s, s', e) && var pc := s.th[e.t].pc; pc.Took? || pc.Publish? || pc.ReadBest? || pc.ReadBound?
    ensures Keeps(s, s', e.t)
  {
    hide Keeps, Config.Pruned, Config.Children, Better, IsComplete, FlushStep, RecvStep, LockedStep,
         ProcessStep, TakeStep, DeliverStep, PushStep, ClearStep;
    OwnKeeps(s, s', e.t, s'.th[e.t]);
  }

  lemma SearchKeeps(c: Config, s: State, s': State, e: Step)
    requires StepTo(c, s, s', e) && var pc := s.th[e.t].pc; pc.SwapBound? || pc.Expand? || pc.Sending?
    ensures Keeps(s, s', e.t)
  {
    hide Keeps, Config.Pruned, Config.Children, Better, IsComplete, FlushStep, RecvStep, LockedStep,
         ProcessStep, TakeStep, DeliverStep, PushStep, ClearStep;
    OwnKeeps(s, s', e.t, s'.th[e.t]);
  }

  lemma LoopKeeps(c: Config, s: State, s': State, e: Step)
    requires StepTo(c, s, s', e) && var pc := s.th[e.t].pc; pc.Loop? || pc.Take? || pc.Peek? || pc.Counting?
    ensures Keeps(s, s', e.t)
  {
    hide Keeps, Config.Pruned, Config.Children, Better, IsComplete, FlushStep, RecvStep, LockedStep,
         ProcessStep, TakeStep, DeliverStep, PushStep, ClearStep;
    OwnKeeps(s, s', e.t, s'.th[e.t]);
  }

  lemma WaitKeeps(c: Config, s: State, s': State, e: Step)
    requires StepTo(c, s, s', e) && var pc := s.th[e.t].pc; pc.Unlocking? || pc.Waiting? || pc.Relock?
    ensures Keeps(s, s', e.t)
  {
    hide Keeps, Config.Pruned, Config.Children, Better, IsComplete, FlushStep, RecvStep, LockedStep,
         ProcessStep, TakeStep, DeliverStep, PushStep, ClearStep;
    OwnKeeps(s, s', e.t, s'.th[e.t]);
  }

  lemma WakeKeeps(c: Config, s: State, s': State, e: Step)
    requires StepTo(c, s, s', e) && var pc := s.th[e.t].pc; pc.Woken? || pc.AfterRecv? || pc.SetDone?
    ensures Keeps(s, s', e.t)
  {
    hide Keeps, Config.Pruned, Config.Children, Better, IsComplete, FlushStep, RecvStep, LockedStep,
         ProcessStep, TakeStep, DeliverStep, PushStep, ClearStep;
    OwnKeeps(s, s', e.t, s'.th[e.t]);
  }

  /** Every step of every thread keeps what the threads count on. */
  lemma StepKeeps(c: Config, s: State, s': State, e: Step)
    requires Inv(c, s) && Going(s) && StepTo(c, s, s', e)
    ensures Going(s')
  {
    var pc := s.th[e.t].pc;
    if pc.LockFor? || pc.Pushing? || pc.Posting? {
      PushesKeeps(c, s, s', e);
    } else if pc.Uncounted? || pc.Raising? || pc.Clearing? {
      TellsKeeps(c, s, s', e);
    } else if Receives(pc) {
      ReceiveKeeps(c, s, s', e);
    } else if pc.Took? || pc.Publish? || pc.ReadBest? || pc.ReadBound? {
      FindKeeps(c, s, s', e);
    } else if pc.SwapBound? || pc.Expand? || pc.Sending? {
      SearchKeeps(c, s, s', e);
    } else if pc.Loop? || pc.Take? || pc.Peek? || pc.Counting? {
      LoopKeeps(c, s, s', e);
    } else if pc.Unlocking? || pc.Waiting? || pc.Relock? {
      WaitKeeps(c, s, s', e);
    } else {
      WakeKeeps(c, s, s', e);
    }
    hide StepTo, Inv, Serves;
    assert OwnOk(s.th[e.t]);
    GoingKept(c, s, s', e.t);
  }

  lemma {:induction false} RunGoes(c: Config, tr: seq<State>, i: nat)
    requires c.Valid() && IsRun(c, tr) && i < |tr|
    ensures Inv(c, tr[i]) && Going(tr[i])
  {
    RunKeepsInv(c, tr, i);
    hide Inv, StepTo, Going;
    if i == 0 {
      StartGoes(c, tr[0]);
    } else {
      RunGoes(c, tr, i - 1);
      RunSteps(c, tr, i - 1);
      StepKeeps(c, tr[i - 1], tr[i], TheStep(c, tr[i - 1], tr[i]));
    }
  }

  lemma StartGoes(c: Config, s: State)
    requires Initial(c, s)
    ensures Going(s)
  {
  }

  // ----- nobody is stuck -----

  /** A thread that waits neither for a lock nor for messages can go on. */
  lemma CanGoOn(c: Config, s: State, t: nat) returns (s': State, e: Step)
    requires c.Valid() && Inv(c, s) && Going(s) && t < |s.th| == c.n && !s.th[t].pc.Exited?
    requires s.th[t].pc.LockFor? && s.th[t].pc.d < |s.th| ==> s.th[s.th[t].pc.d].lock.None?
    requires s.th[t].pc.Relock? || (s.th[t].pc.Recv? && (!c.asyncRecv || (s.th[t].open == {} && !s.th[t].root))) ==>
               s.th[t].lock.None?
    requires s.th[t].pc.Waiting? ==> !s.th[t].qEmpty || s.done || s.counter >= c.n
    ensures e.t == t && StepTo(c, s, s', e)
  {
    assert ThreadOk(c, s, t) && OwnOk(s.th[t]);
    Sizes(c, s, t);
    hide Inv, Going, ThreadOk, OwnOk, Enter, Config.Pruned, Config.Children;
    var x := s.th[t];
    if Posts(x.pc) {
      e := Step(t, false, 0, false);
      s' := PostGo(c, s, t);
    } else if Receives(x.pc) {
      s', e := ReceiveGo(c, s, t);
    } else {
      e := Step(t, false, 0, false);
      s' := OtherGo(c, s, t);
    }
  }

  lemma Sizes(c: Config, s: State, t: nat)
    requires c.Valid() && Inv(c, s) && t < |s.th|
    ensures |s.th| == c.n == |s.th[t].out| == |s.th[t].sent|
    ensures Target(s.th[t].pc).Some? ==> Target(s.th[t].pc).value < c.n
  {
    assert ThreadOk(c, s, t);
  }

  lemma PostGo(c: Config, s: State, t: nat) returns (s': State)
    requires t < |s.th| == c.n == |s.th[t].out| && Posts(s.th[t].pc) && s.th[t].pc.d < c.n
    requires s.th[t].pc.LockFor? ==> s.th[s.th[t].pc.d].lock.None?
    ensures StepTo(c, s, s', Step(t, false, 0, false))
  {
    var x := s.th[t];
    var d := x.pc.d;
    s' := if x.pc.LockFor? then Go(SetLock(s, d, Some(t)), t, Pushing(d, 0, x.pc.k))
          else if x.pc.Pushing? then
            if x.pc.i < |x.out[d]| then
              Go(Put(s, d, s.th[d].(q := s.th[d].q + [Entry(t, x.out[d][x.pc.i])])), t, Pushing(d, x.pc.i + 1, x.pc.k))
            else Go(s, t, Posting(d, x.pc.k))
          else if x.pc.Posting? then
            if s.th[d].completed then Go(s.(counter := s.counter - 1), t, Uncounted(d, x.pc.k)) else Go(s, t, Raising(d, x.pc.k))
          else if x.pc.Uncounted? then Go(Put(s, d, s.th[d].(completed := false)), t, Raising(d, x.pc.k))
          else if x.pc.Raising? then Go(Put(s, d, s.th[d].(qEmpty := false)), t, HdaStar.Clearing(d, x.pc.k))
          else Put(SetLock(s, d, None), t, SetLock(s, d, None).th[t].(out := x.out[d := []], pc := Back(x.pc.k)));
  }

  lemma ReceiveGo(c: Config, s: State, t: nat) returns (s': State, e: Step)
    requires c.Valid() && t < |s.th| == c.n == |s.th[t].out| == |s.th[t].sent| && Receives(s.th[t].pc) && OwnOk(s.th[t])
    requires s.th[t].pc.Recv? && (!c.asyncRecv || (s.th[t].open == {} && !s.th[t].root)) ==> s.th[t].lock.None?
    ensures e.t == t && StepTo(c, s, s', e)
  {
    var x := s.th[t];
    e := Step(t, false, 0, false);
    if x.pc.Deliver? {
      s' := DeliverGo(c, s, t, x.pc.ms[0], x.pc.ms[1..]);
    } else if x.pc.TakeOpen? {
      s', e := TakeGo(c, s, t);
    } else if x.pc.Flush? {
      s' := FlushGo(c, s, t, x.pc.d, x.pc.has, x.pc.first);
    } else {
      s' := if x.pc.CheckOpen? then Go(s, t, AfterCheck(x, x.pc.has))
            else if x.pc.Recv? then
              if x.lock.None? then Put(s, t, x.(pc := Locked(x.pc.has, x.pc.first), lock := Some(t)))
              else Go(s, t, if x.pc.first then CheckOpen(x.pc.has) else AfterRecv(x.pc.has))
            else if x.pc.Locked? then
              if x.qEmpty && !x.pc.has && x.open == {} && !x.root then Put(s, t, x.(pc := Counting, completed := true))
              else Go(s, t, Processing(0, x.pc.has, x.pc.first))
            else if x.pc.i >= |x.q| then
              Put(s, t, x.(q := [], qEmpty := true, lock := None,
                           pc := if x.pc.first then CheckOpen(x.pc.has) else AfterRecv(x.pc.has)))
            else
              var y := if c.Pruned(x.q[x.pc.i].m, s.bound) then x else Enter(x, x.q[x.pc.i].m);
              Put(s, t, y.(pc := Processing(x.pc.i + 1, x.pc.has, x.pc.first), got := y.got + [x.q[x.pc.i]]));
      hide Config.Pruned, Enter, FlushStep, TakeStep, DeliverStep;
    }
  }

  lemma FlushGo(c: Config, s: State, t: nat, d: nat, has: bool, first: bool) returns (s': State)
    requires t < |s.th| == c.n == |s.th[t].out|
    ensures FlushStep(c, s, s', t, d, has, first)
  {
    s' := if d >= c.n || !c.asyncSend then Go(s, t, if first then Peek(has) else Recv(has, false))
          else if s.th[t].out[d] == [] then Go(s, t, Flush(d + 1, has, first))
          else if s.th[d].lock.Some? then Go(s, t, Flush(d + 1, true, first))
          else Go(SetLock(s, d, Some(t)), t, Pushing(d, 0, ToFlush(d + 1, has, first)));
  }

  lemma DeliverGo(c: Config, s: State, t: nat, m: Msg, rest: seq<Msg>) returns (s': State)
    requires c.Valid() && t < |s.th| == c.n == |s.th[t].out| == |s.th[t].sent|
    ensures DeliverStep(c, s, s', t, m, rest)
  {
    hide Enter;
    var x := s.th[t];
    var d := c.owner(m.x);
    if d == t {
      s' := Put(s, t, Enter(x, m).(pc := Sending(rest)));
    } else {
      var y := x.(out := x.out[d := x.out[d] + [m]], sent := x.sent[d := x.sent[d] + [m]]);
      s' := if s.th[d].lock.None? then Go(SetLock(Put(s, t, y), d, Some(t)), t, Pushing(d, 0, ToSending(rest)))
            else if c.asyncSend then Put(s, t, y.(pc := Sending(rest)))
            else Put(s, t, y.(pc := LockFor(d, ToSending(rest))));
    }
  }

  lemma TakeGo(c: Config, s: State, t: nat) returns (s': State, e: Step)
    requires t < |s.th| == c.n && s.th[t].pc.TakeOpen? && OwnOk(s.th[t])
    ensures e.t == t && StepTo(c, s, s', e)
  {
    var x := s.th[t];
    e := Step(t, false, 0, x.root);
    if s.done {
      s' := Go(s, t, Loop);
    } else if x.root {
      s' := Put(s, t, x.(pc := Took(Msg(c.graph.init, 0)), root := false));
    } else {
      var y :| y in x.open;
      e := Step(t, false, y, false);
      s' := Put(s, t, x.(pc := Took(Msg(y, x.closed[y])), open := x.open - {y}));
    }
  }

  lemma OtherGo(c: Config, s: State, t: nat) returns (s': State)
    requires t < |s.th| == c.n && !Posts(s.th[t].pc) && !Receives(s.th[t].pc) && !s.th[t].pc.Exited?
    requires s.th[t].pc.Relock? ==> s.th[t].lock.None?
    requires s.th[t].pc.Waiting? ==> !s.th[t].qEmpty || s.done || s.counter >= c.n
    ensures StepTo(c, s, s', Step(t, false, 0, false))
  {
    hide Config.Pruned, Config.Children, Better, FlushStep, RecvStep, LockedStep, ProcessStep, TakeStep, DeliverStep,
         PushStep, ClearStep;
    var x := s.th[t];
    if x.pc.SetDone? {
      s' := Go(s.(done := true), t, Loop);
    } else if x.pc.Counting? {
      s' := Go(s.(counter := s.counter + 1), t, Unlocking);
    } else if x.pc.Publish? {
      s' := Go(s.(best := Some(Better(s.best, x.pc.m.g))), t, ReadBest(x.pc.m));
    } else if x.pc.SwapBound? {
      s' := if s.bound == x.pc.seen then Go(s.(bound := x.pc.b), t, Expand(x.pc.m)) else Go(s, t, ReadBound(x.pc.m, x.pc.b));
    } else {
      s' := Put(s, t, x.(pc := PlainNext(c, s, x), lock := PlainLock(c, s, x, t)));
    }
  }

  /** Where a thread goes that changes nothing but its place and its lock. */
  function PlainNext(c: Config, s: State, x: Thread): Pc {
    match x.pc
    case Loop => if s.done then Exited else Take
    case Take => Peek(true)
    case Peek(has) => if x.qEmpty then CheckOpen(has) else Recv(has, true)
    case Unlocking => Waiting
    case Waiting => Relock
    case Relock => Woken
    case Woken => if s.counter >= c.n then AfterRecv(false) else Processing(0, false, false)
    case AfterRecv(has) => if s.counter >= c.n then SetDone else CheckOpen(has)
    case Took(m) => if c.Pruned(m, s.bound) then Loop else if c.graph.goal(m.x) then Publish(m) else Expand(m)
    case ReadBest(m) => ReadBound(m, Better(s.best, m.g))
    case ReadBound(m, b) => if s.bound <= b then Expand(m) else SwapBound(m, b, s.bound)
    case Expand(m) => Sending(c.Children(m))
    case Sending(ms) => if ms == [] then Loop else if c.Pruned(ms[0], s.bound) then Sending(ms[1..]) else Deliver(ms)
    case _ => x.pc
  }

  function PlainLock(c: Config, s: State, x: Thread, t: nat): Option<nat> {
    if x.pc.Unlocking? || (x.pc.Woken? && s.counter >= c.n) then None
    else if x.pc.Relock? then Some(t)
    else x.lock
  }

  /** A thread for which nothing has to happen first. */
  lemma SomeoneFree(c: Config, s: State) returns (t: nat)
    requires c.Valid() && Inv(c, s) && Going(s) && exists u: nat :: u < |s.th| && !s.th[u].pc.Exited?
    requires forall u: nat :: u < |s.th| && s.th[u].pc.Exited? ==> s.done
    ensures t < |s.th| == c.n && !s.th[t].pc.Exited?
    ensures s.th[t].pc.LockFor? && s.th[t].pc.d < |s.th| ==> s.th[s.th[t].pc.d].lock.None?
    ensures s.th[t].pc.Relock? || s.th[t].pc.Recv? ==> s.th[t].lock.None?
    ensures s.th[t].pc.Waiting? ==> !s.th[t].qEmpty || s.done || s.counter >= c.n
  {
    if d: nat :| d < |s.th| && s.th[d].lock.Some? {
      assert ThreadOk(c, s, d);
      t := s.th[d].lock.value;
      HolderIsFree(s.th[t].pc, t);
    } else if u: nat :| u < |s.th| && !s.th[u].pc.Exited? && !s.th[u].pc.Waiting? {
      t := u;
    } else if u: nat :| u < |s.th| && s.th[u].pc.Waiting? && !s.th[u].qEmpty {
      t := u;
    } else {
      t :| t < |s.th| && !s.th[t].pc.Exited?;
      if !s.done { AllWait(c, s); }
    }
  }

  lemma HolderIsFree(pc: Pc, t: nat)
    requires LockOf(t, pc).Some?
    ensures !pc.LockFor? && !pc.Relock? && !pc.Recv? && !pc.Waiting? && !pc.Exited?
  {
  }

  /** If everybody waits and nobody has messages, the counter is full. */
  lemma AllWait(c: Config, s: State)
    requires Inv(c, s) && Going(s) && forall u: nat :: u < |s.th| ==> s.th[u].pc.Waiting? && s.th[u].qEmpty && s.th[u].lock.None?
    ensures s.counter >= c.n
  {
    forall u: nat | u < |s.th| ensures u in Counted(s) {
      assert WaitsRightly(s, u);
    }
    AllCounted(Counted(s), c.n);
  }

  lemma {:induction false} AllCounted(u: set<nat>, n: nat)
    requires forall x: nat :: x < n ==> x in u
    ensures |u| >= n
  {
    if n > 0 {
      AllCounted(u - {n - 1}, n - 1);
      assert u == u - {n - 1} + {n - 1};
    }
  }

  /** No deadlock: until all threads have left, some thread can go on. */
  lemma SomeoneGoesOn(c: Config, tr: seq<State>, i: nat) returns (s': State, e: Step)
    requires c.Valid() && IsRun(c, tr) && i < |tr| && exists t: nat :: t < |tr[i].th| && !tr[i].th[t].pc.Exited?
    ensures StepTo(c, tr[i], s', e)
  {
    RunGoes(c, tr, i);
    forall u: nat | u < |tr[i].th| && tr[i].th[u].pc.Exited? ensures tr[i].done {
      HdaProgress.ExitMeansDone(c, tr, i, u);
    }
    hide Inv, Going, StepTo, IsRun;
    var t := SomeoneFree(c, tr[i]);
    s', e := CanGoOn(c, tr[i], t);
  }
}
