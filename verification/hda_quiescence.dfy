/** The completion counter of hash-distributed A*: when it is full, nothing is left to do. */
module HdaQuiescence {
  import opened PriorityQueues
  import opened HdaStar

  /** The thread whose queue the thread `t` has locked. */
  function LockOf(t: nat, pc: Pc): Option<nat> {
    match pc
    case Locked(_, _) => Some(t)
    case Counting => Some(t)
    case Unlocking => Some(t)
    case Woken => Some(t)
    case Processing(_, _, _) => Some(t)
    case Pushing(d, _, _) => Some(d)
    case Posting(d, _) => Some(d)
    case Uncounted(d, _) => Some(d)
    case Raising(d, _) => Some(d)
    case Clearing(d, _) => Some(d)
    case _ => None
  }

  /** The buffer that a thread is emptying. */
  function Target(pc: Pc): Option<nat> {
    match pc
    case LockFor(d, _) => Some(d)
    case Pushing(d, _, _) => Some(d)
    case Posting(d, _) => Some(d)
    case Uncounted(d, _) => Some(d)
    case Raising(d, _) => Some(d)
    case Clearing(d, _) => Some(d)
    case _ => None
  }

  function ContOf(pc: Pc): Option<Cont> {
    match pc
    case LockFor(_, k) => Some(k)
    case Pushing(_, _, k) => Some(k)
    case Posting(_, k) => Some(k)
    case Uncounted(_, k) => Some(k)
    case Raising(_, k) => Some(k)
    case Clearing(_, k) => Some(k)
    case _ => None
  }

  /** A thread that has pushed, or is pushing, and has not yet told the receiver. */
  predicate Telling(pc: Pc) { pc.Pushing? || pc.Posting? || pc.Uncounted? || pc.Raising? }

  /** Every buffer but the one being emptied is empty, below `bound`. */
  predicate EmptyBelow(x: Thread, bound: nat) {
    forall e: nat :: e < |x.out| && e < bound && Target(x.pc) != Some(e) ==> x.out[e] == []
  }

  /** What a thread knows about its buffers: `has` is false only if they are empty. */
  predicate BuffersOk(c: Config, x: Thread) {
    && |x.out| == |x.sent| == c.n
    && (!c.asyncSend ==> EmptyBelow(x, c.n))
    && match x.pc
       case Flush(d, has, _) => !has ==> EmptyBelow(x, d)
       case Peek(has) => !has ==> EmptyBelow(x, c.n)
       case CheckOpen(has) => !has ==> EmptyBelow(x, c.n)
       case Recv(has, _) => !has ==> EmptyBelow(x, c.n)
       case Locked(has, _) => !has ==> EmptyBelow(x, c.n)
       case Processing(_, has, _) => !has ==> EmptyBelow(x, c.n)
       case AfterRecv(has) => !has ==> EmptyBelow(x, c.n)
       case Relock => EmptyBelow(x, c.n)
       case Woken => EmptyBelow(x, c.n)
       case Counting => EmptyBelow(x, c.n)
       case Unlocking => EmptyBelow(x, c.n)
       case Waiting => EmptyBelow(x, c.n)
       case _ =>
         && (Target(x.pc).Some? ==> Target(x.pc).value < c.n)
         && (ContOf(x.pc).Some? && ContOf(x.pc).value.ToFlush? && !ContOf(x.pc).value.has ==>
               EmptyBelow(x, ContOf(x.pc).value.d))
  }

  predicate AtFirst(pc: Pc) {
    (pc.Recv? && pc.first) || (pc.Locked? && pc.first) || (pc.Processing? && pc.first)
  }

  /** Who is flagged completed has nothing to do, and goes on only when all are. */
  ghost predicate FlagOk(c: Config, s: State, x: Thread) {
    x.completed ==>
      && x.qEmpty && x.open == {} && !x.root && EmptyBelow(x, c.n)
      && match x.pc
         case Counting => true
         case Unlocking => true
         case Waiting => true
         case Relock => IsComplete(c, s)
         case Woken => IsComplete(c, s)
         case AfterRecv(has) => IsComplete(c, s) && !has
         case SetDone => IsComplete(c, s)
         case Loop => IsComplete(c, s) && s.done
         case Exited => IsComplete(c, s)
         case _ => false
  }

  ghost predicate LocksOk(s: State, t: nat)
    requires t < |s.th|
  {
    var x := s.th[t];
    && (x.lock.Some? ==> x.lock.value < |s.th| && LockOf(x.lock.value, s.th[x.lock.value].pc) == Some(t))
    && (LockOf(t, x.pc).Some? ==> LockOf(t, x.pc).value < |s.th| && s.th[LockOf(t, x.pc).value].lock == Some(t))
    && (Target(x.pc).Some? ==> Target(x.pc).value != t)
    && (t < |x.out| ==> x.out[t] == [])
  }

  /** A queue that is not empty is known to be so, or about to be. */
  ghost predicate QueueOk(s: State, t: nat)
    requires t < |s.th|
  {
    var x := s.th[t];
    && (x.q != [] && x.qEmpty ==>
          x.lock.Some? && x.lock.value != t && x.lock.value < |s.th| && Telling(s.th[x.lock.value].pc))
    && (AtFirst(x.pc) ==> !x.qEmpty)
    && (x.pc.Counting? || x.pc.SetDone? ==> x.completed)
  }

  /** The receiver's flag falls between leaving the counter and hearing of the messages. */
  ghost predicate TellOk(s: State, t: nat)
    requires t < |s.th|
  {
    var x := s.th[t];
    && (x.pc.Uncounted? ==> x.pc.d < |s.th| && s.th[x.pc.d].completed)
    && (x.pc.Raising? ==> x.pc.d < |s.th| && !s.th[x.pc.d].completed)
  }

  /** The threads that the counter counts. */
  ghost function Counted(s: State): set<nat> {
    set t: nat | t < |s.th| && s.th[t].completed && !s.th[t].pc.Counting? && !BeingUncounted(s, t)
  }

  ghost predicate BeingUncounted(s: State, t: nat)
    requires t < |s.th|
  {
    var l := s.th[t].lock;
    l.Some? && l.value < |s.th| && s.th[l.value].pc.Uncounted? && s.th[l.value].pc.d == t
  }

  ghost predicate ThreadOk(c: Config, s: State, t: nat)
    requires t < |s.th|
  {
    BuffersOk(c, s.th[t]) && FlagOk(c, s, s.th[t]) && LocksOk(s, t) && QueueOk(s, t) && TellOk(s, t)
  }

  ghost predicate Inv(c: Config, s: State) {
    && |s.th| == c.n
    && (forall t: nat :: t < |s.th| ==> ThreadOk(c, s, t))
    && s.counter == |Counted(s)|
    && (s.done ==> IsComplete(c, s))
  }

  lemma {:induction false} Bounded(u: set<nat>, n: nat)
    requires forall x :: x in u ==> x < n
    ensures |u| <= n
    ensures |u| == n ==> forall x: nat :: x < n ==> x in u
  {
    if n > 0 {
      Bounded(u - {n - 1}, n - 1);
      if n - 1 in u {
        assert u == (u - {n - 1}) + {n - 1};
      } else {
        assert u - {n - 1} == u;
      }
    } else {
      assert u == {};
    }
  }

  /** The counter never exceeds the number of threads flagged completed, and when
      it is full every thread is flagged and no message is anywhere. */
  lemma FullMeansQuiet(c: Config, s: State)
    requires Inv(c, s)
    ensures 0 <= s.counter <= |set t: nat | t < |s.th| && s.th[t].completed| <= c.n
    ensures IsComplete(c, s) ==> forall t: nat :: t < |s.th| ==> Idle(c, s, t)
  {
    var flagged := set t: nat | t < |s.th| && s.th[t].completed;
    assert Counted(s) <= flagged;
    Smaller(Counted(s), flagged);
    Bounded(flagged, c.n);
    if IsComplete(c, s) {
      Bounded(Counted(s), c.n);
      forall t: nat | t < |s.th| ensures Idle(c, s, t) {
        assert ThreadOk(c, s, t);
        assert t in Counted(s);
        if s.th[t].q != [] { NotTelling(c, s, s.th[t].lock.value); }
      }
    }
  }

  lemma NotTelling(c: Config, s: State, u: nat)
    requires Inv(c, s) && u in Counted(s)
    ensures !Telling(s.th[u].pc)
  {
    assert ThreadOk(c, s, u);
  }

  lemma Smaller<T>(a: set<T>, b: set<T>)
    requires a <= b
    ensures |a| <= |b|
  {
    if a != b { assert b == a + (b - a); }
  }

  /** Nothing to search, to read or to send, and not in the middle of anything. */
  ghost predicate Idle(c: Config, s: State, t: nat)
    requires t < |s.th|
  {
    var x := s.th[t];
    && x.completed && x.open == {} && !x.root && x.q == [] && x.qEmpty
    && |x.out| == c.n && (forall d: nat :: d < c.n ==> x.out[d] == [])
    && (x.pc.Unlocking? || x.pc.Waiting? || x.pc.Relock? || x.pc.Woken? || x.pc.AfterRecv? || x.pc.SetDone?
        || x.pc.Loop? || x.pc.Exited?)
  }

  // ----- every step keeps the invariant -----

  /** A full counter stays full: nobody is in a position to lower it. */
  lemma FullStaysFull(c: Config, s: State, s': State, e: Step)
    requires Inv(c, s) && IsComplete(c, s) && StepTo(c, s, s', e)
    ensures IsComplete(c, s') && s'.counter == s.counter
  {
    FullMeansQuiet(c, s);
    assert Idle(c, s, e.t);
    hide Inv;
  }

  /** Thread `t` acts, on itself and on what thread `d` shares with it. */
  ghost predicate Acts(s: State, s': State, t: nat, d: nat) {
    && |s'.th| == |s.th| && t < |s.th| && d < |s.th|
    && (forall u: nat :: u < |s.th| && u != t && u != d ==> s'.th[u] == s.th[u])
    && (LockOf(t, s.th[t].pc).Some? ==> LockOf(t, s.th[t].pc).value in {t, d})
    && (d != t ==> s'.th[d].pc == s.th[d].pc)
    && (forall x :: x in {t, d} && s.th[x].lock.Some? && s.th[x].lock.value != t ==> s'.th[x].completed == s.th[x].completed)
  }

  lemma OthersOk(c: Config, s: State, s': State, t: nat, d: nat, u: nat)
    requires Inv(c, s) && Acts(s, s', t, d) && u < |s.th| && u != t && u != d
    requires (IsComplete(c, s) ==> IsComplete(c, s')) && (s.done ==> s'.done)
    requires forall x :: x in {t, d} && s.th[x].lock.Some? && s.th[x].lock.value != t ==> s'.th[x].lock == s.th[x].lock
    ensures ThreadOk(c, s', u)
  {
    hide BuffersOk, FlagOk, IsComplete, Counted;
    assert ThreadOk(c, s, u);
    FlagSame(c, s, s', s.th[u], s'.th[u]);
  }

  lemma Frame(c: Config, s: State, s': State, t: nat, d: nat)
    requires Inv(c, s) && Acts(s, s', t, d)
    requires (IsComplete(c, s) ==> IsComplete(c, s')) && (s.done ==> s'.done) && (s'.done ==> IsComplete(c, s'))
    requires forall x :: x in {t, d} && s.th[x].lock.Some? && s.th[x].lock.value != t ==> s'.th[x].lock == s.th[x].lock
    requires ThreadOk(c, s', t) && ThreadOk(c, s', d)
    requires s'.counter == |Counted(s')|
    ensures Inv(c, s')
  {
    forall u: nat | u < |s'.th| ensures ThreadOk(c, s', u) {
      if u != t && u != d { OthersOk(c, s, s', t, d, u); }
    }
    hide ThreadOk, Acts, Counted;
  }

  /** The counter's steps. */
  lemma CountedKept(s: State, s': State)
    requires |s'.th| == |s.th|
    requires forall t: nat :: t < |s.th| ==> (t in Counted(s) <==> t in Counted(s'))
    ensures Counted(s') == Counted(s)
  {
    assert forall x :: x in Counted(s) ==> x < |s.th|;
    assert forall x :: x in Counted(s') ==> x < |s'.th|;
  }

  predicate MovesOn(t: nat, x: Thread, x': Thread) {
    && x' == x.(pc := x'.pc, open := x'.open, closed := x'.closed, root := x'.root, got := x'.got)
    && LockOf(t, x'.pc) == LockOf(t, x.pc)
    && x'.pc.Counting? == x.pc.Counting? && x'.pc.Uncounted? == x.pc.Uncounted?
    && (Telling(x.pc) ==> Telling(x'.pc))
  }

  /** A step that only moves thread `t` on, and may change its lists. */
  ghost predicate Moves(s: State, s': State, t: nat) {
    && t < |s.th| == |s'.th|
    && s'.th == s.th[t := s'.th[t]]
    && MovesOn(t, s.th[t], s'.th[t])
    && s'.counter == s.counter && (s.done ==> s'.done)
  }

  lemma MovesInv(c: Config, s: State, s': State, t: nat)
    requires Inv(c, s) && Moves(s, s', t) && (s'.done ==> IsComplete(c, s))
    requires BuffersOk(c, s'.th[t]) && FlagOk(c, s', s'.th[t])
    requires Target(s'.th[t].pc).Some? ==> Target(s'.th[t].pc).value != t
    requires AtFirst(s'.th[t].pc) ==> !s'.th[t].qEmpty
    requires s'.th[t].pc.SetDone? ==> s'.th[t].completed
    requires s'.th[t].pc.Raising? ==> s.th[t].pc.Posting? && s'.th[t].pc.d == s.th[t].pc.d < |s.th| && !s.th[s.th[t].pc.d].completed
    ensures Inv(c, s')
  {
    assert ThreadOk(c, s, t);
    forall u: nat | u < |s.th| ensures u in Counted(s) <==> u in Counted(s') {
      assert ThreadOk(c, s, u);
    }
    CountedKept(s, s');
    MovesOk(c, s, s', t);
    var d := if LockOf(t, s.th[t].pc).Some? then LockOf(t, s.th[t].pc).value else t;
    if d != t { LockedOk(c, s, s', t, d); }
    hide BuffersOk, FlagOk, Counted, QueueOk;
    Frame(c, s, s', t, d);
  }

  /** The thread whose lock `t` holds does not notice. */
  lemma LockedOk(c: Config, s: State, s': State, t: nat, d: nat)
    requires Inv(c, s) && Moves(s, s', t) && d != t && LockOf(t, s.th[t].pc) == Some(d)
    ensures d < |s.th| && ThreadOk(c, s', d)
  {
    assert ThreadOk(c, s, t) && ThreadOk(c, s, d);
    hide BuffersOk;
  }

  lemma MovesOk(c: Config, s: State, s': State, t: nat)
    requires Inv(c, s) && Moves(s, s', t)
    requires Target(s'.th[t].pc).Some? ==> Target(s'.th[t].pc).value != t
    requires AtFirst(s'.th[t].pc) ==> !s'.th[t].qEmpty
    requires s'.th[t].pc.SetDone? ==> s'.th[t].completed
    requires s'.th[t].pc.Raising? ==> s.th[t].pc.Posting? && s'.th[t].pc.d == s.th[t].pc.d < |s.th| && !s.th[s.th[t].pc.d].completed
    ensures LocksOk(s', t) && QueueOk(s', t) && TellOk(s', t)
  {
    hide BuffersOk, FlagOk;
    assert ThreadOk(c, s, t);
    var l := s.th[t].lock;
    if l.Some? && l.value < |s.th| { assert ThreadOk(c, s, l.value); }
  }

  predicate AtLoop(pc: Pc) { pc.Loop? || pc.Take? || pc.Peek? || pc.CheckOpen? || pc.Waiting? }

  lemma LoopInv(c: Config, s: State, s': State, e: Step)
    requires Inv(c, s) && StepTo(c, s, s', e) && AtLoop(s.th[e.t].pc)
    ensures Inv(c, s')
  {
    LoopMoves(c, s, s', e);
    assert ThreadOk(c, s, e.t) && (s'.done ==> IsComplete(c, s));
    SameComplete(c, s, s');
    LoopOwn(c, s, s', e);
    hide StepTo, Moves, Inv, BuffersOk, FlagOk, IsComplete;
    MovesInv(c, s, s', e.t);
  }

  lemma LoopMoves(c: Config, s: State, s': State, e: Step)
    requires StepTo(c, s, s', e) && AtLoop(s.th[e.t].pc)
    ensures Moves(s, s', e.t) && s'.done == s.done && s'.counter == s.counter
    ensures Target(s'.th[e.t].pc).None? && !s'.th[e.t].pc.SetDone? && !s'.th[e.t].pc.Raising?
    ensures AtFirst(s'.th[e.t].pc) ==> !s'.th[e.t].qEmpty
  {
  }

  lemma LoopOwn(c: Config, s: State, s': State, e: Step)
    requires StepTo(c, s, s', e) && AtLoop(s.th[e.t].pc) && (s.done ==> IsComplete(c, s))
    requires BuffersOk(c, s.th[e.t]) && FlagOk(c, s, s.th[e.t])
    ensures BuffersOk(c, s'.th[e.t]) && FlagOk(c, s', s'.th[e.t])
  {
  }

  /** The places of a thread at which it neither reports on its buffers nor empties one. */
  predicate Plain(pc: Pc) {
    pc.TakeOpen? || pc.Took? || pc.Publish? || pc.ReadBest? || pc.ReadBound? || pc.SwapBound? || pc.Expand? || pc.Sending? || pc.Deliver?
    || pc.Loop?
  }

  lemma PlainInv(c: Config, s: State, s': State, t: nat)
    requires Inv(c, s) && Moves(s, s', t) && (s'.done ==> IsComplete(c, s))
    requires Plain(s.th[t].pc) && Plain(s'.th[t].pc) && !s.th[t].pc.Loop?
    ensures Inv(c, s')
  {
    assert ThreadOk(c, s, t);
    hide Counted, Inv;
    MovesInv(c, s, s', t);
  }

  lemma SearchInv(c: Config, s: State, s': State, e: Step)
    requires Inv(c, s) && StepTo(c, s, s', e)
    requires Plain(s.th[e.t].pc) && !s.th[e.t].pc.Loop? && !s.th[e.t].pc.Deliver?
    ensures Inv(c, s')
  {
    SearchMoves(c, s, s', e);
    hide StepTo, Moves;
    PlainInv(c, s, s', e.t);
  }

  lemma SearchMoves(c: Config, s: State, s': State, e: Step)
    requires StepTo(c, s, s', e)
    requires Plain(s.th[e.t].pc) && !s.th[e.t].pc.Loop? && !s.th[e.t].pc.Deliver?
    ensures Moves(s, s', e.t) && Plain(s'.th[e.t].pc) && s'.done == s.done
  {
    hide Config.Pruned, Config.Children, Go, Put, TakeStep, Moves;
    match s.th[e.t].pc
    case TakeOpen => TakeMoves(c, s, s', e);
    case Took(m) =>
      GoMoves(s, s, s', e.t, if c.Pruned(m, s.bound) then Loop else if c.graph.goal(m.x) then Publish(m) else Expand(m));
    case Publish(m) => GoMoves(s, s.(best := Some(Better(s.best, m.g))), s', e.t, ReadBest(m));
    case ReadBest(m) => GoMoves(s, s, s', e.t, ReadBound(m, Better(s.best, m.g)));
    case ReadBound(m, b) => GoMoves(s, s, s', e.t, if s.bound <= b then Expand(m) else SwapBound(m, b, s.bound));
    case SwapBound(m, b, seen) =>
      if s.bound == seen { GoMoves(s, s.(bound := b), s', e.t, Expand(m)); } else { GoMoves(s, s, s', e.t, ReadBound(m, b)); }
    case Expand(m) => GoMoves(s, s, s', e.t, Sending(c.Children(m)));
    case Sending(ms) =>
      GoMoves(s, s, s', e.t, if ms == [] then Loop else if c.Pruned(ms[0], s.bound) then Sending(ms[1..]) else Deliver(ms));
    case _ =>
  }

  /** A step that does no more than go on to `pc`; `r` differs from `s` in the bound and the best solution at most. */
  lemma GoMoves(s: State, r: State, s': State, t: nat, pc: Pc)
    requires t < |s.th| && r.th == s.th && s' == Go(r, t, pc) && r.counter == s.counter && r.done == s.done
    requires LockOf(t, pc) == LockOf(t, s.th[t].pc)
    requires pc.Counting? == s.th[t].pc.Counting? && pc.Uncounted? == s.th[t].pc.Uncounted?
    requires Telling(s.th[t].pc) ==> Telling(pc)
    ensures Moves(s, s', t) && s'.th[t] == s.th[t].(pc := pc) && s'.done == s.done
  {
  }

  lemma TakeMoves(c: Config, s: State, s': State, e: Step)
    requires e.t < |s.th| && s.th[e.t].pc.TakeOpen? && TakeStep(c, s, s', e)
    ensures Moves(s, s', e.t) && Plain(s'.th[e.t].pc) && s'.done == s.done
  {
  }

  lemma DoneInv(c: Config, s: State, s': State, e: Step)
    requires Inv(c, s) && StepTo(c, s, s', e)
    requires var pc := s.th[e.t].pc; pc.AfterRecv? || pc.SetDone?
    ensures Inv(c, s')
  {
    assert ThreadOk(c, s, e.t);
    if IsComplete(c, s) {
      FullMeansQuiet(c, s);
      assert Idle(c, s, e.t);
    }
    hide Counted;
    MovesInv(c, s, s', e.t);
  }

  lemma FlushInv(c: Config, s: State, s': State, e: Step)
    requires Inv(c, s) && StepTo(c, s, s', e) && s.th[e.t].pc.Flush?
    ensures Inv(c, s')
  {
    var d, has, first := s.th[e.t].pc.d, s.th[e.t].pc.has, s.th[e.t].pc.first;
    FlushFacts(c, s, e.t);
    if d >= c.n || !c.asyncSend || s.th[e.t].out[d] == [] || s.th[d].lock.Some? {
      FlushMoves(c, s, s', e);
      hide StepTo, Moves, Inv, BuffersOk, FlagOk, IsComplete;
      MovesInv(c, s, s', e.t);
    } else {
      FlushOwn(c, s.th[e.t], d, has, first);
      hide Inv, BuffersOk, FlagOk, IsComplete;
      GrabInv(c, s, s', e.t, d, ToFlush(d + 1, has, first));
    }
  }

  lemma FlushFacts(c: Config, s: State, t: nat)
    requires Inv(c, s) && t < |s.th| && s.th[t].pc.Flush?
    ensures BuffersOk(c, s.th[t]) && !s.th[t].completed && (s.done ==> IsComplete(c, s))
    ensures |s.th[t].out| == |s.th| == c.n && s.th[t].out[t] == []
  {
    assert ThreadOk(c, s, t);
  }

  lemma FlushMoves(c: Config, s: State, s': State, e: Step)
    requires StepTo(c, s, s', e) && s.th[e.t].pc.Flush? && BuffersOk(c, s.th[e.t]) && !s.th[e.t].completed
    requires var d := s.th[e.t].pc.d; d >= c.n || !c.asyncSend || s.th[e.t].out[d] == [] || s.th[d].lock.Some?
    ensures Moves(s, s', e.t) && s'.done == s.done && BuffersOk(c, s'.th[e.t]) && FlagOk(c, s', s'.th[e.t])
    ensures Target(s'.th[e.t].pc).None? && !s'.th[e.t].pc.SetDone? && !s'.th[e.t].pc.Raising? && !AtFirst(s'.th[e.t].pc)
  {
  }

  lemma FlushOwn(c: Config, x: Thread, d: nat, has: bool, first: bool)
    requires BuffersOk(c, x) && x.pc == Flush(d, has, first) && d < c.n
    ensures BuffersOk(c, x.(pc := Pushing(d, 0, ToFlush(d + 1, has, first))))
  {
  }

  /** Taking the free lock of another thread in order to flush a buffer into its queue. */
  lemma GrabInv(c: Config, s: State, s': State, t: nat, d: nat, k: Cont)
    requires Inv(c, s) && t < |s.th| && d < |s.th| && d != t && s.th[d].lock.None? && LockOf(t, s.th[t].pc).None?
    requires s' == Go(SetLock(s, d, Some(t)), t, Pushing(d, 0, k))
    requires BuffersOk(c, s'.th[t]) && !s.th[t].completed
    ensures Inv(c, s')
  {
    hide BuffersOk, FlagOk, QueueOk, TellOk, IsComplete;
    assert ThreadOk(c, s, t) && ThreadOk(c, s, d);
    forall u: nat | u < |s.th| ensures u in Counted(s) <==> u in Counted(s') {
      assert ThreadOk(c, s, u);
    }
    CountedKept(s, s');
    SameComplete(c, s, s');
    hide Counted;
    GrabOk(c, s, s', t, d, k);
    Frame(c, s, s', t, d);
  }

  lemma SameComplete(c: Config, s: State, s': State)
    requires s'.counter == s.counter
    ensures IsComplete(c, s') == IsComplete(c, s)
  {
  }

  lemma GrabOk(c: Config, s: State, s': State, t: nat, d: nat, k: Cont)
    requires Inv(c, s) && t < |s.th| && d < |s.th| && d != t && s.th[d].lock.None? && LockOf(t, s.th[t].pc).None?
    requires s' == Go(SetLock(s, d, Some(t)), t, Pushing(d, 0, k))
    requires BuffersOk(c, s'.th[t]) && !s.th[t].completed
    ensures ThreadOk(c, s', t) && ThreadOk(c, s', d)
  {
    hide Counted, EmptyBelow, IsComplete;
    SameComplete(c, s, s');
    assert ThreadOk(c, s, t) && ThreadOk(c, s, d);
    FlagSame(c, s, s', s.th[d], s'.th[d]);
    BuffersSame(c, s.th[d], s'.th[d]);
    NotFlagged(c, s', s'.th[t]);
    hide BuffersOk, FlagOk;
    var l := s.th[t].lock;
    if l.Some? && l.value < |s.th| { assert ThreadOk(c, s, l.value); }
    GrabParts(s, s', t, d, k);
    hide LocksOk, QueueOk, TellOk;
  }

  lemma GrabParts(s: State, s': State, t: nat, d: nat, k: Cont)
    requires t < |s.th| && d < |s.th| && d != t && s.th[d].lock.None? && LockOf(t, s.th[t].pc).None?
    requires s' == Go(SetLock(s, d, Some(t)), t, Pushing(d, 0, k))
    requires LocksOk(s, t) && QueueOk(s, t) && LocksOk(s, d) && QueueOk(s, d) && TellOk(s, d)
    requires s.th[t].lock.Some? && s.th[t].lock.value < |s.th| ==> LocksOk(s, s.th[t].lock.value)
    ensures LocksOk(s', t) && QueueOk(s', t) && TellOk(s', t)
    ensures LocksOk(s', d) && QueueOk(s', d) && TellOk(s', d)
  {
    assert s'.th[t] == s.th[t].(pc := Pushing(d, 0, k)) && s'.th[d] == s.th[d].(lock := Some(t));
  }

  lemma NotFlagged(c: Config, s: State, x: Thread)
    requires !x.completed
    ensures FlagOk(c, s, x)
  {
  }

  lemma FlagSame(c: Config, s: State, s': State, x: Thread, x': Thread)
    requires FlagOk(c, s, x) && (IsComplete(c, s) ==> IsComplete(c, s')) && (s.done ==> s'.done)
    requires x'.out == x.out && x'.pc == x.pc && x'.completed == x.completed && x'.qEmpty == x.qEmpty
    requires x'.open == x.open && x'.root == x.root
    ensures FlagOk(c, s', x')
  {
  }

  lemma BuffersSame(c: Config, x: Thread, x': Thread)
    requires BuffersOk(c, x) && x'.out == x.out && x'.sent == x.sent && x'.pc == x.pc
    ensures BuffersOk(c, x')
  {
  }

  // --- a thread and its own lock ---

  /** Thread `t` changes what it shares under its own lock, which it takes, holds or gives back. */
  ghost predicate OwnLock(s: State, s': State, t: nat) {
    && t < |s.th| == |s'.th| && s'.th == s.th[t := s'.th[t]]
    && (LockOf(t, s.th[t].pc).Some? ==> LockOf(t, s.th[t].pc) == Some(t))
    && (s.th[t].lock.Some? ==> s.th[t].lock == Some(t))
    && s'.th[t].lock == LockOf(t, s'.th[t].pc)
    && (s'.th[t].lock.Some? ==> s'.th[t].lock == Some(t))
    && Target(s'.th[t].pc).None? && s'.th[t].out == s.th[t].out
    && s'.done == s.done
  }

  lemma OwnInv(c: Config, s: State, s': State, t: nat)
    requires Inv(c, s) && OwnLock(s, s', t) && (IsComplete(c, s) ==> IsComplete(c, s'))
    requires BuffersOk(c, s'.th[t]) && FlagOk(c, s', s'.th[t]) && s'.counter == |Counted(s')|
    requires s'.th[t].q != [] && s'.th[t].qEmpty ==> false
    requires AtFirst(s'.th[t].pc) ==> !s'.th[t].qEmpty
    requires s'.th[t].pc.Counting? || s'.th[t].pc.SetDone? ==> s'.th[t].completed
    ensures Inv(c, s')
  {
    hide BuffersOk, FlagOk, IsComplete, Counted;
    assert ThreadOk(c, s, t);
    Frame(c, s, s', t, t);
  }

  /** The counted threads when only `t` changes. */
  lemma CountedOwn(c: Config, s: State, s': State, t: nat)
    requires Inv(c, s) && OwnLock(s, s', t)
    ensures forall u: nat :: u < |s.th| && u != t ==> (u in Counted(s) <==> u in Counted(s'))
    ensures t in Counted(s') <==> s'.th[t].completed && !s'.th[t].pc.Counting?
    ensures t in Counted(s) <==> s.th[t].completed && !s.th[t].pc.Counting?
    ensures Counted(s') == if t in Counted(s') then Counted(s) + {t} else Counted(s) - {t}
  {
    hide BuffersOk, FlagOk, IsComplete, QueueOk, TellOk;
    forall u: nat | u < |s.th| && u != t ensures u in Counted(s) <==> u in Counted(s') {
      assert ThreadOk(c, s, u);
    }
    assert ThreadOk(c, s, t);
    assert forall x :: x in Counted(s) ==> x < |s.th|;
    assert forall x :: x in Counted(s') ==> x < |s.th|;
  }

  predicate AtOwnLock(pc: Pc) {
    pc.Recv? || pc.Locked? || pc.Counting? || pc.Unlocking? || pc.Relock? || pc.Woken?
  }

  lemma OwnLockInv(c: Config, s: State, s': State, e: Step)
    requires Inv(c, s) && StepTo(c, s, s', e) && AtOwnLock(s.th[e.t].pc)
    requires s.th[e.t].pc.Recv? ==> s.th[e.t].lock.None?
    ensures Inv(c, s')
  {
    hide Inv, Go, Put, RecvStep, LockedStep, IsComplete;
    match s.th[e.t].pc
    case Recv(has, first) => RecvForm(c, s, s', e.t, has, first); RecvOwn(c, s, s', e.t, has, first);
    case Locked(has, first) => LockedForm(s, s', e.t, has, first); LockedOwn(c, s, s', e.t, has, first);
    case Counting => GoForm(s.(counter := s.counter + 1), s', e.t, Unlocking); CountingOwn(c, s, s', e.t);
    case Unlocking => PutForm(s, s', e.t, s.th[e.t].(pc := Waiting, lock := None)); UnlockingOwn(c, s, s', e.t);
    case Relock => PutForm(s, s', e.t, s.th[e.t].(pc := Woken, lock := Some(e.t))); RelockOwn(c, s, s', e.t);
    case Woken =>
      if IsComplete(c, s) {
        PutForm(s, s', e.t, s.th[e.t].(pc := AfterRecv(false), lock := None));
      } else {
        GoForm(s, s', e.t, Processing(0, false, false));
      }
      WokenOwn(c, s, s', e.t);
    case _ =>
  }

  /** The own record after such a step. */
  predicate OwnRecord(t: nat, x: Thread, x': Thread) {
    && AtOwnLock(x.pc) && (x.pc.Recv? || x.pc.Relock? ==> x.lock.None?)
    && (AtOwnLock(x'.pc) || x'.pc.Waiting? || x'.pc.Processing? || x'.pc.AfterRecv?)
    && x'.q == x.q && x'.qEmpty == x.qEmpty && x'.out == x.out && x'.lock == LockOf(t, x'.pc)
    && (AtFirst(x'.pc) ==> AtFirst(x.pc)) && (x'.pc.Counting? ==> x'.completed)
  }

  lemma OwnCase(c: Config, s: State, s': State, t: nat, x': Thread)
    requires Inv(c, s) && t < |s.th| && s' == s.(th := s.th[t := x'], counter := s'.counter)
    requires OwnRecord(t, s.th[t], x') && (IsComplete(c, s) ==> IsComplete(c, s'))
    requires BuffersOk(c, x') && FlagOk(c, s', x')
    requires s'.counter == s.counter + One(x'.completed && !x'.pc.Counting?)
                                     - One(s.th[t].completed && !s.th[t].pc.Counting?)
    ensures Inv(c, s')
  {
    OwnFacts(c, s, t);
    InvCounter(c, s);
    hide BuffersOk, FlagOk, IsComplete, Counted;
    OwnShape(s, s', t, x');
    CountedOwn(c, s, s', t);
    hide Inv, OwnLock, OwnRecord;
    CountOwn(Counted(s), Counted(s'), t);
    OwnInv(c, s, s', t);
  }

  function One(b: bool): int { if b then 1 else 0 }

  lemma OwnShape(s: State, s': State, t: nat, x': Thread)
    requires t < |s.th| && s' == s.(th := s.th[t := x'], counter := s'.counter)
    requires OwnRecord(t, s.th[t], x') && LocksOk(s, t) && QueueOk(s, t)
    ensures OwnLock(s, s', t) && s'.th[t] == x'
    ensures (x'.q != [] && x'.qEmpty ==> false) && (AtFirst(x'.pc) ==> !x'.qEmpty) && !x'.pc.SetDone?
  {
  }

  lemma RecvOwn(c: Config, s: State, s': State, t: nat, has: bool, first: bool)
    requires Inv(c, s) && t < |s.th| && s.th[t].pc == Recv(has, first) && s.th[t].lock.None?
    requires s' == s.(th := s.th[t := s.th[t].(pc := Locked(has, first), lock := Some(t))])
    ensures Inv(c, s')
  {
    var x' := s.th[t].(pc := Locked(has, first), lock := Some(t));
    OwnFacts(c, s, t);
    EmptySame(s.th[t], x', c.n);
    hide EmptyBelow, IsComplete, Inv;
    NotFlagged(c, s', x');
    SameComplete(c, s, s');
    OwnCase(c, s, s', t, x');
  }

  lemma LockedOwn(c: Config, s: State, s': State, t: nat, has: bool, first: bool)
    requires Inv(c, s) && t < |s.th| && s.th[t].pc == Locked(has, first)
    requires s' == s.(th := s.th[t := AfterLocked(s.th[t], has, first)])
    ensures Inv(c, s')
  {
    var x' := AfterLocked(s.th[t], has, first);
    OwnFacts(c, s, t);
    EmptySame(s.th[t], x', c.n);
    hide EmptyBelow, IsComplete, Inv;
    SameComplete(c, s, s');
    OwnCase(c, s, s', t, x');
  }

  lemma CountingOwn(c: Config, s: State, s': State, t: nat)
    requires Inv(c, s) && t < |s.th| && s.th[t].pc.Counting?
    requires s' == s.(th := s.th[t := s.th[t].(pc := Unlocking)], counter := s.counter + 1)
    ensures Inv(c, s')
  {
    var x' := s.th[t].(pc := Unlocking);
    OwnFacts(c, s, t);
    EmptySame(s.th[t], x', c.n);
    hide EmptyBelow, Inv;
    OwnCase(c, s, s', t, x');
  }

  lemma UnlockingOwn(c: Config, s: State, s': State, t: nat)
    requires Inv(c, s) && t < |s.th| && s.th[t].pc.Unlocking?
    requires s' == s.(th := s.th[t := s.th[t].(pc := Waiting, lock := None)])
    ensures Inv(c, s')
  {
    var x' := s.th[t].(pc := Waiting, lock := None);
    OwnFacts(c, s, t);
    EmptySame(s.th[t], x', c.n);
    hide EmptyBelow, Inv;
    OwnCase(c, s, s', t, x');
  }

  lemma RelockOwn(c: Config, s: State, s': State, t: nat)
    requires Inv(c, s) && t < |s.th| && s.th[t].pc.Relock? && s.th[t].lock.None?
    requires s' == s.(th := s.th[t := s.th[t].(pc := Woken, lock := Some(t))])
    ensures Inv(c, s')
  {
    var x' := s.th[t].(pc := Woken, lock := Some(t));
    OwnFacts(c, s, t);
    EmptySame(s.th[t], x', c.n);
    hide EmptyBelow, Inv;
    OwnCase(c, s, s', t, x');
  }

  /** A thread that was woken without the search being complete is not flagged any more. */
  lemma WokenOwn(c: Config, s: State, s': State, t: nat)
    requires Inv(c, s) && t < |s.th| && s.th[t].pc.Woken?
    requires s' == s.(th := s.th[t := if IsComplete(c, s) then s.th[t].(pc := AfterRecv(false), lock := None)
                                      else s.th[t].(pc := Processing(0, false, false))])
    ensures Inv(c, s')
  {
    var x' := if IsComplete(c, s) then s.th[t].(pc := AfterRecv(false), lock := None)
              else s.th[t].(pc := Processing(0, false, false));
    OwnFacts(c, s, t);
    EmptySame(s.th[t], x', c.n);
    hide EmptyBelow, Inv;
    OwnCase(c, s, s', t, x');
  }

  function AfterLocked(x: Thread, has: bool, first: bool): Thread {
    if x.qEmpty && !has && x.open == {} && !x.root then x.(pc := Counting, completed := true)
    else x.(pc := Processing(0, has, first))
  }

  lemma PutForm(s: State, s': State, t: nat, x: Thread)
    requires t < |s.th| && s' == Put(s, t, x)
    ensures s' == s.(th := s.th[t := x])
  {
  }

  lemma GoForm(s: State, s': State, t: nat, pc: Pc)
    requires t < |s.th| && s' == Go(s, t, pc)
    ensures s' == s.(th := s.th[t := s.th[t].(pc := pc)])
  {
  }

  lemma RecvForm(c: Config, s: State, s': State, t: nat, has: bool, first: bool)
    requires t < |s.th| && s.th[t].lock.None? && RecvStep(c, s, s', t, has, first)
    ensures s' == s.(th := s.th[t := s.th[t].(pc := Locked(has, first), lock := Some(t))])
  {
  }

  lemma LockedForm(s: State, s': State, t: nat, has: bool, first: bool)
    requires t < |s.th| && LockedStep(s, s', t, has, first)
    ensures s' == s.(th := s.th[t := AfterLocked(s.th[t], has, first)])
  {
  }

  lemma InvCounter(c: Config, s: State)
    requires Inv(c, s)
    ensures s.counter == |Counted(s)| && |s.th| == c.n && (s.done ==> IsComplete(c, s))
  {
  }

  lemma CountOwn(u: set<nat>, u': set<nat>, t: nat)
    requires u' == if t in u' then u + {t} else u - {t}
    ensures |u'| == |u| + One(t in u') - One(t in u)
  {
    if t in u' && t in u { assert u' == u; }
    if t !in u' && t in u { assert u == u' + {t}; }
    if t !in u' && t !in u { assert u' == u; }
  }

  lemma OwnFacts(c: Config, s: State, t: nat)
    requires Inv(c, s) && t < |s.th|
    ensures BuffersOk(c, s.th[t]) && FlagOk(c, s, s.th[t]) && LocksOk(s, t) && QueueOk(s, t) && TellOk(s, t)
    ensures |s.th| == c.n
  {
    assert ThreadOk(c, s, t);
  }

  lemma EmptySame(x: Thread, x': Thread, bound: nat)
    requires x'.out == x.out && Target(x'.pc).None?
    ensures EmptyBelow(x, bound) && Target(x.pc).None? ==> EmptyBelow(x', bound)
  {
  }

  lemma RecvInv(c: Config, s: State, s': State, e: Step)
    requires Inv(c, s) && StepTo(c, s, s', e) && s.th[e.t].pc.Recv?
    ensures Inv(c, s')
  {
    if s.th[e.t].lock.None? {
      OwnLockInv(c, s, s', e);
    } else {
      OwnFacts(c, s, e.t);
      InvCounter(c, s);
      RecvMoves(c, s, s', e);
      hide StepTo, Moves, Inv, BuffersOk, FlagOk, IsComplete;
      MovesInv(c, s, s', e.t);
    }
  }

  lemma RecvMoves(c: Config, s: State, s': State, e: Step)
    requires StepTo(c, s, s', e) && s.th[e.t].pc.Recv? && s.th[e.t].lock.Some?
    requires BuffersOk(c, s.th[e.t]) && FlagOk(c, s, s.th[e.t])
    ensures Moves(s, s', e.t) && s'.done == s.done && BuffersOk(c, s'.th[e.t]) && FlagOk(c, s', s'.th[e.t])
    ensures Target(s'.th[e.t].pc).None? && !s'.th[e.t].pc.SetDone? && !s'.th[e.t].pc.Raising? && !AtFirst(s'.th[e.t].pc)
  {
    hide EmptyBelow;
    EmptySame(s.th[e.t], s'.th[e.t], c.n);
  }

  // --- reading the queue ---

  lemma ProcessInv(c: Config, s: State, s': State, e: Step)
    requires Inv(c, s) && StepTo(c, s, s', e) && s.th[e.t].pc.Processing?
    ensures Inv(c, s')
  {
    var t := e.t;
    OwnFacts(c, s, t);
    InvCounter(c, s);
    ProcessOwn(c, s, s', e);
    if s.th[t].pc.i < |s.th[t].q| {
      hide StepTo, Moves, Inv, BuffersOk, FlagOk, IsComplete;
      MovesInv(c, s, s', t);
    } else {
      CountedOwn(c, s, s', t);
      SameComplete(c, s, s');
      hide Inv, BuffersOk, FlagOk, StepTo, OwnLock, Counted, IsComplete;
      CountOwn(Counted(s), Counted(s'), t);
      OwnInv(c, s, s', t);
    }
  }

  lemma ProcessOwn(c: Config, s: State, s': State, e: Step)
    requires StepTo(c, s, s', e) && s.th[e.t].pc.Processing? && LocksOk(s, e.t) && QueueOk(s, e.t)
    requires BuffersOk(c, s.th[e.t]) && FlagOk(c, s, s.th[e.t])
    ensures s'.done == s.done && s'.counter == s.counter
    ensures BuffersOk(c, s'.th[e.t]) && FlagOk(c, s', s'.th[e.t]) && !s'.th[e.t].completed && !s.th[e.t].completed
    ensures Target(s'.th[e.t].pc).None? && !s'.th[e.t].pc.SetDone? && !s'.th[e.t].pc.Raising? && !s'.th[e.t].pc.Counting?
    ensures AtFirst(s'.th[e.t].pc) ==> !s'.th[e.t].qEmpty
    ensures s.th[e.t].pc.i < |s.th[e.t].q| ==> Moves(s, s', e.t)
    ensures s.th[e.t].pc.i >= |s.th[e.t].q| ==> OwnLock(s, s', e.t) && s'.th[e.t].q == []
  {
    hide EmptyBelow, Config.Pruned;
    EmptySame(s.th[e.t], s'.th[e.t], c.n);
  }

  // --- sending ---

  lemma DeliverInv(c: Config, s: State, s': State, e: Step)
    requires c.Valid() && Inv(c, s) && StepTo(c, s, s', e) && s.th[e.t].pc.Deliver?
    ensures Inv(c, s')
  {
    var t, m, rest := e.t, s.th[e.t].pc.ms[0], s.th[e.t].pc.ms[1..];
    OwnFacts(c, s, t);
    InvCounter(c, s);
    if c.owner(m.x) == t {
      hide Inv, BuffersOk, FlagOk, IsComplete;
      assert Moves(s, s', t);
      hide StepTo, Moves;
      PlainInv(c, s, s', t);
    } else {
      assert !s.th[t].completed;
      hide Inv, BuffersOk, FlagOk, IsComplete, StepTo;
      DeliverSends(c, s, s', t, c.owner(m.x), m, rest);
    }
  }

  lemma DeliverSends(c: Config, s: State, s': State, t: nat, d: nat, m: Msg, rest: seq<Msg>)
    requires Inv(c, s) && t < |s.th| == c.n && d < c.n && d != t && d == c.owner(m.x)
    requires s.th[t].pc.Deliver? && DeliverStep(c, s, s', t, m, rest) && BuffersOk(c, s.th[t]) && !s.th[t].completed
    ensures Inv(c, s')
  {
    hide Inv, IsComplete, BuffersOk;
    if s.th[d].lock.None? {
      var y := s.th[t].(out := s.th[t].out[d := s.th[t].out[d] + [m]], sent := s.th[t].sent[d := s.th[t].sent[d] + [m]]);
      assert s' == Go(SetLock(Put(s, t, y), d, Some(t)), t, Pushing(d, 0, ToSending(rest)));
      hide DeliverStep;
      DeliverGrabs(c, s, s', t, d, m, rest, y);
    } else {
      DeliverBuffers(c, s.th[t], s'.th[t], d, m);
      DeliverMid(c, s, s', t, d, m);
    }
  }

  /** The message goes into the buffer, and then the queue is locked. */
  lemma DeliverGrabs(c: Config, s: State, s': State, t: nat, d: nat, m: Msg, rest: seq<Msg>, y: Thread)
    requires Inv(c, s) && t < |s.th| == c.n && d < c.n && d != t && s.th[t].pc.Deliver?
    requires d < |s.th[t].out| && d < |s.th[t].sent| && s.th[d].lock.None?
    requires BuffersOk(c, s.th[t]) && !s.th[t].completed
    requires y == s.th[t].(out := s.th[t].out[d := s.th[t].out[d] + [m]], sent := s.th[t].sent[d := s.th[t].sent[d] + [m]])
    requires s' == Go(SetLock(Put(s, t, y), d, Some(t)), t, Pushing(d, 0, ToSending(rest)))
    ensures Inv(c, s')
  {
    hide Inv, IsComplete, BuffersOk;
    var mid := Put(s, t, y.(pc := LockFor(d, ToSending(rest))));
    DeliverBuffers(c, s.th[t], mid.th[t], d, m);
    DeliverMid(c, s, mid, t, d, m);
    DeliverBuffers(c, s.th[t], y.(pc := Pushing(d, 0, ToSending(rest))), d, m);
    assert s' == Go(SetLock(mid, d, Some(t)), t, Pushing(d, 0, ToSending(rest)));
    GrabInv(c, mid, s', t, d, ToSending(rest));
  }

  lemma DeliverBuffers(c: Config, x: Thread, x': Thread, d: nat, m: Msg)
    requires BuffersOk(c, x) && x.pc.Deliver? && d < c.n
    requires x'.out == x.out[d := x.out[d] + [m]] && x'.sent == x.sent[d := x.sent[d] + [m]]
    requires (x'.pc.Sending? && c.asyncSend)
             || ((x'.pc.LockFor? || x'.pc.Pushing?) && x'.pc.d == d && x'.pc.k.ToSending?)
    ensures BuffersOk(c, x')
  {
  }

  /** A message has been put into a buffer. */
  lemma DeliverMid(c: Config, s: State, s': State, t: nat, d: nat, m: Msg)
    requires Inv(c, s) && t < |s.th| && d < |s.th| && d != t && s.th[t].pc.Deliver? && d < |s.th[t].out| && d < |s.th[t].sent|
    requires |s'.th| == |s.th| && s' == Put(s, t, s'.th[t])
    requires s'.th[t] == s.th[t].(pc := s'.th[t].pc, out := s.th[t].out[d := s.th[t].out[d] + [m]],
                                  sent := s.th[t].sent[d := s.th[t].sent[d] + [m]])
    requires BuffersOk(c, s'.th[t]) && !s.th[t].completed
    requires s'.th[t].pc.Sending? || (s'.th[t].pc.LockFor? && s'.th[t].pc.d == d)
    ensures Inv(c, s')
  {
    hide BuffersOk, IsComplete;
    assert ThreadOk(c, s, t);
    SameComplete(c, s, s');
    forall u: nat | u < |s.th| ensures u in Counted(s) <==> u in Counted(s') {
      assert ThreadOk(c, s, u);
    }
    CountedKept(s, s');
    hide Counted;
    var l := s.th[t].lock;
    if l.Some? && l.value < |s.th| { assert ThreadOk(c, s, l.value); }
    NotFlagged(c, s', s'.th[t]);
    hide FlagOk;
    Frame(c, s, s', t, t);
  }

  lemma LockForInv(c: Config, s: State, s': State, e: Step)
    requires Inv(c, s) && StepTo(c, s, s', e) && s.th[e.t].pc.LockFor?
    ensures Inv(c, s')
  {
    var t, d, k := e.t, s.th[e.t].pc.d, s.th[e.t].pc.k;
    OwnFacts(c, s, t);
    assert !s.th[t].completed;
    LockForBuffers(c, s.th[t], d, k);
    hide Inv, BuffersOk, FlagOk, IsComplete;
    GrabInv(c, s, s', t, d, k);
  }

  lemma LockForBuffers(c: Config, x: Thread, d: nat, k: Cont)
    requires BuffersOk(c, x) && x.pc == LockFor(d, k)
    ensures BuffersOk(c, x.(pc := Pushing(d, 0, k)))
  {
  }

  /** Thread `t` goes on, under the lock of `d`, and changes what it shares with `d`. */
  ghost predicate Tells(s: State, s': State, t: nat, d: nat) {
    && t < |s.th| == |s'.th| && d < |s.th| && d != t
    && s'.th == s.th[t := s'.th[t]][d := s'.th[d]]
    && LockOf(t, s.th[t].pc) == Some(d)
    && TellsSender(s.th[t], s'.th[t], t, d) && TellsReceiver(s.th[d], s'.th[d])
    && (if LockOf(t, s'.th[t].pc).Some? then LockOf(t, s'.th[t].pc) == Some(d) && s'.th[d].lock == s.th[d].lock
        else s'.th[d].lock.None?)
    && s'.done == s.done
  }

  predicate TellsSender(x: Thread, x': Thread, t: nat, d: nat) {
    && x'.lock == x.lock && x'.q == x.q && x'.qEmpty == x.qEmpty && x'.completed == x.completed
    && (Target(x'.pc).Some? ==> Target(x'.pc).value == d)
    && (t < |x'.out| ==> t < |x.out| && x'.out[t] == x.out[t])
    && !AtFirst(x'.pc) && !x'.pc.Counting? && !x'.pc.SetDone?
  }

  predicate TellsReceiver(y: Thread, y': Thread) {
    y'.pc == y.pc && y'.out == y.out && y'.sent == y.sent && y'.open == y.open && y'.root == y.root
  }

  lemma TellsInv(c: Config, s: State, s': State, t: nat, d: nat)
    requires Inv(c, s) && Tells(s, s', t, d) && (IsComplete(c, s) ==> IsComplete(c, s'))
    requires BuffersOk(c, s'.th[t]) && !s.th[t].completed && FlagOk(c, s', s'.th[d])
    requires s'.counter == |Counted(s')|
    requires s'.th[d].q != [] && s'.th[d].qEmpty ==> Telling(s'.th[t].pc)
    requires s'.th[t].pc.Uncounted? ==> s'.th[d].completed
    requires s'.th[t].pc.Raising? ==> !s'.th[d].completed
    requires (s'.th[d].pc.Counting? || s'.th[d].pc.SetDone? ==> s'.th[d].completed)
    requires AtFirst(s'.th[d].pc) ==> !s'.th[d].qEmpty
    ensures Inv(c, s')
  {
    hide IsComplete, Counted, EmptyBelow;
    assert ThreadOk(c, s, t) && ThreadOk(c, s, d);
    NotFlagged(c, s', s'.th[t]);
    BuffersSame(c, s.th[d], s'.th[d]);
    hide BuffersOk, FlagOk;
    var l := s.th[t].lock;
    if l.Some? && l.value < |s.th| { assert ThreadOk(c, s, l.value); }
    TellsLocks(c, s, s', t, d);
    TellsQueues(c, s, s', t, d);
    hide LocksOk, QueueOk, TellOk;
    Frame(c, s, s', t, d);
  }

  lemma TellsLocks(c: Config, s: State, s': State, t: nat, d: nat)
    requires Tells(s, s', t, d) && LocksOk(s, t) && LocksOk(s, d) && |s'.th[t].out| == |s.th[t].out|
    requires s.th[t].lock.Some? && s.th[t].lock.value < |s.th| ==> LocksOk(s, s.th[t].lock.value)
    ensures LocksOk(s', t) && LocksOk(s', d)
  {
  }

  lemma TellsQueues(c: Config, s: State, s': State, t: nat, d: nat)
    requires Tells(s, s', t, d) && QueueOk(s, t) && QueueOk(s, d) && LocksOk(s, t) && LocksOk(s, d) && TellOk(s, d)
    requires s.th[t].lock.Some? && s.th[t].lock.value < |s.th| ==> LocksOk(s, s.th[t].lock.value)
    requires s'.th[d].q != [] && s'.th[d].qEmpty ==> Telling(s'.th[t].pc)
    requires s'.th[t].pc.Uncounted? ==> s'.th[d].completed
    requires s'.th[t].pc.Raising? ==> !s'.th[d].completed
    requires (s'.th[d].pc.Counting? || s'.th[d].pc.SetDone? ==> s'.th[d].completed)
    requires AtFirst(s'.th[d].pc) ==> !s'.th[d].qEmpty
    ensures QueueOk(s', t) && QueueOk(s', d) && TellOk(s', t) && TellOk(s', d)
  {
  }

  /** The counted threads when `t` deals with `d`. */
  lemma CountedTells(c: Config, s: State, s': State, t: nat, d: nat)
    requires Inv(c, s) && Tells(s, s', t, d) && !s.th[t].completed
    requires s'.th[d].completed ==> s.th[d].completed
    ensures d in Counted(s) <==> s.th[d].completed && !s.th[t].pc.Uncounted?
    ensures d in Counted(s') <==> s'.th[d].completed && !s'.th[t].pc.Uncounted?
    ensures Counted(s') == if d in Counted(s') then Counted(s) + {d} else Counted(s) - {d}
  {
    OthersCounted(c, s, s', t, d);
    ReceiverCounted(c, s, s', t, d);
    assert forall x :: x in Counted(s) ==> x < |s.th|;
    assert forall x :: x in Counted(s') ==> x < |s'.th| == |s.th|;
    hide Counted, Tells, Inv;
  }

  lemma OthersCounted(c: Config, s: State, s': State, t: nat, d: nat)
    requires Inv(c, s) && Tells(s, s', t, d) && !s.th[t].completed
    ensures forall u: nat :: u < |s.th| && u != d ==> (u in Counted(s) <==> u in Counted(s'))
  {
    hide BuffersOk, FlagOk, IsComplete, QueueOk;
    assert ThreadOk(c, s, t);
    forall u: nat | u < |s.th| && u != d ensures u in Counted(s) <==> u in Counted(s') {
      assert ThreadOk(c, s, u);
    }
  }

  lemma ReceiverCounted(c: Config, s: State, s': State, t: nat, d: nat)
    requires Inv(c, s) && Tells(s, s', t, d) && !s.th[t].completed
    requires s'.th[d].completed ==> s.th[d].completed
    ensures d in Counted(s) <==> s.th[d].completed && !s.th[t].pc.Uncounted?
    ensures d in Counted(s') <==> s'.th[d].completed && !s'.th[t].pc.Uncounted?
  {
    hide BuffersOk, FlagOk, IsComplete, QueueOk;
    assert ThreadOk(c, s, t) && ThreadOk(c, s, d);
  }

  predicate AtTelling(pc: Pc) { Telling(pc) || pc.Clearing? }

  /** A step that only moves the sender on. */
  predicate OnlyMoves(s: State, t: nat, d: nat)
    requires t < |s.th| && d < |s.th| && d < |s.th[t].out|
  {
    (s.th[t].pc.Pushing? && s.th[t].pc.i >= |s.th[t].out[d]|) || (s.th[t].pc.Posting? && !s.th[d].completed)
  }

  /** The message steps. */
  lemma TellingInv(c: Config, s: State, s': State, e: Step)
    requires Inv(c, s) && StepTo(c, s, s', e) && AtTelling(s.th[e.t].pc)
    ensures Inv(c, s')
  {
    var t, d := e.t, s.th[e.t].pc.d;
    TellFacts(c, s, t, d);
    if OnlyMoves(s, t, d) {
      TellMoves(c, s, s', e, d);
      hide StepTo, Moves, Inv, BuffersOk, FlagOk, IsComplete;
      MovesInv(c, s, s', t);
    } else {
      NotComplete(c, s, t);
      TellStep(c, s, s', e, d);
      CountedTells(c, s, s', t, d);
      hide StepTo, Inv, BuffersOk, FlagOk, IsComplete, Tells, Counted;
      CountOwn(Counted(s), Counted(s'), d);
      TellsInv(c, s, s', t, d);
    }
  }

  lemma NotComplete(c: Config, s: State, t: nat)
    requires Inv(c, s) && t < |s.th| && AtTelling(s.th[t].pc)
    ensures !IsComplete(c, s)
  {
    FullMeansQuiet(c, s);
    assert IsComplete(c, s) ==> Idle(c, s, t);
  }

  lemma TellFacts(c: Config, s: State, t: nat, d: nat)
    requires Inv(c, s) && t < |s.th| && AtTelling(s.th[t].pc) && s.th[t].pc.d == d
    ensures BuffersOk(c, s.th[t]) && !s.th[t].completed && d < |s.th| == c.n && d != t && (s.done ==> IsComplete(c, s))
    ensures Receiver(c, s, t, d) && LocksOk(s, t) && TellOk(s, t)
    ensures s.counter == |Counted(s)|
  {
    assert ThreadOk(c, s, t) && ThreadOk(c, s, d);
  }

  /** What is known of the thread `d` whose lock `t` holds. */
  ghost predicate Receiver(c: Config, s: State, t: nat, d: nat) {
    && t < |s.th| == c.n && d < |s.th| && d != t && |s.th[t].out| == c.n
    && FlagOk(c, s, s.th[d]) && LocksOk(s, d) && QueueOk(s, d)
    && s.th[d].lock == Some(t) && LockOf(d, s.th[d].pc) != Some(d)
  }

  lemma TellMoves(c: Config, s: State, s': State, e: Step, d: nat)
    requires StepTo(c, s, s', e) && AtTelling(s.th[e.t].pc) && s.th[e.t].pc.d == d && Receiver(c, s, e.t, d)
    requires BuffersOk(c, s.th[e.t]) && !s.th[e.t].completed && OnlyMoves(s, e.t, d)
    ensures Moves(s, s', e.t) && s'.done == s.done && BuffersOk(c, s'.th[e.t]) && FlagOk(c, s', s'.th[e.t])
    ensures Target(s'.th[e.t].pc) == Some(d) && !AtFirst(s'.th[e.t].pc) && !s'.th[e.t].pc.SetDone?
    ensures s'.th[e.t].pc.Raising? ==> s.th[e.t].pc.Posting? && s'.th[e.t].pc.d == d
  {
  }

  /** How the receiver stands after a message step. */
  ghost predicate Told(c: Config, s: State, s': State, t: nat, d: nat)
    requires t < |s.th| == |s'.th| && d < |s.th|
  {
    && FlagOk(c, s', s'.th[d])
    && (s'.th[d].completed ==> s.th[d].completed)
    && (s'.th[d].q != [] && s'.th[d].qEmpty ==> Telling(s'.th[t].pc))
    && (s'.th[t].pc.Uncounted? ==> s'.th[d].completed)
    && (s'.th[t].pc.Raising? ==> !s'.th[d].completed)
    && (s'.th[d].pc.Counting? || s'.th[d].pc.SetDone? ==> s'.th[d].completed)
    && (AtFirst(s'.th[d].pc) ==> !s'.th[d].qEmpty)
    && s'.counter == s.counter + One(s'.th[d].completed && !s'.th[t].pc.Uncounted?)
                               - One(s.th[d].completed && !s.th[t].pc.Uncounted?)
  }

  lemma TellStep(c: Config, s: State, s': State, e: Step, d: nat)
    requires StepTo(c, s, s', e) && AtTelling(s.th[e.t].pc) && s.th[e.t].pc.d == d && Receiver(c, s, e.t, d)
    requires !OnlyMoves(s, e.t, d) && BuffersOk(c, s.th[e.t]) && !s.th[e.t].completed
    requires LocksOk(s, e.t) && TellOk(s, e.t)
    requires !IsComplete(c, s)
    ensures Tells(s, s', e.t, d) && BuffersOk(c, s'.th[e.t]) && Told(c, s, s', e.t, d)
  {
    TellNormal(c, s, s', e, d);
    hide StepTo, BuffersOk, Tells, Told;
    TellStepShape(c, s, s', e.t, d);
    TellStepTold(c, s, s', e.t, d);
    TellStepBuffers(c, s, s', e.t, d);
  }

  /** The sender and the receiver after a message step that is not a mere move. */
  function SenderAfter(x: Thread, d: nat): Thread {
    match x.pc
    case Pushing(_, i, k) => x.(pc := Pushing(d, i + 1, k))
    case Posting(_, k) => x.(pc := Uncounted(d, k))
    case Uncounted(_, k) => x.(pc := Raising(d, k))
    case Raising(_, k) => x.(pc := Clearing(d, k))
    case Clearing(_, k) => if d < |x.out| then x.(out := x.out[d := []], pc := Back(k)) else x
    case _ => x
  }

  function ReceiverAfter(x: Thread, y: Thread, t: nat, d: nat): Thread {
    match x.pc
    case Pushing(_, i, _) => if d < |x.out| && i < |x.out[d]| then y.(q := y.q + [Entry(t, x.out[d][i])]) else y
    case Uncounted(_, _) => y.(completed := false)
    case Raising(_, _) => y.(qEmpty := false)
    case Clearing(_, _) => y.(lock := None)
    case _ => y
  }

  ghost predicate TellForm(s: State, s': State, t: nat, d: nat) {
    && t < |s.th| && d < |s.th| && d != t && AtTelling(s.th[t].pc) && s.th[t].pc.d == d
    && s' == s.(th := s.th[t := SenderAfter(s.th[t], d)][d := ReceiverAfter(s.th[t], s.th[d], t, d)],
                counter := s.counter - if s.th[t].pc.Posting? then 1 else 0)
  }

  lemma TellNormal(c: Config, s: State, s': State, e: Step, d: nat)
    requires StepTo(c, s, s', e) && AtTelling(s.th[e.t].pc) && s.th[e.t].pc.d == d && d < |s.th| && d != e.t
    requires d < |s.th[e.t].out| && !OnlyMoves(s, e.t, d)
    ensures TellForm(s, s', e.t, d)
  {
    var t := e.t;
    match s.th[t].pc
    case Pushing(_, i, k) => assert PushStep(s, s', t, d, i, k);
    case Posting(_, k) =>
    case Uncounted(_, k) =>
    case Raising(_, k) =>
    case Clearing(_, k) => assert ClearStep(s, s', t, d, k);
    case _ =>
  }

  lemma TellStepShape(c: Config, s: State, s': State, t: nat, d: nat)
    requires TellForm(s, s', t, d) && Receiver(c, s, t, d) && LocksOk(s, t)
    ensures Tells(s, s', t, d)
  {
    hide FlagOk, QueueOk, LocksOk, IsComplete, EmptyBelow;
    assert s'.th[t] == SenderAfter(s.th[t], d) && s'.th[d] == ReceiverAfter(s.th[t], s.th[d], t, d);
    SenderTells(s.th[t], t, d);
    ReceiverTells(s.th[t], s.th[d], t, d);
    hide SenderAfter, ReceiverAfter, TellsSender, TellsReceiver, LockOf;
  }

  lemma SenderTells(x: Thread, t: nat, d: nat)
    requires AtTelling(x.pc) && x.pc.d == d && d != t
    ensures TellsSender(x, SenderAfter(x, d), t, d) && LockOf(t, x.pc) == Some(d)
    ensures LockOf(t, SenderAfter(x, d).pc) == if x.pc.Clearing? && d < |x.out| then None else Some(d)
  {
  }

  lemma ReceiverTells(x: Thread, y: Thread, t: nat, d: nat)
    requires AtTelling(x.pc) && x.pc.d == d
    ensures TellsReceiver(y, ReceiverAfter(x, y, t, d))
    ensures ReceiverAfter(x, y, t, d).lock == if x.pc.Clearing? then None else y.lock
  {
  }

  lemma TellStepTold(c: Config, s: State, s': State, t: nat, d: nat)
    requires TellForm(s, s', t, d) && Receiver(c, s, t, d) && TellOk(s, t)
    requires s.th[t].pc.Posting? ==> s.th[d].completed
    requires s.th[t].pc.Pushing? ==> s.th[t].pc.i < |s.th[t].out[d]|
    requires !IsComplete(c, s)
    ensures Told(c, s, s', t, d)
  {
    hide EmptyBelow;
    EmptyTarget(s.th[d], s'.th[d]);
  }

  lemma TellStepBuffers(c: Config, s: State, s': State, t: nat, d: nat)
    requires TellForm(s, s', t, d) && BuffersOk(c, s.th[t])
    ensures BuffersOk(c, s'.th[t])
  {
    var x, x' := s.th[t], SenderAfter(s.th[t], d);
    assert s'.th[t] == x';
    if x.pc.Clearing? {
      ClearBuffers(x, x', d);
      hide EmptyBelow;
    } else {
      EmptyTarget(x, x');
      hide EmptyBelow;
    }
  }

  lemma EmptyTarget(x: Thread, x': Thread)
    requires x'.out == x.out && Target(x'.pc) == Target(x.pc)
    ensures forall b: nat :: EmptyBelow(x, b) <==> EmptyBelow(x', b)
  {
  }

  lemma ClearBuffers(x: Thread, x': Thread, d: nat)
    requires Target(x.pc) == Some(d) && d < |x.out| && x'.out == x.out[d := []]
    ensures forall b: nat :: EmptyBelow(x, b) ==> EmptyBelow(x', b)
  {
  }

  // ----- runs -----

  /** Every step of every thread keeps the invariant. */
  lemma StepInv(c: Config, s: State, s': State, e: Step)
    requires c.Valid() && Inv(c, s) && StepTo(c, s, s', e)
    ensures Inv(c, s')
  {
    hide Inv, StepTo;
    var pc := StepPc(c, s, s', e);
    if AtLoop(pc) { LoopInv(c, s, s', e); }
    else if pc.Deliver? { DeliverInv(c, s, s', e); }
    else if Plain(pc) { SearchInv(c, s, s', e); }
    else if pc.Flush? { FlushInv(c, s, s', e); }
    else if pc.Recv? { RecvInv(c, s, s', e); }
    else if AtOwnLock(pc) { OwnLockInv(c, s, s', e); }
    else if pc.Processing? { ProcessInv(c, s, s', e); }
    else if pc.AfterRecv? || pc.SetDone? { DoneInv(c, s, s', e); }
    else if pc.LockFor? { LockForInv(c, s, s', e); }
    else { TellingInv(c, s, s', e); }
  }

  ghost function StepPc(c: Config, s: State, s': State, e: Step): (pc: Pc)
    requires StepTo(c, s, s', e)
    ensures e.t < |s.th| && pc == s.th[e.t].pc && !pc.Exited?
  {
    s.th[e.t].pc
  }

  lemma InitialInv(c: Config, s: State)
    requires c.Valid() && Initial(c, s)
    ensures Inv(c, s)
  {
    assert Counted(s) == {};
  }

  ghost predicate CanStep(c: Config, s: State, s': State) { exists e :: StepTo(c, s, s', e) }

  ghost function TheStep(c: Config, s: State, s': State): (e: Step)
    requires CanStep(c, s, s')
    ensures StepTo(c, s, s', e)
  {
    var e :| StepTo(c, s, s', e); e
  }

  /** A run: any interleaving of the threads' steps. */
  ghost predicate IsRun(c: Config, tr: seq<State>) {
    tr != [] && Initial(c, tr[0]) && forall i: nat :: i + 1 < |tr| ==> CanStep(c, tr[i], tr[i + 1])
  }

  lemma {:induction false} RunKeepsInv(c: Config, tr: seq<State>, i: nat)
    requires c.Valid() && IsRun(c, tr) && i < |tr|
    ensures Inv(c, tr[i])
  {
    hide Inv, Initial, CanStep;
    if i == 0 {
      InitialInv(c, tr[0]);
    } else {
      RunKeepsInv(c, tr, i - 1);
      assert CanStep(c, tr[i - 1], tr[(i - 1) + 1]);
      StepInv(c, tr[i - 1], tr[i], TheStep(c, tr[i - 1], tr[i]));
    }
  }

  /** The counter never exceeds the number of threads that are flagged completed;
      a full counter, and even more the done flag, means that no thread has
      anything open and no message is queued, buffered or about to be sent. */
  lemma FullCounterMeansQuiescent(c: Config, tr: seq<State>, i: nat)
    requires c.Valid() && IsRun(c, tr) && i < |tr|
    ensures |tr[i].th| == c.n
    ensures 0 <= tr[i].counter <= |set t: nat | t < c.n && tr[i].th[t].completed| <= c.n
    ensures IsComplete(c, tr[i]) || tr[i].done ==> forall t: nat :: t < c.n ==> Idle(c, tr[i], t)
  {
    RunKeepsInv(c, tr, i);
    FullMeansQuiet(c, tr[i]);
    assert (set t: nat | t < c.n && tr[i].th[t].completed) == (set t: nat | t < |tr[i].th| && tr[i].th[t].completed);
    hide IsComplete, Idle, Counted, ThreadOk;
  }

  lemma RunSteps(c: Config, tr: seq<State>, i: nat)
    requires c.Valid() && IsRun(c, tr) && i + 1 < |tr|
    ensures CanStep(c, tr[i], tr[i + 1]) && Inv(c, tr[i])
  {
    RunKeepsInv(c, tr, i);
  }

  /** Once full, the counter stays full, so the search never starts again. */
  lemma {:induction false} QuiescenceIsFinal(c: Config, tr: seq<State>, i: nat, j: nat)
    requires c.Valid() && IsRun(c, tr) && i <= j < |tr| && IsComplete(c, tr[i])
    ensures IsComplete(c, tr[j]) && tr[j].counter == tr[i].counter
    ensures |tr[j].th| == c.n && forall t: nat :: t < c.n ==> Idle(c, tr[j], t)
  {
    hide Inv, IsRun, CanStep, Idle, IsComplete;
    if i < j {
      QuiescenceIsFinal(c, tr, i, j - 1);
      RunSteps(c, tr, j - 1);
      FullStaysFull(c, tr[j - 1], tr[j], TheStep(c, tr[j - 1], tr[j]));
    }
    FullCounterMeansQuiescent(c, tr, j);
  }
}
