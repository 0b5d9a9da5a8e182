/**
 * Hash-distributed A* as a state machine.
 *
 * Every state belongs to one thread, which alone keeps it in its open and closed
 * lists; generated states travel to their owner through buffers and locked
 * queues.  A step is one access to shared memory with the local work around it.
 */
module HdaStar {
  import opened PriorityQueues
  import opened SearchGraphs

  /** A generated state with the cost of the way it was reached by. */
  datatype Msg = Msg(x: nat, g: nat)

  /** A queued message; `sender` is auxiliary. */
  datatype Entry = Entry(sender: nat, m: Msg)

  /** The search problem, and how it is shared between `n` threads. */
  datatype Config = Config(
    graph: Graph, owner: nat -> nat, n: nat, rootAt: nat, asyncSend: bool, asyncRecv: bool, start: nat, overrun: nat)
  {
    ghost predicate Valid() { rootAt < n && forall x :: owner(x) < n }

    function F(m: Msg): nat { m.g + graph.h(m.x) }

    /** The test that drops a state. */
    predicate Pruned(m: Msg, bound: nat) { F(m) >= bound + overrun }

    function Children(m: Msg): (r: seq<Msg>)
      ensures |r| == |graph.succ(m.x)|
      ensures forall i: nat :: i < |r| ==> r[i] == Msg(graph.succ(m.x)[i].to, m.g + graph.succ(m.x)[i].cost)
    {
      seq(|graph.succ(m.x)|, i requires 0 <= i < |graph.succ(m.x)| => Msg(graph.succ(m.x)[i].to, m.g + graph.succ(m.x)[i].cost))
    }
  }

  /** What a thread goes on with after it has flushed a buffer. */
  datatype Cont = ToFlush(d: nat, has: bool, first: bool) | ToSending(rest: seq<Msg>)

  datatype Pc =
    | Loop                                 // run: about to test the done flag
    | Exited
    | Take                                 // take: about to flush the buffers, or not
    | Flush(d: nat, has: bool, first: bool)  // flush_sends: at buffer `d`
    | Peek(has: bool)                      // about to test whether the queue is empty
    | CheckOpen(has: bool)
    | Recv(has: bool, first: bool)         // flush_receives: about to lock the own queue
    | Locked(has: bool, first: bool)
    | Counting                             // is flagged completed, about to be counted
    | Unlocking
    | Waiting
    | Relock
    | Woken
    | Processing(i: nat, has: bool, first: bool)  // has treated the first `i` entries of the queue
    | AfterRecv(has: bool)
    | SetDone
    | TakeOpen
    | Took(m: Msg)
    | Publish(m: Msg)                      // set_path: about to enter the solution
    | ReadBest(m: Msg)                     // about to read the best solution entered so far
    | ReadBound(m: Msg, b: nat)
    | SwapBound(m: Msg, b: nat, seen: nat)
    | Expand(m: Msg)
    | Sending(ms: seq<Msg>)                // about to test the first child against the bound
    | Deliver(ms: seq<Msg>)                // about to add the first child or to send it
    | LockFor(d: nat, k: Cont)             // waits for the lock of `d`
    | Pushing(d: nat, i: nat, k: Cont)     // holds the lock of `d`, has pushed `i` messages
    | Posting(d: nat, k: Cont)             // post_send: about to test the completed flag
    | Uncounted(d: nat, k: Cont)           // has taken `d` off the counter
    | Raising(d: nat, k: Cont)             // about to tell `d` that its queue is not empty
    | Clearing(d: nat, k: Cont)            // about to clear the buffer and unlock

  /** `root` is the initial state while it is open; `sent` and `got` are auxiliary:
      all messages ever sent to each thread, and all entries ever treated. */
  datatype Thread = Thread(
    pc: Pc, open: set<nat>, closed: map<nat, nat>, root: bool,
    q: seq<Entry>, qEmpty: bool, out: seq<seq<Msg>>, completed: bool, lock: Option<nat>,
    sent: seq<seq<Msg>>, got: seq<Entry>)

  datatype State = State(th: seq<Thread>, bound: nat, best: Option<nat>, counter: int, done: bool)

  function Put(s: State, t: nat, x: Thread): State
    requires t < |s.th|
  {
    s.(th := s.th[t := x])
  }

  function Go(s: State, t: nat, pc: Pc): State
    requires t < |s.th|
  {
    Put(s, t, s.th[t].(pc := pc))
  }

  function Back(k: Cont): Pc {
    match k
    case ToFlush(d, has, first) => Flush(d, has, first)
    case ToSending(rest) => Sending(rest)
  }

  function SetLock(s: State, d: nat, v: Option<nat>): State
    requires d < |s.th|
  {
    Put(s, d, s.th[d].(lock := v))
  }

  predicate IsComplete(c: Config, s: State) { s.counter >= c.n }

  /** Entering a state into the own closed and open lists. */
  function Enter(x: Thread, m: Msg): Thread {
    if m.x in x.closed && x.closed[m.x] <= m.g then x
    else x.(closed := x.closed[m.x := m.g], open := x.open + {m.x})
  }

  datatype Step = Step(t: nat, flush: bool, x: nat, root: bool)

  ghost predicate StepTo(c: Config, s: State, s': State, e: Step) {
    && e.t < |s.th| == c.n
    && var pc := s.th[e.t].pc;
       match pc
       case Loop => s' == Go(s, e.t, if s.done then Exited else Take)
       case Exited => false
       case Take => s' == Go(s, e.t, if e.flush then Flush(0, false, true) else Peek(true))
       case Flush(d, has, first) => FlushStep(c, s, s', e.t, d, has, first)
       case Peek(has) => s' == Go(s, e.t, if s.th[e.t].qEmpty then CheckOpen(has) else Recv(has, true))
       case CheckOpen(has) => s' == Go(s, e.t, AfterCheck(s.th[e.t], has))
       case Recv(has, first) => RecvStep(c, s, s', e.t, has, first)
       case Locked(has, first) => LockedStep(s, s', e.t, has, first)
       case Counting => s' == Go(s.(counter := s.counter + 1), e.t, Unlocking)
       case Unlocking => s' == Put(s, e.t, s.th[e.t].(pc := Waiting, lock := None))
       case Waiting => (!s.th[e.t].qEmpty || IsComplete(c, s) || s.done) && s' == Go(s, e.t, Relock)
       case Relock => s.th[e.t].lock.None? && s' == Put(s, e.t, s.th[e.t].(pc := Woken, lock := Some(e.t)))
       case Woken => s' == if IsComplete(c, s) then Put(s, e.t, s.th[e.t].(pc := AfterRecv(false), lock := None))
                           else Go(s, e.t, Processing(0, false, false))
       case Processing(i, has, first) => ProcessStep(c, s, s', e.t, i, has, first)
       case AfterRecv(has) => s' == Go(s, e.t, if IsComplete(c, s) then SetDone else CheckOpen(has))
       case SetDone => s' == Go(s.(done := true), e.t, Loop)
       case TakeOpen => TakeStep(c, s, s', e)
       case Took(m) => s' == Go(s, e.t, if c.Pruned(m, s.bound) then Loop else if c.graph.goal(m.x) then Publish(m) else Expand(m))
       case Publish(m) => s' == Go(s.(best := Some(Better(s.best, m.g))), e.t, ReadBest(m))
       case ReadBest(m) => s' == Go(s, e.t, ReadBound(m, Better(s.best, m.g)))
       case ReadBound(m, b) => s' == Go(s, e.t, if s.bound <= b then Expand(m) else SwapBound(m, b, s.bound))
       case SwapBound(m, b, seen) =>
         s' == if s.bound == seen then Go(s.(bound := b), e.t, Expand(m)) else Go(s, e.t, ReadBound(m, b))
       case Expand(m) => s' == Go(s, e.t, Sending(c.Children(m)))
       case Sending(ms) =>
         s' == Go(s, e.t, if ms == [] then Loop else if c.Pruned(ms[0], s.bound) then Sending(ms[1..]) else Deliver(ms))
       case Deliver(ms) => ms != [] && DeliverStep(c, s, s', e.t, ms[0], ms[1..])
       case LockFor(d, k) =>
         d < |s.th| && s.th[d].lock.None? && s' == Go(SetLock(s, d, Some(e.t)), e.t, Pushing(d, 0, k))
       case Pushing(d, i, k) => d < |s.th| && PushStep(s, s', e.t, d, i, k)
       case Posting(d, k) =>
         d < |s.th| && s' == if s.th[d].completed then Go(s.(counter := s.counter - 1), e.t, Uncounted(d, k))
                             else Go(s, e.t, Raising(d, k))
       case Uncounted(d, k) => d < |s.th| && s' == Go(Put(s, d, s.th[d].(completed := false)), e.t, Raising(d, k))
       case Raising(d, k) => d < |s.th| && s' == Go(Put(s, d, s.th[d].(qEmpty := false)), e.t, Clearing(d, k))
       case Clearing(d, k) => d < |s.th| && ClearStep(s, s', e.t, d, k)
  }

  /** One round of `flush_sends`, which does nothing when sends are synchronous. */
  ghost predicate FlushStep(c: Config, s: State, s': State, t: nat, d: nat, has: bool, first: bool)
    requires t < |s.th|
  {
    if d >= c.n || !c.asyncSend then s' == Go(s, t, if first then Peek(has) else Recv(has, false))
    else
      && d < |s.th| && d < |s.th[t].out|
      && s' == if s.th[t].out[d] == [] then Go(s, t, Flush(d + 1, has, first))
               else if s.th[d].lock.Some? then Go(s, t, Flush(d + 1, true, first))
               else Go(SetLock(s, d, Some(t)), t, Pushing(d, 0, ToFlush(d + 1, has, first)))
  }

  /** The loop of `take`. */
  function AfterCheck(x: Thread, has: bool): Pc {
    if x.open != {} || x.root then TakeOpen else if has then Flush(0, false, false) else Recv(has, false)
  }

  /** The lock is waited for if there is nothing to search, and tried otherwise. */
  ghost predicate RecvStep(c: Config, s: State, s': State, t: nat, has: bool, first: bool)
    requires t < |s.th|
  {
    var x := s.th[t];
    if x.lock.None? then s' == Put(s, t, x.(pc := Locked(has, first), lock := Some(t)))
    else (x.open != {} || x.root) && c.asyncRecv && s' == Go(s, t, if first then CheckOpen(has) else AfterRecv(has))
  }

  ghost predicate LockedStep(s: State, s': State, t: nat, has: bool, first: bool)
    requires t < |s.th|
  {
    var x := s.th[t];
    s' == if x.qEmpty && !has && x.open == {} && !x.root then Put(s, t, x.(pc := Counting, completed := true))
          else Go(s, t, Processing(0, has, first))
  }

  /** One round of the loop over the received entries, or its end. */
  ghost predicate ProcessStep(c: Config, s: State, s': State, t: nat, i: nat, has: bool, first: bool)
    requires t < |s.th|
  {
    var x := s.th[t];
    s' == if i >= |x.q| then
            Put(s, t, x.(q := [], qEmpty := true, lock := None, pc := if first then CheckOpen(has) else AfterRecv(has)))
          else
            var y := if c.Pruned(x.q[i].m, s.bound) then x else Enter(x, x.q[i].m);
            Put(s, t, y.(pc := Processing(i + 1, has, first), got := y.got + [x.q[i]]))
  }

  /** The open list may give out any of its states: nothing depends on its order. */
  ghost predicate TakeStep(c: Config, s: State, s': State, e: Step)
    requires e.t < |s.th|
  {
    var x := s.th[e.t];
    if s.done then s' == Go(s, e.t, Loop)
    else if e.root then x.root && s' == Put(s, e.t, x.(pc := Took(Msg(c.graph.init, 0)), root := false))
    else e.x in x.open && e.x in x.closed &&
         s' == Put(s, e.t, x.(pc := Took(Msg(e.x, x.closed[e.x])), open := x.open - {e.x}))
  }

  /** The cheaper one of the best solution and one that costs `g`.  A thread that
      has entered its own solution reads no worse one. */
  function Better(best: Option<nat>, g: nat): nat {
    if best.Some? && best.value <= g then best.value else g
  }

  /** A child is entered if it is the thread's own, and otherwise put into the
      buffer for its owner, which is flushed if the owner's lock is free. */
  ghost predicate DeliverStep(c: Config, s: State, s': State, t: nat, m: Msg, rest: seq<Msg>)
    requires t < |s.th|
  {
    var x := s.th[t];
    var d := c.owner(m.x);
    if d == t then s' == Put(s, t, Enter(x, m).(pc := Sending(rest)))
    else
      && d < |s.th| && d < |x.out| && d < |x.sent|
      && var y := x.(out := x.out[d := x.out[d] + [m]], sent := x.sent[d := x.sent[d] + [m]]);
         s' == if s.th[d].lock.None? then Go(SetLock(Put(s, t, y), d, Some(t)), t, Pushing(d, 0, ToSending(rest)))
               else if c.asyncSend then Put(s, t, y.(pc := Sending(rest)))
               else Put(s, t, y.(pc := LockFor(d, ToSending(rest))))
  }

  ghost predicate PushStep(s: State, s': State, t: nat, d: nat, i: nat, k: Cont)
    requires t < |s.th| && d < |s.th|
  {
    && d < |s.th[t].out|
    && s' == if i < |s.th[t].out[d]|
             then Go(Put(s, d, s.th[d].(q := s.th[d].q + [Entry(t, s.th[t].out[d][i])])), t, Pushing(d, i + 1, k))
             else Go(s, t, Posting(d, k))
  }

  ghost predicate ClearStep(s: State, s': State, t: nat, d: nat, k: Cont)
    requires t < |s.th| && d < |s.th|
  {
    && d < |s.th[t].out|
    && s' == Put(SetLock(s, d, None), t, SetLock(s, d, None).th[t].(out := s.th[t].out[d := []], pc := Back(k)))
  }

  /** The initial state is open at one thread, and in no closed list. */
  ghost predicate Initial(c: Config, s: State) {
    && |s.th| == c.n && s.bound == c.start && s.best.None? && s.counter == 0 && !s.done
    && forall t: nat :: t < |s.th| ==>
         s.th[t] == Thread(Loop, {}, map[], t == c.rootAt, [], true, seq(c.n, _ => []), false, None, seq(c.n, _ => []), [])
  }
}
