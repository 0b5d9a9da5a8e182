/** What one thread of hash-distributed A* brings about when it acts alone, whatever the others are in the middle of. */
module HdaService {
  import opened PriorityQueues
  import opened HdaStar

  /** Thread `t` alone gets from `s` to `z` in `k` steps. */
  ghost predicate Reaches(c: Config, s: State, z: State, t: nat, k: nat)
    decreases k
  {
    if k == 0 then z == s
    else exists m, e: Step :: e.t == t && StepTo(c, s, m, e) && Reaches(c, m, z, t, k - 1)
  }

  lemma Stepped(c: Config, s: State, m: State, z: State, e: Step, k: nat)
    requires StepTo(c, s, m, e) && Reaches(c, m, z, e.t, k)
    ensures Reaches(c, s, z, e.t, k + 1)
  {
    hide StepTo;
  }

  // ----- what is dropped and what is not -----

  /** A taken state is dropped if and only if its f is not below the bound. */
  lemma TakenIsWeighed(c: Config, s: State, s': State, e: Step, m: Msg)
    requires StepTo(c, s, s', e) && s.th[e.t].pc == Took(m)
    ensures |s'.th| == |s.th|
    ensures s'.th[e.t].pc ==
              if m.g + c.graph.h(m.x) < s.bound + c.overrun then (if c.graph.goal(m.x) then Publish(m) else Expand(m)) else Loop
  {
  }

  /** A child goes on its way if and only if its f is below the bound. */
  lemma ChildIsWeighed(c: Config, s: State, s': State, e: Step, m: Msg, rest: seq<Msg>)
    requires StepTo(c, s, s', e) && s.th[e.t].pc == Sending([m] + rest)
    ensures |s'.th| == |s.th|
    ensures s'.th[e.t].pc ==
              if m.g + c.graph.h(m.x) < s.bound + c.overrun then Deliver([m] + rest) else Sending(rest)
  {
    assert ([m] + rest)[1..] == rest;
  }

  // ----- sending -----

  function Entries(t: nat, ms: seq<Msg>): seq<Entry> {
    seq(|ms|, i requires 0 <= i < |ms| => Entry(t, ms[i]))
  }

  /** Pushing goes on until the whole buffer is in the queue. */
  lemma {:induction false} PushesAll(c: Config, s: State, t: nat, d: nat, i: nat, k: Cont) returns (z: State, n: nat)
    requires t < |s.th| == c.n && d < |s.th| && d != t && d < |s.th[t].out| && i <= |s.th[t].out[d]|
    requires s.th[t].pc == Pushing(d, i, k)
    ensures Reaches(c, s, z, t, n)
    ensures z == s.(th := s.th[d := s.th[d].(q := s.th[d].q + Entries(t, s.th[t].out[d][i..]))]
                              [t := s.th[t].(pc := Posting(d, k))])
    decreases |s.th[t].out[d]| - i
  {
    hide StepTo, Reaches;
    var e := Step(t, false, 0, false);
    var out := s.th[t].out[d];
    if i < |out| {
      var m := PushOne(c, s, t, d, i, k);
      z, n := PushesAll(c, m, t, d, i + 1, k);
      assert Entries(t, out[i..]) == [Entry(t, out[i])] + Entries(t, out[i + 1..]);
      hide Entries;
      assert s.th[d].q + [Entry(t, out[i])] + Entries(t, out[i + 1..]) == s.th[d].q + Entries(t, out[i..]);
      assert z.th == s.th[d := s.th[d].(q := s.th[d].q + Entries(t, s.th[t].out[d][i..]))]
                              [t := s.th[t].(pc := Posting(d, k))];
      Stepped(c, s, m, z, e, n);
      n := n + 1;
    } else {
      z := PushNone(c, s, t, d, i, k);
      assert s.th[d].q + Entries(t, out[i..]) == s.th[d].q;
      assert s.th[d := s.th[d]] == s.th;
      Once(c, s, z, e);
      n := 1;
    }
  }

  lemma PushNone(c: Config, s: State, t: nat, d: nat, i: nat, k: Cont) returns (m: State)
    requires t < |s.th| == c.n && d < |s.th| && d != t && d < |s.th[t].out| && i == |s.th[t].out[d]|
    requires s.th[t].pc == Pushing(d, i, k)
    ensures StepTo(c, s, m, Step(t, false, 0, false))
    ensures m == s.(th := s.th[t := s.th[t].(pc := Posting(d, k))])
  {
    m := Go(s, t, Posting(d, k));
  }

  lemma PushOne(c: Config, s: State, t: nat, d: nat, i: nat, k: Cont) returns (m: State)
    requires t < |s.th| == c.n && d < |s.th| && d != t && d < |s.th[t].out| && i < |s.th[t].out[d]|
    requires s.th[t].pc == Pushing(d, i, k)
    ensures StepTo(c, s, m, Step(t, false, 0, false))
    ensures m == s.(th := s.th[d := s.th[d].(q := s.th[d].q + [Entry(t, s.th[t].out[d][i])])]
                              [t := s.th[t].(pc := Pushing(d, i + 1, k))])
  {
    m := Go(Put(s, d, s.th[d].(q := s.th[d].q + [Entry(t, s.th[t].out[d][i])])), t, Pushing(d, i + 1, k));
  }

  /** A sender that has the receiver's lock hands over the whole buffer, in order, takes the receiver off the
      counter if it was on it, tells it that its queue is not empty, and gives the lock back. */
  lemma HandsOver(c: Config, s: State, t: nat, d: nat, k: Cont) returns (z: State, n: nat)
    requires t < |s.th| == c.n && d < |s.th| && d != t && d < |s.th[t].out| && s.th[t].pc == Pushing(d, 0, k)
    ensures Reaches(c, s, z, t, n)
    ensures |z.th| == |s.th| && z.bound == s.bound && z.best == s.best && z.done == s.done
    ensures z.counter == if s.th[d].completed then s.counter - 1 else s.counter
    ensures z.th[d] == s.th[d].(q := s.th[d].q + Entries(t, s.th[t].out[d]), qEmpty := false, completed := false, lock := None)
    ensures z.th[t] == s.th[t].(out := s.th[t].out[d := []],
                                pc := match k case ToFlush(x, has, first) => Flush(x, has, first)
                                              case ToSending(rest) => Sending(rest))
    ensures forall u: nat :: u < |s.th| && u != t && u != d ==> z.th[u] == s.th[u]
  {
    hide StepTo, Reaches, Entries;
    var y, i := PushesAll(c, s, t, d, 0, k);
    assert s.th[t].out[d][0..] == s.th[t].out[d];
    var w, j := Tells(c, y, t, d, k);
    Chained(c, s, y, w, t, i, j);
    z, n := w, i + j;
  }

  lemma {:induction false} Chained(c: Config, s: State, y: State, z: State, t: nat, i: nat, j: nat)
    requires Reaches(c, s, y, t, i) && Reaches(c, y, z, t, j)
    ensures Reaches(c, s, z, t, i + j)
    decreases i
  {
    hide StepTo;
    if i > 0 {
      var m, e: Step :| e.t == t && StepTo(c, s, m, e) && Reaches(c, m, y, t, i - 1);
      Chained(c, m, y, z, t, i - 1, j);
      Stepped(c, s, m, z, e, i - 1 + j);
    }
  }

  lemma Once(c: Config, s: State, z: State, e: Step)
    requires StepTo(c, s, z, e)
    ensures Reaches(c, s, z, e.t, 1)
  {
    hide StepTo;
    assert Reaches(c, z, z, e.t, 0);
  }

  lemma Tells(c: Config, s: State, t: nat, d: nat, k: Cont) returns (z: State, n: nat)
    requires t < |s.th| == c.n && d < |s.th| && d != t && d < |s.th[t].out| && s.th[t].pc == Posting(d, k)
    ensures Reaches(c, s, z, t, n)
    ensures |z.th| == |s.th| && z.bound == s.bound && z.best == s.best && z.done == s.done
    ensures z.counter == if s.th[d].completed then s.counter - 1 else s.counter
    ensures z.th[d] == s.th[d].(qEmpty := false, completed := false, lock := None)
    ensures z.th[t] == s.th[t].(out := s.th[t].out[d := []], pc := Back(k))
    ensures forall u: nat :: u < |s.th| && u != t && u != d ==> z.th[u] == s.th[u]
  {
    hide StepTo, Reaches, Back;
    var y, i := Uncounts(c, s, t, d, k);
    var m := Raise(c, y, t, d, k);
    z := Unlock(c, m, t, d, k);
    Once(c, m, z, Step(t, false, 0, false));
    Stepped(c, y, m, z, Step(t, false, 0, false), 1);
    Chained(c, s, y, z, t, i, 2);
    n := i + 2;
  }

  lemma Uncounts(c: Config, s: State, t: nat, d: nat, k: Cont) returns (z: State, n: nat)
    requires t < |s.th| == c.n && d < |s.th| && d != t && s.th[t].pc == Posting(d, k)
    ensures Reaches(c, s, z, t, n)
    ensures |z.th| == |s.th| && z.bound == s.bound && z.best == s.best && z.done == s.done
    ensures z.counter == if s.th[d].completed then s.counter - 1 else s.counter
    ensures z.th[d] == s.th[d].(completed := false) && z.th[t] == s.th[t].(pc := Raising(d, k))
    ensures forall u: nat :: u < |s.th| && u != t && u != d ==> z.th[u] == s.th[u]
  {
    hide StepTo, Reaches;
    var m := Leave(c, s, t, d, k);
    if s.th[d].completed {
      z := Unflag(c, m, t, d, k);
      Once(c, m, z, Step(t, false, 0, false));
      Stepped(c, s, m, z, Step(t, false, 0, false), 1);
      n := 2;
    } else {
      z, n := m, 1;
      Once(c, s, z, Step(t, false, 0, false));
    }
  }

  lemma Leave(c: Config, s: State, t: nat, d: nat, k: Cont) returns (m: State)
    requires t < |s.th| == c.n && d < |s.th| && d != t && s.th[t].pc == Posting(d, k)
    ensures StepTo(c, s, m, Step(t, false, 0, false))
    ensures m == if s.th[d].completed then s.(counter := s.counter - 1, th := s.th[t := s.th[t].(pc := Uncounted(d, k))])
                 else s.(th := s.th[t := s.th[t].(pc := Raising(d, k))])
  {
    m := if s.th[d].completed then Go(s.(counter := s.counter - 1), t, Uncounted(d, k)) else Go(s, t, Raising(d, k));
  }

  lemma Unflag(c: Config, s: State, t: nat, d: nat, k: Cont) returns (m: State)
    requires t < |s.th| == c.n && d < |s.th| && d != t && s.th[t].pc == Uncounted(d, k)
    ensures StepTo(c, s, m, Step(t, false, 0, false))
    ensures m == s.(th := s.th[d := s.th[d].(completed := false)][t := s.th[t].(pc := Raising(d, k))])
  {
    m := Go(Put(s, d, s.th[d].(completed := false)), t, Raising(d, k));
  }

  lemma Raise(c: Config, s: State, t: nat, d: nat, k: Cont) returns (m: State)
    requires t < |s.th| == c.n && d < |s.th| && d != t && s.th[t].pc == Raising(d, k)
    ensures StepTo(c, s, m, Step(t, false, 0, false))
    ensures m == s.(th := s.th[d := s.th[d].(qEmpty := false)][t := s.th[t].(pc := HdaStar.Clearing(d, k))])
  {
    m := Go(Put(s, d, s.th[d].(qEmpty := false)), t, HdaStar.Clearing(d, k));
  }

  lemma Unlock(c: Config, s: State, t: nat, d: nat, k: Cont) returns (m: State)
    requires t < |s.th| == c.n && d < |s.th| && d != t && d < |s.th[t].out| && s.th[t].pc == HdaStar.Clearing(d, k)
    ensures StepTo(c, s, m, Step(t, false, 0, false))
    ensures m == s.(th := s.th[d := s.th[d].(lock := None)]
                              [t := s.th[t].(out := s.th[t].out[d := []], pc := Back(k))])
  {
    hide Back;
    var f := SetLock(s, d, None);
    m := Put(f, t, f.th[t].(out := s.th[t].out[d := []], pc := Back(k)));
  }

  /** Flushing hands over a buffer that is not empty if the receiver's lock is free. */
  lemma FlushHandsOver(c: Config, s: State, t: nat, d: nat, has: bool, first: bool) returns (z: State, n: nat)
    requires t < |s.th| == c.n && d < c.n && d != t && d < |s.th[t].out| && s.th[t].pc == Flush(d, has, first)
    requires c.asyncSend && s.th[t].out[d] != [] && s.th[d].lock.None?
    ensures Reaches(c, s, z, t, n) && |z.th| == |s.th|
    ensures z.th[d] == s.th[d].(q := s.th[d].q + Entries(t, s.th[t].out[d]), qEmpty := false, completed := false)
    ensures z.th[t] == s.th[t].(out := s.th[t].out[d := []], pc := Flush(d + 1, has, first))
    ensures z.counter == if s.th[d].completed then s.counter - 1 else s.counter
    ensures forall u: nat :: u < |s.th| && u != t && u != d ==> z.th[u] == s.th[u]
  {
    hide StepTo, Reaches, Entries;
    var m := FlushLocks(c, s, t, d, has, first);
    z, n := HandsOver(c, m, t, d, ToFlush(d + 1, has, first));
    Stepped(c, s, m, z, Step(t, false, 0, false), n);
    n := n + 1;
  }

  lemma FlushLocks(c: Config, s: State, t: nat, d: nat, has: bool, first: bool) returns (m: State)
    requires t < |s.th| == c.n && d < c.n && d != t && d < |s.th[t].out| && s.th[t].pc == Flush(d, has, first)
    requires c.asyncSend && s.th[t].out[d] != [] && s.th[d].lock.None?
    ensures StepTo(c, s, m, Step(t, false, 0, false))
    ensures m == s.(th := s.th[d := s.th[d].(lock := Some(t))]
                              [t := s.th[t].(pc := Pushing(d, 0, ToFlush(d + 1, has, first)))])
  {
    m := Go(SetLock(s, d, Some(t)), t, Pushing(d, 0, ToFlush(d + 1, has, first)));
  }

  /** A child that belongs to another thread is handed over at once, behind what was buffered, if that thread's lock is free. */
  lemma DeliveryHandsOver(c: Config, s: State, t: nat, x: Msg, rest: seq<Msg>) returns (z: State, n: nat)
    requires t < |s.th| == c.n == |s.th[t].out| == |s.th[t].sent| && s.th[t].pc == Deliver([x] + rest)
    requires c.owner(x.x) < c.n && c.owner(x.x) != t && s.th[c.owner(x.x)].lock.None?
    ensures Reaches(c, s, z, t, n) && |z.th| == |s.th|
    ensures var d := c.owner(x.x);
            && z.th[d] == s.th[d].(q := s.th[d].q + Entries(t, s.th[t].out[d] + [x]), qEmpty := false, completed := false)
            && z.th[t] == s.th[t].(out := s.th[t].out[d := []], sent := s.th[t].sent[d := s.th[t].sent[d] + [x]],
                                   pc := Sending(rest))
            && z.counter == (if s.th[d].completed then s.counter - 1 else s.counter)
            && forall u: nat :: u < |s.th| && u != t && u != d ==> z.th[u] == s.th[u]
  {
    hide StepTo, Reaches, Entries;
    var d := c.owner(x.x);
    var m := DeliverLocks(c, s, t, x, rest);
    z, n := HandsOver(c, m, t, d, ToSending(rest));
    assert s.th[t].out[d := s.th[t].out[d] + [x]][d := []] == s.th[t].out[d := []];
    Stepped(c, s, m, z, Step(t, false, 0, false), n);
    n := n + 1;
  }

  lemma DeliverLocks(c: Config, s: State, t: nat, x: Msg, rest: seq<Msg>) returns (m: State)
    requires t < |s.th| == c.n == |s.th[t].out| == |s.th[t].sent| && s.th[t].pc == Deliver([x] + rest)
    requires c.owner(x.x) < c.n && c.owner(x.x) != t && s.th[c.owner(x.x)].lock.None?
    ensures StepTo(c, s, m, Step(t, false, 0, false))
    ensures var d := c.owner(x.x);
            m == s.(th := s.th[t := s.th[t].(out := s.th[t].out[d := s.th[t].out[d] + [x]],
                                             sent := s.th[t].sent[d := s.th[t].sent[d] + [x]],
                                             pc := Pushing(d, 0, ToSending(rest)))]
                              [d := s.th[d].(lock := Some(t))])
  {
    var d := c.owner(x.x);
    assert ([x] + rest)[0] == x && ([x] + rest)[1..] == rest;
    var y := s.th[t].(out := s.th[t].out[d := s.th[t].out[d] + [x]], sent := s.th[t].sent[d := s.th[t].sent[d] + [x]]);
    m := Go(SetLock(Put(s, t, y), d, Some(t)), t, Pushing(d, 0, ToSending(rest)));
    assert m.th == s.th[t := y.(pc := Pushing(d, 0, ToSending(rest)))][d := s.th[d].(lock := Some(t))];
  }

  /** With asynchronous sends a child whose owner's lock is taken stays in the buffer, behind what is there, and the
      thread goes on; with synchronous ones it waits for the lock. */
  lemma BusyOwner(c: Config, s: State, s': State, e: Step, x: Msg, rest: seq<Msg>)
    requires StepTo(c, s, s', e) && s.th[e.t].pc == Deliver([x] + rest)
    requires c.owner(x.x) < |s.th| && c.owner(x.x) != e.t && s.th[c.owner(x.x)].lock.Some?
    ensures var d := c.owner(x.x); var y := s.th[e.t];
            && d < |y.out| && d < |y.sent|
            && s' == s.(th := s.th[e.t := y.(out := y.out[d := y.out[d] + [x]], sent := y.sent[d := y.sent[d] + [x]],
                                             pc := if c.asyncSend then Sending(rest) else LockFor(d, ToSending(rest)))])
  {
    assert ([x] + rest)[0] == x && ([x] + rest)[1..] == rest;
  }

  // ----- receiving -----

  /** The f of the message is below the bound. */
  predicate Below(c: Config, bound: nat, m: Msg) { m.g + c.graph.h(m.x) < bound + c.overrun }

  /** The recorded costs and the open states after the entries `es` have been treated. */
  ghost predicate Absorbed(c: Config, bound: nat, es: seq<Entry>, closed: map<nat, nat>, open: set<nat>,
                           closed': map<nat, nat>, open': set<nat>) {
    && (forall x :: x in closed ==> x in closed' && closed'[x] <= closed[x])
    && (forall i: nat :: i < |es| && Below(c, bound, es[i].m) ==>
          es[i].m.x in closed' && closed'[es[i].m.x] <= es[i].m.g)
    && (forall x :: x in closed' ==>
          (x in closed && closed'[x] == closed[x]) || Received(c, bound, es, Msg(x, closed'[x])))
    && (forall x :: x in open' <==> x in open || (x in closed' && (x !in closed || closed'[x] < closed[x])))
  }

  ghost predicate Received(c: Config, bound: nat, es: seq<Entry>, m: Msg) {
    exists i: nat :: i < |es| && es[i].m == m && Below(c, bound, m)
  }

  lemma AbsorbedNone(c: Config, bound: nat, closed: map<nat, nat>, open: set<nat>)
    ensures Absorbed(c, bound, [], closed, open, closed, open)
  {
  }

  lemma AbsorbedMore(c: Config, bound: nat, en: Entry, es: seq<Entry>, closed: map<nat, nat>, open: set<nat>,
                     mid: map<nat, nat>, more: set<nat>, closed': map<nat, nat>, open': set<nat>)
    requires var enters := Below(c, bound, en.m) && (en.m.x !in closed || en.m.g < closed[en.m.x]);
             && mid == (if enters then closed[en.m.x := en.m.g] else closed)
             && more == (if enters then open + {en.m.x} else open)
    requires Absorbed(c, bound, es, mid, more, closed', open')
    ensures Absorbed(c, bound, [en] + es, closed, open, closed', open')
  {
    hide Below;
    var all := [en] + es;
    forall i: nat | i < |all| && Below(c, bound, all[i].m)
      ensures all[i].m.x in closed' && closed'[all[i].m.x] <= all[i].m.g
    {
      if i > 0 { assert all[i] == es[i - 1]; }
    }
    forall x | x in closed'
      ensures (x in closed && closed'[x] == closed[x]) || Received(c, bound, all, Msg(x, closed'[x]))
    {
      if Received(c, bound, es, Msg(x, closed'[x])) {
        var i: nat :| i < |es| && es[i].m == Msg(x, closed'[x]);
        assert all[i + 1].m == Msg(x, closed'[x]);
      } else if !(x in closed && closed'[x] == closed[x]) {
        assert all[0].m == Msg(x, closed'[x]);
      }
    }
  }

  lemma {:induction false} WorksOff(c: Config, s: State, t: nat, i: nat, has: bool, first: bool) returns (z: State, n: nat)
    requires t < |s.th| == c.n && i <= |s.th[t].q| && s.th[t].pc == Processing(i, has, first)
    ensures Reaches(c, s, z, t, n) && |z.th| == |s.th| && z == s.(th := s.th[t := z.th[t]])
    ensures z.th[t] == s.th[t].(q := [], qEmpty := true, lock := None, got := s.th[t].got + s.th[t].q[i..],
                                pc := if first then CheckOpen(has) else AfterRecv(has),
                                open := z.th[t].open, closed := z.th[t].closed)
    ensures Absorbed(c, s.bound, s.th[t].q[i..], s.th[t].closed, s.th[t].open, z.th[t].closed, z.th[t].open)
    decreases |s.th[t].q| - i
  {
    hide StepTo, Reaches, Absorbed, Below;
    var e := Step(t, false, 0, false);
    if i >= |s.th[t].q| {
      z := EndsWork(c, s, t, i, has, first);
      Once(c, s, z, e);
      n := 1;
      assert s.th[t].q[i..] == [];
      AbsorbedNone(c, s.bound, s.th[t].closed, s.th[t].open);
    } else {
      var m := TreatsOne(c, s, t, i, has, first);
      z, n := WorksOff(c, m, t, i + 1, has, first);
      Stepped(c, s, m, z, e, n);
      n := n + 1;
      assert s.th[t].q[i..] == [s.th[t].q[i]] + s.th[t].q[i + 1..];
      AbsorbedMore(c, s.bound, s.th[t].q[i], s.th[t].q[i + 1..], s.th[t].closed, s.th[t].open,
                   m.th[t].closed, m.th[t].open, z.th[t].closed, z.th[t].open);
    }
  }

  /** Receiving: every queued entry is treated once, in order.  Those whose f is below the bound lower the recorded
      costs of their states to the least that was received, exactly the states whose cost is new or lower are
      opened, and the queue is left empty and unlocked. */
  lemma ReceivesAll(c: Config, s: State, t: nat, has: bool, first: bool) returns (z: State, n: nat)
    requires t < |s.th| == c.n && s.th[t].pc == Processing(0, has, first)
    ensures Reaches(c, s, z, t, n) && |z.th| == |s.th|
    ensures var x, y := s.th[t], z.th[t];
            && y.q == [] && y.qEmpty && y.lock.None? && y.got == x.got + x.q
            && y.pc == (if first then CheckOpen(has) else AfterRecv(has))
            && (forall i: nat :: i < |x.q| && x.q[i].m.g + c.graph.h(x.q[i].m.x) < s.bound + c.overrun ==>
                  x.q[i].m.x in y.closed && y.closed[x.q[i].m.x] <= x.q[i].m.g)
            && (forall v :: v in x.closed ==> v in y.closed && y.closed[v] <= x.closed[v])
            && (forall v :: v in y.closed ==>
                  || (v in x.closed && y.closed[v] == x.closed[v])
                  || exists i: nat :: i < |x.q| && x.q[i].m == Msg(v, y.closed[v]) && y.closed[v] + c.graph.h(v) < s.bound + c.overrun)
            && (forall v :: v in y.open <==> v in x.open || (v in y.closed && (v !in x.closed || y.closed[v] < x.closed[v])))
  {
    z, n := WorksOff(c, s, t, 0, has, first);
    hide StepTo, Reaches;
    var x, y := s.th[t], z.th[t];
    assert x.q[0..] == x.q;
    forall i: nat | i < |x.q| && x.q[i].m.g + c.graph.h(x.q[i].m.x) < s.bound + c.overrun
      ensures x.q[i].m.x in y.closed && y.closed[x.q[i].m.x] <= x.q[i].m.g
    {
      assert Below(c, s.bound, x.q[i].m);
    }
  }

  lemma EndsWork(c: Config, s: State, t: nat, i: nat, has: bool, first: bool) returns (z: State)
    requires t < |s.th| == c.n && i == |s.th[t].q| && s.th[t].pc == Processing(i, has, first)
    ensures StepTo(c, s, z, Step(t, false, 0, false))
    ensures z == s.(th := s.th[t := s.th[t].(q := [], qEmpty := true, lock := None,
                                             pc := if first then CheckOpen(has) else AfterRecv(has))])
    ensures s.th[t].got + s.th[t].q[i..] == s.th[t].got
  {
    z := Put(s, t, s.th[t].(q := [], qEmpty := true, lock := None, pc := if first then CheckOpen(has) else AfterRecv(has)));
  }

  lemma TreatsOne(c: Config, s: State, t: nat, i: nat, has: bool, first: bool) returns (z: State)
    requires t < |s.th| == c.n && i < |s.th[t].q| && s.th[t].pc == Processing(i, has, first)
    ensures StepTo(c, s, z, Step(t, false, 0, false))
    ensures |z.th| == |s.th| && z == s.(th := s.th[t := z.th[t]])
    ensures var x := s.th[t]; var en := x.q[i];
            && z.th[t] == x.(pc := Processing(i + 1, has, first), got := x.got + [en],
                             open := z.th[t].open, closed := z.th[t].closed)
            && z.th[t].closed == (if Below(c, s.bound, en.m) && (en.m.x !in x.closed || en.m.g < x.closed[en.m.x])
                                  then x.closed[en.m.x := en.m.g] else x.closed)
            && z.th[t].open == (if Below(c, s.bound, en.m) && (en.m.x !in x.closed || en.m.g < x.closed[en.m.x])
                                then x.open + {en.m.x} else x.open)
  {
    var x := s.th[t];
    var y := if c.Pruned(x.q[i].m, s.bound) then x else Enter(x, x.q[i].m);
    z := Put(s, t, y.(pc := Processing(i + 1, has, first), got := y.got + [x.q[i]]));
  }

  // ----- stopping and starting -----

  lemma {:induction false} FlushesNothing(c: Config, s: State, t: nat, d: nat, first: bool) returns (z: State, n: nat)
    requires t < |s.th| == c.n == |s.th[t].out| && s.th[t].pc == Flush(d, false, first)
    requires forall e: nat :: e < c.n ==> s.th[t].out[e] == []
    ensures Reaches(c, s, z, t, n)
    ensures z == s.(th := s.th[t := s.th[t].(pc := if first then Peek(false) else Recv(false, false))])
    decreases c.n - d
  {
    hide StepTo, Reaches;
    var e := Step(t, false, 0, false);
    var m := FlushNone(c, s, t, d, first);
    if d >= c.n || !c.asyncSend {
      z, n := m, 1;
      Once(c, s, m, e);
    } else {
      z, n := FlushesNothing(c, m, t, d + 1, first);
      assert z.th == s.th[t := s.th[t].(pc := if first then Peek(false) else Recv(false, false))];
      Stepped(c, s, m, z, e, n);
      n := n + 1;
    }
  }

  lemma FlushNone(c: Config, s: State, t: nat, d: nat, first: bool) returns (m: State)
    requires t < |s.th| == c.n == |s.th[t].out| && s.th[t].pc == Flush(d, false, first)
    requires d < c.n ==> s.th[t].out[d] == []
    ensures StepTo(c, s, m, Step(t, false, 0, false))
    ensures m == s.(th := s.th[t := s.th[t].(pc := if d < c.n && c.asyncSend then Flush(d + 1, false, first)
                                                   else if first then Peek(false) else Recv(false, false))])
  {
    m := Go(s, t, if d < c.n && c.asyncSend then Flush(d + 1, false, first) else if first then Peek(false) else Recv(false, false));
  }

  /** A thread that has nothing to search, to read or to send gets itself counted and waits. */
  lemma IdleIsCounted(c: Config, s: State, t: nat, has: bool) returns (z: State, n: nat)
    requires t < |s.th| == c.n == |s.th[t].out| && s.th[t].pc == CheckOpen(has)
    requires s.th[t].open == {} && !s.th[t].root && s.th[t].qEmpty && s.th[t].lock.None?
    requires forall e: nat :: e < c.n ==> s.th[t].out[e] == []
    ensures Reaches(c, s, z, t, n)
    ensures z == s.(counter := s.counter + 1, th := s.th[t := s.th[t].(completed := true, pc := Waiting)])
  {
    hide StepTo, Reaches;
    var e := Step(t, false, 0, false);
    var m := Looks(c, s, t, has);
    var y, i := m, 0;
    if has {
      y, i := FlushesNothing(c, m, t, 0, false);
    } else {
      Nowhere(c, m, t);
    }
    assert y.th == s.th[t := s.th[t].(pc := Recv(false, false))];
    var w, j := CountsIn(c, y, t);
    Chained(c, m, y, w, t, i, j);
    Stepped(c, s, m, w, e, i + j);
    z, n := w, i + j + 1;
    assert z.th == s.th[t := s.th[t].(completed := true, pc := Waiting)];
  }

  lemma Nowhere(c: Config, s: State, t: nat)
    ensures Reaches(c, s, s, t, 0)
  {
  }

  lemma Looks(c: Config, s: State, t: nat, has: bool) returns (m: State)
    requires t < |s.th| == c.n && s.th[t].pc == CheckOpen(has) && s.th[t].open == {} && !s.th[t].root
    ensures StepTo(c, s, m, Step(t, false, 0, false))
    ensures m == s.(th := s.th[t := s.th[t].(pc := if has then Flush(0, false, false) else Recv(false, false))])
  {
    m := Go(s, t, if has then Flush(0, false, false) else Recv(false, false));
  }

  /** The steps from locking the queue to waiting. */
  lemma CountsIn(c: Config, s: State, t: nat) returns (z: State, n: nat)
    requires t < |s.th| == c.n && s.th[t].pc == Recv(false, false)
    requires s.th[t].open == {} && !s.th[t].root && s.th[t].qEmpty && s.th[t].lock.None?
    ensures Reaches(c, s, z, t, n)
    ensures z == s.(counter := s.counter + 1, th := s.th[t := s.th[t].(completed := true, pc := Waiting)])
  {
    hide StepTo, Reaches;
    var m := FindsNothing(c, s, t);
    z := Counts(c, m, t);
    Chained(c, s, m, z, t, 2, 2);
    n := 4;
    assert z.th == s.th[t := s.th[t].(completed := true, pc := Waiting)];
  }

  lemma FindsNothing(c: Config, s: State, t: nat) returns (z: State)
    requires t < |s.th| == c.n && s.th[t].pc == Recv(false, false)
    requires s.th[t].open == {} && !s.th[t].root && s.th[t].qEmpty && s.th[t].lock.None?
    ensures Reaches(c, s, z, t, 2)
    ensures z == s.(th := s.th[t := s.th[t].(completed := true, pc := Counting, lock := Some(t))])
  {
    var e := Step(t, false, 0, false);
    var a := Put(s, t, s.th[t].(pc := Locked(false, false), lock := Some(t)));
    z := Put(a, t, a.th[t].(pc := Counting, completed := true));
    assert StepTo(c, s, a, e) && StepTo(c, a, z, e);
    hide StepTo, Reaches;
    Once(c, a, z, e);
    Stepped(c, s, a, z, e, 1);
  }

  lemma Counts(c: Config, s: State, t: nat) returns (z: State)
    requires t < |s.th| == c.n && s.th[t].pc == Counting
    ensures Reaches(c, s, z, t, 2)
    ensures z == s.(counter := s.counter + 1, th := s.th[t := s.th[t].(pc := Waiting, lock := None)])
  {
    var e := Step(t, false, 0, false);
    var a := Go(s.(counter := s.counter + 1), t, Unlocking);
    z := Put(a, t, a.th[t].(pc := Waiting, lock := None));
    assert StepTo(c, s, a, e) && StepTo(c, a, z, e);
    hide StepTo, Reaches;
    Once(c, a, z, e);
    Stepped(c, s, a, z, e, 1);
  }

  /** Messages end the wait: a waiting thread whose queue is not empty, and whose lock is free, goes on to read them. */
  lemma MessagesWake(c: Config, s: State, t: nat) returns (z: State, n: nat)
    requires t < |s.th| == c.n && s.th[t].pc == Waiting && !s.th[t].qEmpty && s.th[t].lock.None? && s.counter < c.n
    ensures Reaches(c, s, z, t, n)
    ensures z == s.(th := s.th[t := s.th[t].(pc := Processing(0, false, false), lock := Some(t))])
  {
    var e := Step(t, false, 0, false);
    var a := Go(s, t, Relock);
    var b := Put(a, t, a.th[t].(pc := Woken, lock := Some(t)));
    z := Go(b, t, Processing(0, false, false));
    assert StepTo(c, s, a, e);
    assert StepTo(c, a, b, e);
    assert StepTo(c, b, z, e);
    hide StepTo, Reaches;
    Once(c, b, z, e);
    Stepped(c, a, b, z, e, 1);
    Stepped(c, s, a, z, e, 2);
    n := 3;
    assert z.th == s.th[t := s.th[t].(pc := Processing(0, false, false), lock := Some(t))];
  }

  /** A searching thread reads its messages first: before it takes its next state it works off its queue. */
  lemma MessagesFirst(c: Config, s: State, t: nat) returns (z: State, n: nat)
    requires t < |s.th| == c.n && s.th[t].pc == Take && !s.th[t].qEmpty && s.th[t].lock.None?
    ensures Reaches(c, s, z, t, n)
    ensures z == s.(th := s.th[t := s.th[t].(pc := Processing(0, true, true), lock := Some(t))])
  {
    hide StepTo, Reaches;
    var m := SeesMessages(c, s, t);
    z := LocksQueue(c, m, t);
    Chained(c, s, m, z, t, 2, 2);
    n := 4;
    assert z.th == s.th[t := s.th[t].(pc := Processing(0, true, true), lock := Some(t))];
  }

  lemma SeesMessages(c: Config, s: State, t: nat) returns (z: State)
    requires t < |s.th| == c.n && s.th[t].pc == Take && !s.th[t].qEmpty
    ensures Reaches(c, s, z, t, 2) && z == s.(th := s.th[t := s.th[t].(pc := Recv(true, true))])
  {
    var e := Step(t, false, 0, false);
    var a := Go(s, t, Peek(true));
    z := Go(a, t, Recv(true, true));
    assert StepTo(c, s, a, e) && StepTo(c, a, z, e);
    hide StepTo, Reaches;
    Once(c, a, z, e);
    Stepped(c, s, a, z, e, 1);
  }

  lemma LocksQueue(c: Config, s: State, t: nat) returns (z: State)
    requires t < |s.th| == c.n && s.th[t].pc == Recv(true, true) && s.th[t].lock.None?
    ensures Reaches(c, s, z, t, 2)
    ensures z == s.(th := s.th[t := s.th[t].(pc := Processing(0, true, true), lock := Some(t))])
  {
    var e := Step(t, false, 0, false);
    var a := Put(s, t, s.th[t].(pc := Locked(true, true), lock := Some(t)));
    z := Go(a, t, Processing(0, true, true));
    assert StepTo(c, s, a, e) && StepTo(c, a, z, e);
    hide StepTo, Reaches;
    Once(c, a, z, e);
    Stepped(c, s, a, z, e, 1);
  }

  // ----- solutions -----

  /** A solution is entered, the shared bound falls to the best solution's cost unless it is there already, and
      the goal state is expanded like any other. */
  lemma SolutionLowersBound(c: Config, s: State, t: nat, m: Msg) returns (z: State, n: nat)
    requires t < |s.th| == c.n && s.th[t].pc == Publish(m)
    ensures Reaches(c, s, z, t, n) && |z.th| == |s.th| && z.th[t] == s.th[t].(pc := Expand(m))
    ensures z.best == Some(if s.best.Some? && s.best.value <= m.g then s.best.value else m.g)
    ensures z.bound == if z.best.value < s.bound then z.best.value else s.bound
  {
    hide StepTo, Reaches;
    var a := EntersSolution(c, s, t, m);
    var i;
    z, i := Lowers(c, a, t, m, a.th[t].pc.b);
    Chained(c, s, a, z, t, 2, i);
    n := 2 + i;
    assert z.th[t] == s.th[t].(pc := Expand(m));
  }

  lemma EntersSolution(c: Config, s: State, t: nat, m: Msg) returns (z: State)
    requires t < |s.th| == c.n && s.th[t].pc == Publish(m)
    ensures Reaches(c, s, z, t, 2)
    ensures var g := if s.best.Some? && s.best.value <= m.g then s.best.value else m.g;
            z == s.(best := Some(g), th := s.th[t := s.th[t].(pc := ReadBound(m, g))])
  {
    hide StepTo, Reaches;
    var e := Step(t, false, 0, false);
    var a := Publishes(c, s, t, m);
    z := ReadsBest(c, a, t, m);
    Once(c, a, z, e);
    Stepped(c, s, a, z, e, 1);
  }

  lemma Publishes(c: Config, s: State, t: nat, m: Msg) returns (z: State)
    requires t < |s.th| == c.n && s.th[t].pc == Publish(m)
    ensures StepTo(c, s, z, Step(t, false, 0, false))
    ensures z == s.(best := Some(if s.best.Some? && s.best.value <= m.g then s.best.value else m.g),
                    th := s.th[t := s.th[t].(pc := ReadBest(m))])
  {
    z := Go(s.(best := Some(Better(s.best, m.g))), t, ReadBest(m));
  }

  lemma ReadsBest(c: Config, s: State, t: nat, m: Msg) returns (z: State)
    requires t < |s.th| == c.n && s.th[t].pc == ReadBest(m) && s.best.Some? && s.best.value <= m.g
    ensures StepTo(c, s, z, Step(t, false, 0, false))
    ensures z == s.(th := s.th[t := s.th[t].(pc := ReadBound(m, s.best.value))])
  {
    z := Go(s, t, ReadBound(m, s.best.value));
  }

  lemma Lowers(c: Config, s: State, t: nat, m: Msg, b: nat) returns (z: State, n: nat)
    requires t < |s.th| == c.n && s.th[t].pc == ReadBound(m, b)
    ensures Reaches(c, s, z, t, n)
    ensures z == s.(bound := if b < s.bound then b else s.bound, th := s.th[t := s.th[t].(pc := Expand(m))])
  {
    hide StepTo, Reaches;
    var e := Step(t, false, 0, false);
    if s.bound <= b {
      z := ReadsLower(c, s, t, m, b);
      Once(c, s, z, e);
      n := 1;
    } else {
      var a := ReadsHigher(c, s, t, m, b);
      z := Swaps(c, a, t, m, b);
      Once(c, a, z, e);
      Stepped(c, s, a, z, e, 1);
      n := 2;
      assert z.th == s.th[t := s.th[t].(pc := Expand(m))];
    }
  }

  lemma ReadsLower(c: Config, s: State, t: nat, m: Msg, b: nat) returns (z: State)
    requires t < |s.th| == c.n && s.th[t].pc == ReadBound(m, b) && s.bound <= b
    ensures StepTo(c, s, z, Step(t, false, 0, false)) && z == s.(th := s.th[t := s.th[t].(pc := Expand(m))])
  {
    z := Go(s, t, Expand(m));
  }

  lemma ReadsHigher(c: Config, s: State, t: nat, m: Msg, b: nat) returns (z: State)
    requires t < |s.th| == c.n && s.th[t].pc == ReadBound(m, b) && b < s.bound
    ensures StepTo(c, s, z, Step(t, false, 0, false)) && z == s.(th := s.th[t := s.th[t].(pc := SwapBound(m, b, s.bound))])
  {
    z := Go(s, t, SwapBound(m, b, s.bound));
  }

  lemma Swaps(c: Config, s: State, t: nat, m: Msg, b: nat) returns (z: State)
    requires t < |s.th| == c.n && s.th[t].pc == SwapBound(m, b, s.bound)
    ensures StepTo(c, s, z, Step(t, false, 0, false))
    ensures z == s.(bound := b, th := s.th[t := s.th[t].(pc := Expand(m))])
  {
    z := Go(s.(bound := b), t, Expand(m));
  }
}
