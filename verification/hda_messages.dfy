/**
 * Hash-distributed A* with the locks, flags and counters left out: what is on
 * its way, what every thread knows, and what it is at.  Every step of the
 * program either leaves this picture alone or is one of the steps below.
 */
module HdaMessages {
  import opened PriorityQueues
  import opened HdaStar
  import opened HdaQuiescence

  /** The state that a thread has taken from its open list. */
  datatype Work = Rests | Has(m: Msg) | Offers(m: Msg, b: nat) | Cleared(m: Msg)

  /** A thread: `pending` are children not yet passed on, `rest` buffered
      messages not yet queued, `unread` queued entries not yet treated. */
  datatype View = View(
    work: Work, pending: seq<Msg>, rest: seq<seq<Msg>>, unread: seq<Entry>,
    open: set<nat>, closed: map<nat, nat>, root: bool, sent: seq<seq<Msg>>, got: seq<Entry>)

  datatype Picture = Picture(vs: seq<View>, bound: nat, best: Option<nat>)

  datatype Effect =
    | Opens(m: Msg)                 // enters its own child
    | Buffers(d: nat, m: Msg)       // puts a child into a buffer
    | Pushes(d: nat, m: Msg)        // moves a message from a buffer to a queue
    | Reads(en: Entry)              // treats an entry of its queue
    | Takes(m: Msg, root: bool)     // takes a state from its open list
    | Drops(m: Msg)                 // gives it up
    | Enters(m: Msg, b: nat)        // enters it as a solution; the best one now costs `b`
    | Chooses(m: Msg, b: nat)       // reads the cost of the best solution
    | Lowers(m: Msg, b: nat)        // lowers the bound to the best solution's cost
    | Clears(m: Msg)                // finds that the bound need not be lowered
    | Generates(m: Msg)             // replaces the state by its children
    | Skips(m: Msg)                 // gives up a child

  function EnterView(v: View, m: Msg): View {
    if m.x in v.closed && v.closed[m.x] <= m.g then v
    else v.(closed := v.closed[m.x := m.g], open := v.open + {m.x})
  }

  /** What thread `t` does to itself. */
  ghost predicate Own(c: Config, p: Picture, t: nat, v: View, v': View, f: Effect) {
    match f
    case Opens(m) =>
      v.work.Rests? && v.pending != [] && m == v.pending[0] && c.owner(m.x) == t
      && v' == EnterView(v, m).(pending := v.pending[1..])
    case Buffers(d, m) =>
      v.work.Rests? && v.pending != [] && m == v.pending[0] && c.owner(m.x) == d && d != t
      && d < |v.rest| && d < |v.sent|
      && v' == v.(pending := v.pending[1..], rest := v.rest[d := v.rest[d] + [m]], sent := v.sent[d := v.sent[d] + [m]])
    case Pushes(d, m) =>
      d != t && d < |v.rest| && v.rest[d] != [] && m == v.rest[d][0] && v' == v.(rest := v.rest[d := v.rest[d][1..]])
    case Reads(en) =>
      v.work.Rests? && v.unread != [] && en == v.unread[0]
      && v' == (if c.Pruned(en.m, p.bound) then v else EnterView(v, en.m)).(unread := v.unread[1..], got := v.got + [en])
    case Takes(m, root) =>
      v.work.Rests? && v.pending == []
      && (if root then v.root && m == Msg(c.graph.init, 0) && v' == v.(work := Has(m), root := false)
          else m.x in v.open && m.x in v.closed && m.g == v.closed[m.x] && v' == v.(work := Has(m), open := v.open - {m.x}))
    case Drops(m) => v.work == Has(m) && c.Pruned(m, p.bound) && v' == v.(work := Rests)
    case Enters(m, b) =>
      v.work == Has(m) && c.graph.goal(m.x) && b <= m.g && (b == m.g || Some(b) == p.best) && v' == v
    case Chooses(m, b) =>
      v.work == Has(m) && c.graph.goal(m.x) && b <= m.g && (b == m.g || Some(b) == p.best) && v' == v.(work := Offers(m, b))
    case Lowers(m, b) => v.work == Offers(m, b) && b < p.bound && v' == v.(work := Cleared(m))
    case Clears(m) =>
      ((v.work == Has(m) && !c.graph.goal(m.x)) || (v.work.Offers? && v.work.m == m && p.bound <= v.work.b))
      && v' == v.(work := Cleared(m))
    case Generates(m) => v.work == Cleared(m) && v.pending == [] && v' == v.(work := Rests, pending := c.Children(m))
    case Skips(m) =>
      v.work.Rests? && v.pending != [] && m == v.pending[0] && c.Pruned(m, p.bound) && v' == v.(pending := v.pending[1..])
  }

  /** A step of thread `t`; a pushed message appears in the receiver's queue. */
  ghost predicate Happens(c: Config, p: Picture, p': Picture, t: nat, f: Effect) {
    && t < |p.vs| == |p'.vs| && (f.Pushes? ==> f.d < |p.vs|)
    && Own(c, p, t, p.vs[t], p'.vs[t], f)
    && (forall u: nat :: u < |p.vs| && u != t ==>
          p'.vs[u] == if f.Pushes? && u == f.d then p.vs[u].(unread := p.vs[u].unread + [Entry(t, f.m)]) else p.vs[u])
    && p'.bound == (if f.Lowers? then f.b else p.bound)
    && p'.best == (if f.Enters? then Some(f.b) else p.best)
  }

  // ----- the picture of a state -----

  /** How many entries of its queue a thread has treated. */
  function ReadNo(pc: Pc): nat { if pc.Processing? then pc.i else 0 }

  /** How many messages of its buffer for `d` a thread has pushed. */
  function PushNo(x: Thread, d: nat): nat
    requires d < |x.out|
  {
    if x.pc.Pushing? && x.pc.d == d then x.pc.i
    else if (x.pc.Posting? || x.pc.Uncounted? || x.pc.Raising? || x.pc.Clearing?) && x.pc.d == d then |x.out[d]|
    else 0
  }

  function Pending(pc: Pc): seq<Msg> {
    if pc.Sending? || pc.Deliver? then pc.ms
    else if ContOf(pc).Some? && ContOf(pc).value.ToSending? then ContOf(pc).value.rest
    else []
  }

  function WorkOf(pc: Pc): Work {
    match pc
    case Took(m) => Has(m)
    case Publish(m) => Has(m)
    case ReadBest(m) => Has(m)
    case ReadBound(m, b) => Offers(m, b)
    case SwapBound(m, b, _) => Offers(m, b)
    case Expand(m) => Cleared(m)
    case _ => Rests
  }

  predicate Bounds(c: Config, x: Thread) {
    && |x.out| == |x.sent|
    && ReadNo(x.pc) <= |x.q|
    && (forall d: nat :: d < |x.out| ==> PushNo(x, d) <= |x.out[d]|)
    && (x.pc.SwapBound? ==> x.pc.b < x.pc.seen)
    && (x.pc.Publish? || x.pc.ReadBest? ==> c.graph.goal(x.pc.m.x))
  }

  function ViewOf(c: Config, x: Thread): View
    requires Bounds(c, x)
  {
    View(WorkOf(x.pc), Pending(x.pc),
         seq(|x.out|, d requires 0 <= d < |x.out| => x.out[d][PushNo(x, d)..]),
         x.q[ReadNo(x.pc)..], x.open, x.closed, x.root, x.sent, x.got)
  }

  predicate AllBounds(c: Config, s: State) {
    forall t: nat :: t < |s.th| ==> Bounds(c, s.th[t])
  }

  function PictureOf(c: Config, s: State): Picture
    requires AllBounds(c, s)
  {
    Picture(seq(|s.th|, t requires 0 <= t < |s.th| => ViewOf(c, s.th[t])), s.bound, s.best)
  }

  // ----- the refinement -----

  /** The step leaves the picture alone, or is a step of the picture. */
  ghost predicate Refines(c: Config, s: State, s': State, t: nat)
    requires AllBounds(c, s) && AllBounds(c, s')
  {
    PictureOf(c, s') == PictureOf(c, s) || exists f :: Happens(c, PictureOf(c, s), PictureOf(c, s'), t, f)
  }

  /** Only thread `t` changes what the picture shows. */
  ghost predicate Only(s: State, s': State, t: nat) {
    && t < |s.th| == |s'.th|
    && forall u: nat :: u < |s.th| && u != t ==>
         s'.th[u] == s.th[u].(lock := s'.th[u].lock, completed := s'.th[u].completed, qEmpty := s'.th[u].qEmpty)
  }

  lemma OthersSame(c: Config, s: State, s': State, t: nat)
    requires Only(s, s', t) && AllBounds(c, s)
    ensures forall u: nat :: u < |s.th| && u != t ==> Bounds(c, s'.th[u]) && ViewOf(c, s'.th[u]) == ViewOf(c, s.th[u])
  {
    forall u: nat | u < |s.th| && u != t ensures Bounds(c, s'.th[u]) && ViewOf(c, s'.th[u]) == ViewOf(c, s.th[u]) {
      assert forall d: nat :: d < |s.th[u].out| ==> PushNo(s'.th[u], d) == PushNo(s.th[u], d);
    }
  }

  /** A step that does not show. */
  lemma Hidden(c: Config, s: State, s': State, t: nat)
    requires Only(s, s', t) && AllBounds(c, s) && Bounds(c, s'.th[t])
    requires ViewOf(c, s'.th[t]) == ViewOf(c, s.th[t]) && s'.bound == s.bound && s'.best == s.best
    ensures AllBounds(c, s') && Refines(c, s, s', t)
  {
    OthersSame(c, s, s', t);
    hide ViewOf, Bounds, Happens, Only;
    assert PictureOf(c, s').vs == PictureOf(c, s).vs;
  }

  /** A step that shows in the acting thread only. */
  lemma Shown(c: Config, s: State, s': State, t: nat, f: Effect)
    requires Only(s, s', t) && AllBounds(c, s) && Bounds(c, s'.th[t]) && !f.Pushes?
    requires Own(c, PictureOf(c, s), t, ViewOf(c, s.th[t]), ViewOf(c, s'.th[t]), f)
    requires s'.bound == (if f.Lowers? then f.b else s.bound)
    requires s'.best == (if f.Enters? then Some(f.b) else s.best)
    ensures AllBounds(c, s') && Refines(c, s, s', t)
  {
    OthersSame(c, s, s', t);
    hide ViewOf, Bounds, Own, Only;
    assert Happens(c, PictureOf(c, s), PictureOf(c, s'), t, f);
  }

  /** The same queue, buffers and lists. */
  predicate SameLists(x: Thread, x': Thread) {
    && x'.out == x.out && x'.sent == x.sent && x'.q == x.q && x'.open == x.open && x'.closed == x.closed
    && x'.root == x.root && x'.got == x.got
  }

  predicate NoPush(pc: Pc) { !Telling(pc) && !pc.Clearing? }

  lemma ViewMoves(c: Config, x: Thread, x': Thread)
    requires Bounds(c, x) && SameLists(x, x') && ReadNo(x'.pc) == ReadNo(x.pc)
    requires NoPush(x.pc) && (NoPush(x'.pc) || (x'.pc.Pushing? && x'.pc.i == 0))
    requires x'.pc.SwapBound? ==> x'.pc.b < x'.pc.seen
    requires x'.pc.Publish? || x'.pc.ReadBest? ==> c.graph.goal(x'.pc.m.x)
    ensures Bounds(c, x') && ViewOf(c, x') == ViewOf(c, x).(work := WorkOf(x'.pc), pending := Pending(x'.pc))
  {
    assert forall d: nat :: d < |x.out| ==> PushNo(x, d) == 0 && PushNo(x', d) == 0;
  }

  predicate AtRest(pc: Pc) {
    pc.Loop? || pc.Take? || pc.Peek? || pc.CheckOpen? || pc.Recv? || pc.Locked? || pc.Counting? || pc.Unlocking?
    || pc.Waiting? || pc.Relock? || pc.Woken? || pc.AfterRecv? || pc.SetDone? || pc.Flush?
  }

  /** The control steps do not show. */
  lemma ControlRefines(c: Config, s: State, s': State, e: Step)
    requires AllBounds(c, s) && StepTo(c, s, s', e) && AtRest(s.th[e.t].pc)
    requires s.th[e.t].pc.Flush? && s.th[e.t].pc.d < |s.th[e.t].out| && s.th[e.t].out[s.th[e.t].pc.d] != [] ==> s.th[e.t].pc.d != e.t
    ensures AllBounds(c, s') && Refines(c, s, s', e.t)
  {
    ControlForm(c, s, s', e);
    ViewMoves(c, s.th[e.t], s'.th[e.t]);
    RestsAtRest(s.th[e.t].pc);
    RestsAtRest(s'.th[e.t].pc);
    hide StepTo, ViewOf, Bounds;
    Hidden(c, s, s', e.t);
  }

  lemma RestsAtRest(pc: Pc)
    ensures AtRest(pc) || pc.Processing? || pc.TakeOpen? || pc.Exited? ==> WorkOf(pc) == Rests && Pending(pc) == []
    ensures pc.Pushing? && pc.k.ToFlush? ==> WorkOf(pc) == Rests && Pending(pc) == []
  {
  }

  predicate AfterControl(pc: Pc) {
    AtRest(pc) || (pc.Processing? && pc.i == 0) || pc.TakeOpen? || pc.Exited? || (pc.Pushing? && pc.k.ToFlush? && pc.i == 0)
  }

  lemma ControlForm(c: Config, s: State, s': State, e: Step)
    requires StepTo(c, s, s', e) && AtRest(s.th[e.t].pc)
    requires s.th[e.t].pc.Flush? && s.th[e.t].pc.d < |s.th[e.t].out| && s.th[e.t].out[s.th[e.t].pc.d] != [] ==> s.th[e.t].pc.d != e.t
    ensures Only(s, s', e.t) && SameLists(s.th[e.t], s'.th[e.t]) && AfterControl(s'.th[e.t].pc)
    ensures s'.bound == s.bound && s'.best == s.best
  {
    hide Go, Put, FlushStep, RecvStep, LockedStep, IsComplete, Only, SameLists;
    var t := e.t;
    match s.th[t].pc
    case Loop => GoOnly(s, s, s', t, if s.done then Exited else Take);
    case Take => GoOnly(s, s, s', t, if e.flush then Flush(0, false, true) else Peek(true));
    case Flush(d, has, first) => FlushForm(c, s, s', t, d, has, first);
    case Peek(has) => GoOnly(s, s, s', t, if s.th[t].qEmpty then CheckOpen(has) else Recv(has, true));
    case CheckOpen(has) => GoOnly(s, s, s', t, AfterCheck(s.th[t], has));
    case Recv(has, first) => RecvOnly(c, s, s', t, has, first);
    case Locked(has, first) => LockedOnly(s, s', t, has, first);
    case Counting => GoOnly(s, s.(counter := s.counter + 1), s', t, Unlocking);
    case Unlocking => PutOnly(s, s', t, s.th[t].(pc := Waiting, lock := None));
    case Waiting => GoOnly(s, s, s', t, Relock);
    case Relock => PutOnly(s, s', t, s.th[t].(pc := Woken, lock := Some(t)));
    case Woken =>
      if IsComplete(c, s) { PutOnly(s, s', t, s.th[t].(pc := AfterRecv(false), lock := None)); }
      else { GoOnly(s, s, s', t, Processing(0, false, false)); }
    case AfterRecv(has) => GoOnly(s, s, s', t, if IsComplete(c, s) then SetDone else CheckOpen(has));
    case SetDone => GoOnly(s, s.(done := true), s', t, Loop);
    case _ =>
  }

  lemma GoOnly(s: State, r: State, s': State, t: nat, pc: Pc)
    requires t < |s.th| && r.th == s.th && r.bound == s.bound && r.best == s.best && s' == Go(r, t, pc)
    ensures Only(s, s', t) && SameLists(s.th[t], s'.th[t]) && s'.th[t].pc == pc && s'.bound == s.bound && s'.best == s.best
  {
  }

  lemma PutOnly(s: State, s': State, t: nat, x: Thread)
    requires t < |s.th| && s' == Put(s, t, x) && SameLists(s.th[t], x)
    ensures Only(s, s', t) && SameLists(s.th[t], s'.th[t]) && s'.th[t] == x && s'.bound == s.bound && s'.best == s.best
  {
  }

  lemma FlushForm(c: Config, s: State, s': State, t: nat, d: nat, has: bool, first: bool)
    requires t < |s.th| && FlushStep(c, s, s', t, d, has, first)
    requires d < |s.th[t].out| && s.th[t].out[d] != [] ==> d != t
    ensures Only(s, s', t) && SameLists(s.th[t], s'.th[t]) && s'.bound == s.bound && s'.best == s.best
    ensures AfterControl(s'.th[t].pc)
  {
    hide Go, SetLock, Only, SameLists;
    if d >= c.n || !c.asyncSend {
      GoOnly(s, s, s', t, if first then Peek(has) else Recv(has, false));
    } else if s.th[t].out[d] == [] {
      GoOnly(s, s, s', t, Flush(d + 1, has, first));
    } else if s.th[d].lock.Some? {
      GoOnly(s, s, s', t, Flush(d + 1, true, first));
    } else {
      LockForForm(s, s', t, d, ToFlush(d + 1, has, first));
      SamePc(s.th[t], Pushing(d, 0, ToFlush(d + 1, has, first)));
    }
  }

  lemma SamePc(x: Thread, pc: Pc)
    ensures SameLists(x, x.(pc := pc))
  {
  }

  lemma RecvOnly(c: Config, s: State, s': State, t: nat, has: bool, first: bool)
    requires t < |s.th| && RecvStep(c, s, s', t, has, first)
    ensures Only(s, s', t) && SameLists(s.th[t], s'.th[t]) && s'.bound == s.bound && s'.best == s.best
    ensures AfterControl(s'.th[t].pc)
  {
  }

  lemma LockedOnly(s: State, s': State, t: nat, has: bool, first: bool)
    requires t < |s.th| && LockedStep(s, s', t, has, first)
    ensures Only(s, s', t) && SameLists(s.th[t], s'.th[t]) && s'.bound == s.bound && s'.best == s.best
    ensures AfterControl(s'.th[t].pc)
  {
  }

  // --- the search steps ---

  /** The effect of going from one search place to another. */
  predicate SearchEffect(c: Config, bound: nat, pc: Pc, pc': Pc, f: Effect) {
    match f
    case Drops(m) => pc == Took(m) && c.Pruned(m, bound) && pc'.Loop?
    case Clears(m) =>
      pc' == Expand(m) && ((pc == Took(m) && !c.graph.goal(m.x)) || (pc.ReadBound? && pc.m == m && bound <= pc.b))
    case Lowers(m, b) => pc' == Expand(m) && pc.SwapBound? && pc.m == m && pc.b == b < bound
    case Generates(m) => pc == Expand(m) && pc' == Sending(c.Children(m))
    case Skips(m) => pc.Sending? && pc.ms != [] && m == pc.ms[0] && c.Pruned(m, bound) && pc' == Sending(pc.ms[1..])
    case _ => false
  }

  lemma SearchOwn(c: Config, s: State, t: nat, pc: Pc, f: Effect)
    requires t < |s.th| && AllBounds(c, s) && SearchEffect(c, s.bound, s.th[t].pc, pc, f)
    ensures var v := ViewOf(c, s.th[t]);
            Own(c, PictureOf(c, s), t, v, v.(work := WorkOf(pc), pending := Pending(pc)), f)
  {
    assert Bounds(c, s.th[t]);
  }

  /** A step from one search place to another, for which `f` stands. */
  lemma SearchShown(c: Config, s: State, r: State, s': State, t: nat, pc: Pc, f: Effect)
    requires t < |s.th| && AllBounds(c, s) && r.th == s.th && r.best == s.best && s' == Go(r, t, pc)
    requires NoPush(s.th[t].pc) && NoPush(pc) && ReadNo(s.th[t].pc) == ReadNo(pc)
    requires pc.SwapBound? ==> pc.b < pc.seen
    requires pc.Publish? || pc.ReadBest? ==> c.graph.goal(pc.m.x)
    requires SearchEffect(c, s.bound, s.th[t].pc, pc, f) && r.bound == (if f.Lowers? then f.b else s.bound)
    ensures AllBounds(c, s') && Refines(c, s, s', t)
  {
    GoAny(s, r, s', t, pc);
    SearchOwn(c, s, t, pc, f);
    ViewMoves(c, s.th[t], s'.th[t]);
    hide Own, ViewOf, Bounds, Go, Put;
    Shown(c, s, s', t, f);
  }

  lemma GoAny(s: State, r: State, s': State, t: nat, pc: Pc)
    requires t < |s.th| && r.th == s.th && s' == Go(r, t, pc)
    ensures Only(s, s', t) && s'.th[t] == s.th[t].(pc := pc) && s'.bound == r.bound && s'.best == r.best
  {
  }

  /** A step from one search place to another that does not show. */
  lemma SearchHidden(c: Config, s: State, s': State, t: nat, pc: Pc)
    requires t < |s.th| && AllBounds(c, s) && s' == Go(s, t, pc)
    requires NoPush(s.th[t].pc) && NoPush(pc) && ReadNo(s.th[t].pc) == ReadNo(pc)
    requires WorkOf(pc) == WorkOf(s.th[t].pc) && Pending(pc) == Pending(s.th[t].pc)
    requires pc.SwapBound? ==> pc.b < pc.seen
    requires pc.Publish? || pc.ReadBest? ==> c.graph.goal(pc.m.x)
    ensures AllBounds(c, s') && Refines(c, s, s', t)
  {
    GoAny(s, s, s', t, pc);
    ViewMoves(c, s.th[t], s'.th[t]);
    hide Own, ViewOf, Bounds, Go, Put;
    Hidden(c, s, s', t);
  }

  predicate AtSearch(pc: Pc) { Plain(pc) && !pc.Loop? && !pc.Deliver? }

  lemma SearchRefines(c: Config, s: State, s': State, e: Step)
    requires AllBounds(c, s) && StepTo(c, s, s', e) && AtSearch(s.th[e.t].pc)
    ensures AllBounds(c, s') && Refines(c, s, s', e.t)
  {
    hide Go, Put, TakeStep, Refines, Config.Children, Config.Pruned, AllBounds, Bounds;
    var t := e.t;
    SwapsDown(c, s, t);
    match s.th[t].pc
    case TakeOpen => TakeRefines(c, s, s', e);
    case Took(m) =>
      if c.Pruned(m, s.bound) { SearchShown(c, s, s, s', t, Loop, Drops(m)); }
      else if c.graph.goal(m.x) { SearchHidden(c, s, s', t, Publish(m)); }
      else { SearchShown(c, s, s, s', t, Expand(m), Clears(m)); }
    case Publish(m) => EnterRefines(c, s, s', t, m);
    case ReadBest(m) => ChooseRefines(c, s, s', t, m);
    case ReadBound(m, b) =>
      if s.bound <= b { SearchShown(c, s, s, s', t, Expand(m), Clears(m)); }
      else { SearchHidden(c, s, s', t, SwapBound(m, b, s.bound)); }
    case SwapBound(m, b, seen) =>
      if s.bound == seen { SearchShown(c, s, s.(bound := b), s', t, Expand(m), Lowers(m, b)); }
      else { SearchHidden(c, s, s', t, ReadBound(m, b)); }
    case Expand(m) => SearchShown(c, s, s, s', t, Sending(c.Children(m)), Generates(m));
    case Sending(ms) =>
      if ms == [] { SearchHidden(c, s, s', t, Loop); }
      else if c.Pruned(ms[0], s.bound) { SearchShown(c, s, s, s', t, Sending(ms[1..]), Skips(ms[0])); }
      else { SearchHidden(c, s, s', t, Deliver(ms)); }
    case _ =>
  }

  lemma SwapsDown(c: Config, s: State, t: nat)
    requires AllBounds(c, s) && t < |s.th|
    ensures s.th[t].pc.SwapBound? ==> s.th[t].pc.b < s.th[t].pc.seen
    ensures s.th[t].pc.Publish? || s.th[t].pc.ReadBest? ==> c.graph.goal(s.th[t].pc.m.x)
  {
    assert Bounds(c, s.th[t]);
  }

  lemma TakeRefines(c: Config, s: State, s': State, e: Step)
    requires e.t < |s.th| && AllBounds(c, s) && s.th[e.t].pc.TakeOpen? && TakeStep(c, s, s', e)
    ensures AllBounds(c, s') && Refines(c, s, s', e.t)
  {
    if s.done {
      hide Refines, Bounds;
      SearchHidden(c, s, s', e.t, Loop);
    } else {
      var x := s.th[e.t];
      var m := if e.root then Msg(c.graph.init, 0) else Msg(e.x, x.closed[e.x]);
      var y := if e.root then x.(pc := Took(m), root := false) else x.(pc := Took(m), open := x.open - {e.x});
      hide Refines, AllBounds;
      TakesRefine(c, s, s', e.t, m, e.root, y);
    }
  }

  lemma TakesRefine(c: Config, s: State, s': State, t: nat, m: Msg, root: bool, y: Thread)
    requires t < |s.th| && AllBounds(c, s) && s.th[t].pc.TakeOpen? && s' == Put(s, t, y)
    requires if root then s.th[t].root && m == Msg(c.graph.init, 0) && y == s.th[t].(pc := Took(m), root := false)
             else m.x in s.th[t].open && m.x in s.th[t].closed && m.g == s.th[t].closed[m.x]
                  && y == s.th[t].(pc := Took(m), open := s.th[t].open - {m.x})
    ensures AllBounds(c, s') && Refines(c, s, s', t)
  {
    assert Bounds(c, s.th[t]);
    PutAny(s, s', t, y);
    ViewTakes(c, s.th[t], y);
    OpenOwn(c, s.th[t]);
    hide ViewOf, Bounds, Go, Put, Refines;
    Shown(c, s, s', t, Takes(m, root));
  }

  lemma OpenOwn(c: Config, x: Thread)
    requires Bounds(c, x) && x.pc.TakeOpen?
    ensures var v := ViewOf(c, x); v.work.Rests? && v.pending == [] && v.open == x.open && v.closed == x.closed && v.root == x.root
  {
  }

  lemma ViewTakes(c: Config, x: Thread, y: Thread)
    requires Bounds(c, x) && NoPush(x.pc) && ReadNo(x.pc) == 0 && y.pc.Took?
    requires y == x.(pc := y.pc, open := y.open, root := y.root)
    ensures Bounds(c, y)
    ensures ViewOf(c, y) == ViewOf(c, x).(work := Has(y.pc.m), pending := [], open := y.open, root := y.root)
  {
    assert forall d: nat :: d < |x.out| ==> PushNo(x, d) == 0 && PushNo(y, d) == 0;
  }

  lemma PutAny(s: State, s': State, t: nat, x: Thread)
    requires t < |s.th| && s' == Put(s, t, x)
    ensures Only(s, s', t) && s'.th[t] == x && s'.bound == s.bound && s'.best == s.best
  {
  }

  lemma EnterRefines(c: Config, s: State, s': State, t: nat, m: Msg)
    requires t < |s.th| && AllBounds(c, s) && s.th[t].pc == Publish(m)
    requires s' == Go(s.(best := Some(Better(s.best, m.g))), t, ReadBest(m))
    ensures AllBounds(c, s') && Refines(c, s, s', t)
  {
    var b := Better(s.best, m.g);
    assert Bounds(c, s.th[t]);
    GoAny(s, s.(best := Some(b)), s', t, ReadBest(m));
    ViewMoves(c, s.th[t], s'.th[t]);
    GoalOwn(c, s, t, m, b);
    hide ViewOf, Bounds, Go, Put, Refines, Own;
    Shown(c, s, s', t, Enters(m, b));
  }

  lemma ChooseRefines(c: Config, s: State, s': State, t: nat, m: Msg)
    requires t < |s.th| && AllBounds(c, s) && s.th[t].pc == ReadBest(m)
    requires s' == Go(s, t, ReadBound(m, Better(s.best, m.g)))
    ensures AllBounds(c, s') && Refines(c, s, s', t)
  {
    var b := Better(s.best, m.g);
    assert Bounds(c, s.th[t]);
    GoAny(s, s, s', t, ReadBound(m, b));
    ViewMoves(c, s.th[t], s'.th[t]);
    GoalOwn(c, s, t, m, b);
    hide ViewOf, Bounds, Go, Put, Refines, Own;
    Shown(c, s, s', t, Chooses(m, b));
  }

  lemma GoalOwn(c: Config, s: State, t: nat, m: Msg, b: nat)
    requires t < |s.th| && AllBounds(c, s) && (s.th[t].pc == Publish(m) || s.th[t].pc == ReadBest(m))
    requires b <= m.g && (b == m.g || Some(b) == s.best)
    ensures var v := ViewOf(c, s.th[t]);
            && Own(c, PictureOf(c, s), t, v, v.(work := Has(m), pending := []), Enters(m, b))
            && Own(c, PictureOf(c, s), t, v, v.(work := Offers(m, b), pending := []), Chooses(m, b))
  {
    assert Bounds(c, s.th[t]);
  }

  // --- reading the queue ---

  lemma ProcessRefines(c: Config, s: State, s': State, e: Step)
    requires AllBounds(c, s) && StepTo(c, s, s', e) && s.th[e.t].pc.Processing?
    ensures AllBounds(c, s') && Refines(c, s, s', e.t)
  {
    var x := s.th[e.t];
    assert ProcessStep(c, s, s', e.t, x.pc.i, x.pc.has, x.pc.first);
    hide StepTo, Refines, AllBounds, Bounds, ProcessStep;
    if x.pc.i >= |x.q| { EndsRefines(c, s, s', e.t); } else { ReadsRefines(c, s, s', e.t); }
  }

  lemma EndsRefines(c: Config, s: State, s': State, t: nat)
    requires t < |s.th| && AllBounds(c, s) && s.th[t].pc.Processing? && s.th[t].pc.i >= |s.th[t].q|
    requires ProcessStep(c, s, s', t, s.th[t].pc.i, s.th[t].pc.has, s.th[t].pc.first)
    ensures AllBounds(c, s') && Refines(c, s, s', t)
  {
    var x, has := s.th[t], s.th[t].pc.has;
    PutAny(s, s', t, x.(q := [], qEmpty := true, lock := None, pc := if x.pc.first then CheckOpen(has) else AfterRecv(has)));
    assert Bounds(c, x);
    ViewEnds(c, x, s'.th[t]);
    hide ViewOf, Bounds, Put, Refines, ProcessStep;
    Hidden(c, s, s', t);
  }

  lemma ReadsRefines(c: Config, s: State, s': State, t: nat)
    requires t < |s.th| && AllBounds(c, s) && s.th[t].pc.Processing? && s.th[t].pc.i < |s.th[t].q|
    requires ProcessStep(c, s, s', t, s.th[t].pc.i, s.th[t].pc.has, s.th[t].pc.first)
    ensures AllBounds(c, s') && Refines(c, s, s', t)
  {
    hide Config.Pruned, Enter, EnterView;
    var x := s.th[t];
    var en := x.q[x.pc.i];
    var y := (if c.Pruned(en.m, s.bound) then x else Enter(x, en.m))
             .(pc := Processing(x.pc.i + 1, x.pc.has, x.pc.first), got := x.got + [en]);
    EnterKeeps(x, en.m);
    assert s' == Put(s, t, y);
    PutAny(s, s', t, y);
    assert Bounds(c, x);
    ViewReads(c, x, y, s.bound);
    hide ViewOf, Bounds, Put, Refines, ProcessStep;
    Shown(c, s, s', t, Reads(en));
  }

  lemma EnterKeeps(x: Thread, m: Msg)
    ensures var y := Enter(x, m); y == x.(open := y.open, closed := y.closed)
  {
  }

  lemma ViewEnds(c: Config, x: Thread, y: Thread)
    requires Bounds(c, x) && x.pc.Processing? && x.pc.i >= |x.q|
    requires y == x.(q := [], qEmpty := true, lock := None, pc := y.pc) && (y.pc.CheckOpen? || y.pc.AfterRecv?)
    ensures Bounds(c, y) && ViewOf(c, y) == ViewOf(c, x)
  {
    assert forall d: nat :: d < |x.out| ==> PushNo(x, d) == 0 && PushNo(y, d) == 0;
  }

  lemma ViewReads(c: Config, x: Thread, y: Thread, bound: nat)
    requires Bounds(c, x) && x.pc.Processing? && x.pc.i < |x.q|
    requires var en := x.q[x.pc.i];
             y == (if c.Pruned(en.m, bound) then x else Enter(x, en.m))
                  .(pc := Processing(x.pc.i + 1, x.pc.has, x.pc.first), got := x.got + [en])
    ensures Bounds(c, y)
    ensures var v, en := ViewOf(c, x), x.q[x.pc.i];
            && v.work.Rests? && v.unread != [] && v.unread[0] == en
            && ViewOf(c, y) == (if c.Pruned(en.m, bound) then v else EnterView(v, en.m))
                               .(unread := v.unread[1..], got := v.got + [en])
  {
    assert forall d: nat :: d < |x.out| ==> PushNo(x, d) == 0 && PushNo(y, d) == 0;
    assert x.q[x.pc.i..][1..] == x.q[x.pc.i + 1..];
  }

  // --- sending ---

  lemma DeliverRefines(c: Config, s: State, s': State, e: Step)
    requires AllBounds(c, s) && StepTo(c, s, s', e) && s.th[e.t].pc.Deliver?
    ensures AllBounds(c, s') && Refines(c, s, s', e.t)
  {
    var x := s.th[e.t];
    var m, rest := x.pc.ms[0], x.pc.ms[1..];
    assert DeliverStep(c, s, s', e.t, m, rest);
    hide StepTo, DeliverStep, Refines, AllBounds;
    if c.owner(m.x) == e.t { KeepRefines(c, s, s', e.t, m, rest); } else { SendRefines(c, s, s', e.t, m, rest); }
  }

  lemma KeepRefines(c: Config, s: State, s': State, t: nat, m: Msg, rest: seq<Msg>)
    requires t < |s.th| && AllBounds(c, s) && s.th[t].pc.Deliver? && s.th[t].pc.ms == [m] + rest && c.owner(m.x) == t
    requires DeliverStep(c, s, s', t, m, rest)
    ensures AllBounds(c, s') && Refines(c, s, s', t)
  {
    hide Enter, EnterView;
    var x := s.th[t];
    var y := Enter(x, m).(pc := Sending(rest));
    EnterKeeps(x, m);
    PutAny(s, s', t, y);
    assert Bounds(c, x);
    ViewKeeps(c, x, y, m, rest);
    hide ViewOf, Bounds, Put, Refines, DeliverStep;
    Shown(c, s, s', t, Opens(m));
  }

  lemma ViewKeeps(c: Config, x: Thread, y: Thread, m: Msg, rest: seq<Msg>)
    requires Bounds(c, x) && x.pc.Deliver? && x.pc.ms == [m] + rest && y == Enter(x, m).(pc := Sending(rest))
    ensures Bounds(c, y)
    ensures var v := ViewOf(c, x);
            && v.work.Rests? && v.pending == [m] + rest && v.pending[1..] == rest
            && ViewOf(c, y) == EnterView(v, m).(pending := rest)
  {
    assert forall d: nat :: d < |x.out| ==> PushNo(x, d) == 0 && PushNo(y, d) == 0;
  }

  lemma SendRefines(c: Config, s: State, s': State, t: nat, m: Msg, rest: seq<Msg>)
    requires t < |s.th| && AllBounds(c, s) && s.th[t].pc.Deliver? && s.th[t].pc.ms == [m] + rest && c.owner(m.x) != t
    requires DeliverStep(c, s, s', t, m, rest)
    ensures AllBounds(c, s') && Refines(c, s, s', t)
  {
    var x, d := s.th[t], c.owner(m.x);
    SendForm(c, s, s', t, m, rest);
    assert Bounds(c, x);
    ViewSends(c, x, s'.th[t], d, m, rest);
    hide ViewOf, Bounds, Refines, DeliverStep;
    Shown(c, s, s', t, Buffers(d, m));
  }

  predicate AfterSend(pc: Pc, d: nat, rest: seq<Msg>) {
    pc == Sending(rest) || pc == LockFor(d, ToSending(rest)) || pc == Pushing(d, 0, ToSending(rest))
  }

  lemma SendForm(c: Config, s: State, s': State, t: nat, m: Msg, rest: seq<Msg>)
    requires t < |s.th| && c.owner(m.x) != t && DeliverStep(c, s, s', t, m, rest)
    ensures var x, d := s.th[t], c.owner(m.x);
            && d < |s.th| && d < |x.out| && d < |x.sent| && Only(s, s', t) && s'.bound == s.bound && s'.best == s.best
            && s'.th[t] == x.(pc := s'.th[t].pc, out := x.out[d := x.out[d] + [m]], sent := x.sent[d := x.sent[d] + [m]])
            && AfterSend(s'.th[t].pc, d, rest)
  {
  }

  lemma ViewSends(c: Config, x: Thread, y: Thread, d: nat, m: Msg, rest: seq<Msg>)
    requires Bounds(c, x) && x.pc.Deliver? && x.pc.ms == [m] + rest && d < |x.out| && d < |x.sent|
    requires y == x.(pc := y.pc, out := x.out[d := x.out[d] + [m]], sent := x.sent[d := x.sent[d] + [m]])
    requires AfterSend(y.pc, d, rest)
    ensures Bounds(c, y)
    ensures var v := ViewOf(c, x);
            && v.work.Rests? && v.pending == [m] + rest && v.pending[1..] == rest && d < |v.rest| && d < |v.sent|
            && ViewOf(c, y) == v.(pending := rest, rest := v.rest[d := v.rest[d] + [m]], sent := v.sent[d := v.sent[d] + [m]])
  {
    assert forall e: nat :: e < |x.out| ==> PushNo(x, e) == 0 && PushNo(y, e) == 0;
  }

  lemma LockForRefines(c: Config, s: State, s': State, e: Step)
    requires AllBounds(c, s) && StepTo(c, s, s', e) && s.th[e.t].pc.LockFor? && s.th[e.t].pc.d != e.t
    ensures AllBounds(c, s') && Refines(c, s, s', e.t)
  {
    var t, d, k := e.t, s.th[e.t].pc.d, s.th[e.t].pc.k;
    LockForForm(s, s', t, d, k);
    ViewMoves(c, s.th[t], s'.th[t]);
    assert WorkOf(s.th[t].pc) == WorkOf(s'.th[t].pc) && Pending(s.th[t].pc) == Pending(s'.th[t].pc);
    hide StepTo, ViewOf, Bounds;
    Hidden(c, s, s', t);
  }

  lemma LockForForm(s: State, s': State, t: nat, d: nat, k: Cont)
    requires t < |s.th| && d < |s.th| && d != t && s' == Go(SetLock(s, d, Some(t)), t, Pushing(d, 0, k))
    ensures Only(s, s', t) && s'.th[t] == s.th[t].(pc := Pushing(d, 0, k)) && s'.bound == s.bound && s'.best == s.best
  {
  }

  lemma TellingRefines(c: Config, s: State, s': State, e: Step)
    requires AllBounds(c, s) && Inv(c, s) && StepTo(c, s, s', e) && AtTelling(s.th[e.t].pc)
    ensures AllBounds(c, s') && Refines(c, s, s', e.t)
  {
    var t, d := e.t, s.th[e.t].pc.d;
    TellFacts(c, s, t, d);
    hide Inv, AllBounds, Bounds, Refines;
    if OnlyMoves(s, t, d) {
      MoveForm(c, s, s', e, d);
    } else {
      TellNormal(c, s, s', e, d);
    }
    hide StepTo, OnlyMoves;
    TellCases(c, s, s', t, d);
  }

  /** The two message steps that only move the sender on. */
  ghost predicate MoveOn(s: State, s': State, t: nat, d: nat)
    requires t < |s.th| && d < |s.th| && d < |s.th[t].out| && AtTelling(s.th[t].pc)
  {
    && OnlyMoves(s, t, d)
    && s' == s.(th := s.th[t := s.th[t].(pc := if s.th[t].pc.Pushing? then Posting(d, s.th[t].pc.k) else Raising(d, s.th[t].pc.k))])
  }

  lemma MoveForm(c: Config, s: State, s': State, e: Step, d: nat)
    requires StepTo(c, s, s', e) && AtTelling(s.th[e.t].pc) && s.th[e.t].pc.d == d && d < |s.th| && d < |s.th[e.t].out|
    requires OnlyMoves(s, e.t, d)
    ensures MoveOn(s, s', e.t, d)
  {
    match s.th[e.t].pc
    case Pushing(_, i, k) => assert PushStep(s, s', e.t, d, i, k);
    case Posting(_, k) =>
    case _ =>
  }

  lemma TellCases(c: Config, s: State, s': State, t: nat, d: nat)
    requires AllBounds(c, s) && t < |s.th| && d < |s.th| && d < |s.th[t].out| && d != t
    requires AtTelling(s.th[t].pc) && s.th[t].pc.d == d
    requires MoveOn(s, s', t, d) || (TellForm(s, s', t, d) && !OnlyMoves(s, t, d))
    ensures AllBounds(c, s') && Refines(c, s, s', t)
  {
    assert Bounds(c, s.th[t]);
    if MoveOn(s, s', t, d) || !s.th[t].pc.Pushing? {
      TellOnly(s, s', t, d);
      ViewTells(c, s.th[t], s'.th[t], d);
      hide ViewOf, Bounds, MoveOn, TellForm;
      Hidden(c, s, s', t);
    } else {
      PushRefines(c, s, s', t, d);
    }
  }

  /** What the sender's record may become in a step that does not show. */
  predicate Quietly(x: Thread, y: Thread, d: nat)
    requires d < |x.out| && AtTelling(x.pc)
  {
    && y == x.(pc := y.pc, out := y.out)
    && if x.pc.Clearing? then y.out == x.out[d := []] && y.pc == Back(x.pc.k)
       else y.out == x.out && (y.pc.Posting? || y.pc.Uncounted? || y.pc.Raising? || y.pc.Clearing?)
            && y.pc.d == d && y.pc.k == x.pc.k && (x.pc.Pushing? ==> x.pc.i >= |x.out[d]|)
  }

  lemma TellOnly(s: State, s': State, t: nat, d: nat)
    requires t < |s.th| && d < |s.th| && d < |s.th[t].out| && d != t && AtTelling(s.th[t].pc) && s.th[t].pc.d == d
    requires MoveOn(s, s', t, d) || (TellForm(s, s', t, d) && !s.th[t].pc.Pushing?)
    ensures Only(s, s', t) && s'.bound == s.bound && s'.best == s.best && Quietly(s.th[t], s'.th[t], d)
  {
    if MoveOn(s, s', t, d) {
    } else {
      SenderQuiet(s.th[t], d);
      ReceiverQuiet(s.th[t], s.th[d], t, d);
      hide SenderAfter, ReceiverAfter, Quietly;
    }
  }

  lemma SenderQuiet(x: Thread, d: nat)
    requires d < |x.out| && AtTelling(x.pc) && x.pc.d == d && !x.pc.Pushing?
    ensures Quietly(x, SenderAfter(x, d), d)
  {
  }

  lemma ReceiverQuiet(x: Thread, y: Thread, t: nat, d: nat)
    requires AtTelling(x.pc) && !x.pc.Pushing?
    ensures var y' := ReceiverAfter(x, y, t, d); y' == y.(lock := y'.lock, completed := y'.completed, qEmpty := y'.qEmpty)
  {
  }

  lemma ViewTells(c: Config, x: Thread, y: Thread, d: nat)
    requires Bounds(c, x) && d < |x.out| && AtTelling(x.pc) && x.pc.d == d && Quietly(x, y, d)
    ensures Bounds(c, y) && ViewOf(c, y) == ViewOf(c, x)
  {
    assert forall e: nat :: e < |x.out| && e != d ==> PushNo(x, e) == 0 && PushNo(y, e) == 0;
    assert PushNo(x, d) == |x.out[d]| && PushNo(y, d) == |y.out[d]|;
    assert x.out[d][|x.out[d]|..] == [] == y.out[d][|y.out[d]|..];
    forall e: nat | e < |x.out| ensures y.out[e][PushNo(y, e)..] == x.out[e][PushNo(x, e)..] {
    }
    assert Pending(y.pc) == Pending(x.pc) && WorkOf(y.pc) == WorkOf(x.pc);
  }

  lemma PushRefines(c: Config, s: State, s': State, t: nat, d: nat)
    requires AllBounds(c, s) && TellForm(s, s', t, d) && d < |s.th[t].out|
    requires s.th[t].pc.Pushing? && s.th[t].pc.i < |s.th[t].out[d]|
    ensures AllBounds(c, s') && Refines(c, s, s', t)
  {
    var x, m := s.th[t], s.th[t].out[d][s.th[t].pc.i];
    assert Bounds(c, s.th[t]) && Bounds(c, s.th[d]);
    PushForm(s, s', t, d);
    ViewPushes(c, x, s'.th[t], d, m);
    ViewGets(c, s.th[d], s'.th[d], Entry(t, m));
    hide ViewOf, Bounds, TellForm;
    forall u: nat | u < |s'.th| ensures Bounds(c, s'.th[u]) { }
    assert Happens(c, PictureOf(c, s), PictureOf(c, s'), t, Pushes(d, m));
  }

  lemma PushForm(s: State, s': State, t: nat, d: nat)
    requires TellForm(s, s', t, d) && d < |s.th[t].out| && s.th[t].pc.Pushing? && s.th[t].pc.i < |s.th[t].out[d]|
    ensures |s'.th| == |s.th| && s'.bound == s.bound && s'.best == s.best
    ensures s'.th[t] == s.th[t].(pc := Pushing(d, s.th[t].pc.i + 1, s.th[t].pc.k))
    ensures s'.th[d] == s.th[d].(q := s.th[d].q + [Entry(t, s.th[t].out[d][s.th[t].pc.i])])
    ensures forall u: nat :: u < |s.th| && u != t && u != d ==> s'.th[u] == s.th[u]
  {
  }

  lemma ViewPushes(c: Config, x: Thread, y: Thread, d: nat, m: Msg)
    requires Bounds(c, x) && d < |x.out| && x.pc.Pushing? && x.pc.d == d && x.pc.i < |x.out[d]| && m == x.out[d][x.pc.i]
    requires y == x.(pc := Pushing(d, x.pc.i + 1, x.pc.k))
    ensures Bounds(c, y)
    ensures var v := ViewOf(c, x);
            && d < |v.rest| && v.rest[d] != [] && v.rest[d][0] == m && ViewOf(c, y) == v.(rest := v.rest[d := v.rest[d][1..]])
  {
    assert forall e: nat :: e < |x.out| && e != d ==> PushNo(x, e) == 0 && PushNo(y, e) == 0;
    assert PushNo(x, d) == x.pc.i && PushNo(y, d) == x.pc.i + 1;
    assert x.out[d][x.pc.i..][1..] == x.out[d][x.pc.i + 1..];
  }

  lemma ViewGets(c: Config, x: Thread, y: Thread, en: Entry)
    requires Bounds(c, x) && y == x.(q := x.q + [en])
    ensures Bounds(c, y) && ViewOf(c, y) == ViewOf(c, x).(unread := ViewOf(c, x).unread + [en])
  {
    assert forall d: nat :: d < |x.out| ==> PushNo(y, d) == PushNo(x, d);
    assert (x.q + [en])[ReadNo(x.pc)..] == x.q[ReadNo(x.pc)..] + [en];
  }

  /** Every step of the program is a step of the picture, or does not show. */
  lemma StepRefines(c: Config, s: State, s': State, e: Step)
    requires Inv(c, s) && AllBounds(c, s) && StepTo(c, s, s', e)
    ensures AllBounds(c, s') && Refines(c, s, s', e.t)
  {
    hide Inv, StepTo, AllBounds, Refines;
    var pc := StepPc(c, s, s', e);
    if AtRest(pc) {
      if pc.Flush? { FlushFacts(c, s, e.t); }
      ControlRefines(c, s, s', e);
    }
    else if AtSearch(pc) { SearchRefines(c, s, s', e); }
    else if pc.Processing? { ProcessRefines(c, s, s', e); }
    else if pc.Deliver? { DeliverRefines(c, s, s', e); }
    else if pc.LockFor? { NotOwnLock(c, s, e.t); LockForRefines(c, s, s', e); }
    else { TellingRefines(c, s, s', e); }
  }

  lemma NotOwnLock(c: Config, s: State, t: nat)
    requires Inv(c, s) && t < |s.th| && s.th[t].pc.LockFor?
    ensures s.th[t].pc.d != t
  {
    assert ThreadOk(c, s, t);
  }
}
