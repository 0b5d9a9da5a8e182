/**
 * The lock-free, reference-counted free list as a state machine whose steps are
 * the single loads, stores, additions and compare-and-swaps of the program.
 *
 * A task is one activation of an operation.  The releases that a release sets
 * off are tasks of their own; since tasks interleave freely this covers the
 * recursive and the iterative form of the cascade, and any mix of them.
 */
module FreeLists {
  import opened PriorityQueues

  /** A memory word that holds a pointer to a node. */
  datatype Cell =
    | Head
    | Root(r: nat)
    | Link(n: nat, i: nat)

  datatype Task =
    | Reading(cell: Cell)                  // safe read: about to load the cell
    | Bumping(cell: Cell, q: nat)          // about to count the loaded pointer
    | Checking(cell: Cell, q: nat)         // counted, about to load the cell again
    | Popping(p: nat)                      // new: `p` was still the head after it was counted
    | Swinging(p: nat, next: Option<nat>)  // new: has read the link of `p`, about to swing the head
    | Clearing(p: nat)                     // new: took `p`, about to load its count
    | ClearSwap(p: nat, seen: int)          // new: about to clear the claim bit
    | Zeroing(p: nat, i: nat)              // new: the links below `i` are cleared
    | Holding(p: nat)                      // the client owns a reference
    | Dropping(p: nat)                     // release: about to load the count
    | DropSwap(p: nat, seen: int)           // release: about to lower the count
    | Sweeping(p: nat, i: nat)             // release: claimed `p`, the links below `i` are released
    | Pushing(p: nat)                      // reclaim: about to load the head
    | PushSwap(p: nat, next: Option<nat>)  // reclaim: about to swing the head

  /** Where a node is in its life; `owner` is the task that is at it. */
  datatype Status =
    | Free
    | Popped(owner: nat)
    | Blank(owner: nat)
    | Live
    | Claimed(owner: nat)
    | Swept(owner: nat)
  {
    /** The lowest bit of the node's count. */
    function Bit(): int { if Blank? || Live? then 0 else 1 }

    /** The links of such a node are counted references. */
    predicate Counts() { Live? || Claimed? }

    /** Nobody is taking the node apart. */
    predicate Unclaimed() { !Claimed? && !Swept? }
  }

  /** The memory, the tasks, and two auxiliary variables: the life stage of
      each node and the nodes on the free list in their order. */
  datatype State = State(
    rc: seq<int>,
    links: seq<seq<Option<nat>>>,
    head: Option<nat>,
    roots: seq<Option<nat>>,
    tasks: map<nat, Task>,
    status: seq<Status>,
    fl: seq<nat>,
    nlinks: nat)

  /** Who may own a counted reference. */
  datatype Holder = ByTask(t: nat) | ByCell(cell: Cell)

  function TaskRef(k: Task): Option<nat> {
    match k
    case Checking(_, q) => Some(q)
    case Popping(p) => Some(p)
    case Swinging(p, _) => Some(p)
    case Clearing(p) => Some(p)
    case ClearSwap(p, _) => Some(p)
    case Zeroing(p, _) => Some(p)
    case Holding(p) => Some(p)
    case Dropping(p) => Some(p)
    case DropSwap(p, _) => Some(p)
    case _ => None
  }

  function CellRef(s: State, cell: Cell): Option<nat> {
    match cell
    case Head => None
    case Root(r) => if r < |s.roots| then s.roots[r] else None
    case Link(n, i) =>
      if n < |s.links| && n < |s.status| && i < |s.links[n]| && s.status[n].Counts() then s.links[n][i] else None
  }

  function RefOf(s: State, h: Holder): Option<nat> {
    match h
    case ByTask(t) => if t in s.tasks then TaskRef(s.tasks[t]) else None
    case ByCell(cell) => CellRef(s, cell)
  }

  ghost function Holders(s: State): set<Holder> {
    (set t | t in s.tasks :: ByTask(t))
    + (set r: nat | r < |s.roots| :: ByCell(Root(r)))
    + (set n: nat, i: nat | n < |s.links| && i < |s.links[n]| :: ByCell(Link(n, i)))
  }

  /** The references to node `n` that its count has to account for. */
  ghost function Refs(s: State, n: nat): set<Holder> {
    set h | h in Holders(s) && RefOf(s, h) == Some(n)
  }

  lemma RefsAre(s: State, n: nat, h: Holder)
    ensures h in Refs(s, n) <==> RefOf(s, h) == Some(n)
  {
  }

  ghost predicate SameBut(s: State, s': State, a: Holder, b: Holder) {
    forall h :: h != a && h != b ==> RefOf(s', h) == RefOf(s, h)
  }

  function One(b: bool): int { if b then 1 else 0 }

  /** Counting when two holders change what they refer to. */
  lemma RefsChange(s: State, s': State, a: Holder, b: Holder, n: nat)
    requires a != b && SameBut(s, s', a, b)
    ensures |Refs(s', n)| == |Refs(s, n)|
              - One(RefOf(s, a) == Some(n)) + One(RefOf(s', a) == Some(n))
              - One(RefOf(s, b) == Some(n)) + One(RefOf(s', b) == Some(n))
  {
    var u, u' := Refs(s, n), Refs(s', n);
    forall h ensures h in u <==> RefOf(s, h) == Some(n) { RefsAre(s, n, h); }
    forall h ensures h in u' <==> RefOf(s', h) == Some(n) { RefsAre(s', n, h); }
    hide Refs, RefOf;
    SetChange(u, u', a, b);
  }

  lemma SetChange<T>(u: set<T>, u': set<T>, a: T, b: T)
    requires a != b && forall h :: h != a && h != b ==> (h in u <==> h in u')
    ensures |u'| == |u| - One(a in u) + One(a in u') - One(b in u) + One(b in u')
  {
    assert u - {a} - {b} == u' - {a} - {b};
    Without(u, a);
    Without(u - {a}, b);
    Without(u', a);
    Without(u' - {a}, b);
  }

  lemma Without<T>(s: set<T>, x: T)
    ensures |s - {x}| == |s| - One(x in s)
  {
    if x !in s { assert s - {x} == s; }
  }

  // ----- the steps -----

  predicate CellOk(s: State, cell: Cell) {
    match cell
    case Head => true
    case Root(r) => r < |s.roots|
    case Link(n, i) => n < |s.links| && i < |s.links[n]|
  }

  function Contents(s: State, cell: Cell): Option<nat>
    requires CellOk(s, cell)
  {
    match cell
    case Head => s.head
    case Root(r) => s.roots[r]
    case Link(n, i) => s.links[n][i]
  }

  function Store(s: State, cell: Cell, v: Option<nat>): State
    requires CellOk(s, cell)
  {
    match cell
    case Head => s.(head := v)
    case Root(r) => s.(roots := s.roots[r := v])
    case Link(n, i) => s.(links := s.links[n := s.links[n][i := v]])
  }

  predicate Is(s: State, t: nat, k: Task) { t in s.tasks && s.tasks[t] == k }

  /** The client reads the link of a node only while it holds the node. */
  predicate MayRead(s: State, cell: Cell, via: nat) {
    CellOk(s, cell) && (cell.Link? ==> Is(s, via, Holding(cell.n)))
  }

  function Put(s: State, t: nat, k: Task): State { s.(tasks := s.tasks[t := k]) }

  function End(s: State, t: nat): State { s.(tasks := s.tasks - {t}) }

  function Count(s: State, p: nat, v: int): State
    requires p < |s.rc|
  {
    s.(rc := s.rc[p := v])
  }

  function Stage(s: State, p: nat, x: Status): State
    requires p < |s.status|
  {
    s.(status := s.status[p := x])
  }

  /** What a release makes of a count, and whether it thereby claims the node. */
  function Lowered(seen: int): int { if seen - 2 == 0 then 1 else seen - 2 }

  predicate Wins(seen: int) { (seen - Lowered(seen)) % 2 == 1 }

  datatype Step =
    | BeginNew(t: nat)
    | BeginRead(t: nat, cell: Cell)
    | Load(t: nat, via: nat)
    | Bump(t: nat)
    | Check(t: nat, via: nat, u: nat)
    | ReadNext(t: nat)
    | Swing(t: nat, u: nat)
    | LoadCount(t: nat)
    | ClearCas(t: nat)
    | Zero(t: nat)
    | DropCas(t: nat)
    | Sweep(t: nat, u: nat)
    | PushLoad(t: nat)
    | PushCas(t: nat)
    | Share(t: nat, u: nat)
    | Discard(t: nat)
    | Exchange(t: nat, cell: Cell, via: nat)
    | TakeOut(t: nat, cell: Cell, via: nat)

  /** The sizes fit and every pointer is one to a node. */
  ghost predicate Shape(s: State) {
    && 0 < s.nlinks
    && |s.rc| == |s.links| == |s.status|
    && (forall n: nat :: n < |s.links| ==> |s.links[n]| == s.nlinks)
    && (s.head.Some? ==> s.head.value < |s.rc|)
    && (forall r: nat :: r < |s.roots| && s.roots[r].Some? ==> s.roots[r].value < |s.rc|)
    && (forall n: nat, i: nat :: n < |s.links| && i < |s.links[n]| && s.links[n][i].Some? ==> s.links[n][i].value < |s.rc|)
    && (forall t :: t in s.tasks ==> TaskShape(s, s.tasks[t]))
  }

  predicate TaskShape(s: State, k: Task) {
    match k
    case Reading(cell) => CellOk(s, cell)
    case Bumping(cell, q) => CellOk(s, cell) && q < |s.rc|
    case Checking(cell, q) => CellOk(s, cell) && q < |s.rc|
    case Swinging(p, next) => p < |s.rc| && (next.Some? ==> next.value < |s.rc|)
    case Zeroing(p, i) => p < |s.rc| && i <= s.nlinks
    case Sweeping(p, i) => p < |s.rc| && i <= s.nlinks
    case PushSwap(p, next) => p < |s.rc| && (next.Some? ==> next.value < |s.rc|)
    case _ => k.p < |s.rc|
  }

  /** One step of one task. */
  ghost predicate StepTo(s: State, s': State, step: Step)
    requires Shape(s)
  {
    match step
    case BeginNew(t) => t !in s.tasks && s' == Put(s, t, Reading(Head))
    case BeginRead(t, cell) => t !in s.tasks && cell != Head && CellOk(s, cell) && s' == Put(s, t, Reading(cell))
    case Load(t, via) => t in s.tasks && s.tasks[t].Reading? && LoadStep(s, s', t, via, s.tasks[t].cell)
    case Bump(t) => t in s.tasks && s.tasks[t].Bumping? && BumpStep(s, s', t, s.tasks[t].cell, s.tasks[t].q)
    case Check(t, via, u) =>
      t in s.tasks && s.tasks[t].Checking? && u !in s.tasks && CheckStep(s, s', t, via, u, s.tasks[t].cell, s.tasks[t].q)
    case ReadNext(t) => t in s.tasks && s.tasks[t].Popping? && ReadNextStep(s, s', t, s.tasks[t].p)
    case Swing(t, u) =>
      t in s.tasks && s.tasks[t].Swinging? && u !in s.tasks && SwingStep(s, s', t, u, s.tasks[t].p, s.tasks[t].next)
    case LoadCount(t) =>
      t in s.tasks && (s.tasks[t].Clearing? || s.tasks[t].Dropping?) && LoadCountStep(s, s', t, s.tasks[t].p)
    case ClearCas(t) => t in s.tasks && s.tasks[t].ClearSwap? && ClearStep(s, s', t, s.tasks[t].p, s.tasks[t].seen)
    case Zero(t) => t in s.tasks && s.tasks[t].Zeroing? && ZeroStep(s, s', t, s.tasks[t].p, s.tasks[t].i)
    case DropCas(t) => t in s.tasks && s.tasks[t].DropSwap? && DropStep(s, s', t, s.tasks[t].p, s.tasks[t].seen)
    case Sweep(t, u) =>
      t in s.tasks && s.tasks[t].Sweeping? && u !in s.tasks && SweepStep(s, s', t, u, s.tasks[t].p, s.tasks[t].i)
    case PushLoad(t) => t in s.tasks && s.tasks[t].Pushing? && PushLoadStep(s, s', t, s.tasks[t].p)
    case PushCas(t) => t in s.tasks && s.tasks[t].PushSwap? && PushStep(s, s', t, s.tasks[t].p, s.tasks[t].next)
    case Share(t, u) => t in s.tasks && s.tasks[t].Holding? && u !in s.tasks && ShareStep(s, s', u, s.tasks[t].p)
    case Discard(t) => t in s.tasks && s.tasks[t].Holding? && s' == Put(s, t, Dropping(s.tasks[t].p))
    case Exchange(t, cell, via) => t in s.tasks && s.tasks[t].Holding? && ExchangeStep(s, s', t, cell, via, s.tasks[t].p)
    case TakeOut(t, cell, via) => t !in s.tasks && TakeOutStep(s, s', t, cell, via)
  }

  ghost predicate LoadStep(s: State, s': State, t: nat, via: nat, cell: Cell) {
    && MayRead(s, cell, via)
    && match Contents(s, cell)
       case None => s' == End(s, t)
       case Some(q) => s' == Put(s, t, Bumping(cell, q))
  }

  ghost predicate BumpStep(s: State, s': State, t: nat, cell: Cell, q: nat) {
    q < |s.rc| && s' == Put(Count(s, q, s.rc[q] + 2), t, Checking(cell, q))
  }

  /** The counted pointer is given up and the read starts again if the cell has changed. */
  ghost predicate CheckStep(s: State, s': State, t: nat, via: nat, u: nat, cell: Cell, q: nat) {
    && MayRead(s, cell, via)
    && s' == if Contents(s, cell) != Some(q) then Put(Put(s, t, Dropping(q)), u, Reading(cell))
             else Put(s, t, if cell == Head then Popping(q) else Holding(q))
  }

  ghost predicate ReadNextStep(s: State, s': State, t: nat, p: nat) {
    p < |s.links| && 0 < |s.links[p]| && s' == Put(s, t, Swinging(p, s.links[p][0]))
  }

  ghost predicate SwingStep(s: State, s': State, t: nat, u: nat, p: nat, next: Option<nat>) {
    && p < |s.status|
    && s' == if s.head != Some(p) then Put(Put(s, t, Dropping(p)), u, Reading(Head))
             else Put(Stage(s.(head := next, fl := if s.fl == [] then [] else s.fl[1..]), p, Popped(t)), t, Clearing(p))
  }

  ghost predicate LoadCountStep(s: State, s': State, t: nat, p: nat)
    requires t in s.tasks
  {
    && p < |s.rc|
    && s' == Put(s, t, if s.tasks[t].Clearing? then ClearSwap(p, s.rc[p]) else DropSwap(p, s.rc[p]))
  }

  ghost predicate ClearStep(s: State, s': State, t: nat, p: nat, seen: int) {
    && p < |s.rc| == |s.status|
    && s' == if s.rc[p] != seen then Put(s, t, Clearing(p))
             else Put(Stage(Count(s, p, seen - 1), p, Blank(t)), t, Zeroing(p, 0))
  }

  ghost predicate ZeroStep(s: State, s': State, t: nat, p: nat, i: nat) {
    && p < |s.status| == |s.links| && |s.links[p]| == s.nlinks
    && s' == if i < s.nlinks then Put(Store(s, Link(p, i), None), t, Zeroing(p, i + 1))
             else Put(Stage(s, p, Live), t, Holding(p))
  }

  ghost predicate DropStep(s: State, s': State, t: nat, p: nat, seen: int) {
    && p < |s.rc| == |s.status|
    && s' == if s.rc[p] != seen then Put(s, t, Dropping(p))
             else if Wins(seen) then Put(Stage(Count(s, p, Lowered(seen)), p, Claimed(t)), t, Sweeping(p, 0))
             else End(Count(s, p, Lowered(seen)), t)
  }

  /** The loop over the links ends at the first empty one. */
  ghost predicate SweepStep(s: State, s': State, t: nat, u: nat, p: nat, i: nat) {
    && p < |s.status| == |s.links| && |s.links[p]| == s.nlinks
    && s' == if i >= s.nlinks || s.links[p][i].None? then Put(Stage(s, p, Swept(t)), t, Pushing(p))
             else Put(Put(Store(s, Link(p, i), None), t, Sweeping(p, i + 1)), u, Dropping(s.links[p][i].value))
  }

  ghost predicate PushLoadStep(s: State, s': State, t: nat, p: nat) {
    && p < |s.links| && 0 < |s.links[p]|
    && s' == Put(Store(s, Link(p, 0), s.head), t, PushSwap(p, s.head))
  }

  ghost predicate PushStep(s: State, s': State, t: nat, p: nat, next: Option<nat>) {
    && p < |s.status|
    && s' == if s.head != next then Put(s, t, Pushing(p))
             else End(Stage(s.(head := Some(p), fl := [p] + s.fl), p, Free), t)
  }

  ghost predicate ShareStep(s: State, s': State, u: nat, p: nat) {
    p < |s.rc| && s' == Put(Count(s, p, s.rc[p] + 2), u, Holding(p))
  }

  /** The client swaps its reference with that of a cell.  It fills the links of a
      node from the front. */
  ghost predicate ExchangeStep(s: State, s': State, t: nat, cell: Cell, via: nat, p: nat) {
    && cell != Head && MayRead(s, cell, via)
    && (cell.Link? && 0 < cell.i ==> s.links[cell.n][cell.i - 1].Some?)
    && match Contents(s, cell)
       case None => s' == End(Store(s, cell, Some(p)), t)
       case Some(e) => s' == Put(Store(s, cell, Some(p)), t, Holding(e))
  }

  /** The client takes the reference out of a cell; it empties the links from the back. */
  ghost predicate TakeOutStep(s: State, s': State, t: nat, cell: Cell, via: nat) {
    && cell != Head && MayRead(s, cell, via)
    && (cell.Link? && cell.i + 1 < |s.links[cell.n]| ==> s.links[cell.n][cell.i + 1].None?)
    && Contents(s, cell).Some?
    && s' == Put(Store(s, cell, None), t, Holding(Contents(s, cell).value))
  }

  // ----- the invariant -----

  /** Twice the references plus the claim bit. */
  ghost predicate Counted(s: State)
    requires |s.rc| == |s.status|
  {
    forall n: nat :: n < |s.rc| ==> s.rc[n] == 2 * |Refs(s, n)| + s.status[n].Bit()
  }

  function First(fl: seq<nat>): Option<nat> { if fl == [] then None else Some(fl[0]) }

  /** The head and the first links of the free nodes chain exactly the nodes of `fl`. */
  ghost predicate Chained(s: State)
    requires Shape(s)
  {
    && s.head == First(s.fl)
    && (forall k: nat :: k < |s.fl| ==> s.fl[k] < |s.links| && s.links[s.fl[k]][0] == First(s.fl[k + 1..]))
    && (forall j: nat, k: nat :: j < k < |s.fl| ==> s.fl[j] != s.fl[k])
    && (forall n: nat :: n < |s.status| ==> (s.status[n].Free? <==> n in s.fl))
  }

  /** What a task at its place in the program may rely on. */
  ghost predicate TaskOk(s: State, t: nat, k: Task)
    requires Shape(s) && TaskShape(s, k)
  {
    match k
    case Popping(p) => s.status[p].Unclaimed()
    case Swinging(p, next) => s.status[p].Unclaimed() && (s.status[p].Free? ==> s.links[p][0] == next)
    case Clearing(p) => s.status[p] == Popped(t)
    case ClearSwap(p, _) => s.status[p] == Popped(t)
    case Zeroing(p, i) => s.status[p] == Blank(t) && forall j: nat :: j < i ==> s.links[p][j].None?
    case Holding(p) => s.status[p].Live?
    case Sweeping(p, i) => s.status[p] == Claimed(t) && forall j: nat :: j < i ==> s.links[p][j].None?
    case Pushing(p) => s.status[p] == Swept(t)
    case PushSwap(p, next) => s.status[p] == Swept(t) && s.links[p][0] == next
    case _ => true
  }

  ghost predicate TasksOk(s: State)
    requires Shape(s)
  {
    forall t :: t in s.tasks ==> TaskOk(s, t, s.tasks[t])
  }

  /** A node that is neither free nor in the client's hands is in those of one task. */
  ghost predicate OwnerOk(s: State, n: nat)
    requires n < |s.status|
  {
    match s.status[n]
    case Popped(t) => t in s.tasks && (s.tasks[t].Clearing? || s.tasks[t].ClearSwap?) && s.tasks[t].p == n
    case Blank(t) => t in s.tasks && s.tasks[t].Zeroing? && s.tasks[t].p == n
    case Claimed(t) => t in s.tasks && s.tasks[t].Sweeping? && s.tasks[t].p == n
    case Swept(t) => t in s.tasks && (s.tasks[t].Pushing? || s.tasks[t].PushSwap?) && s.tasks[t].p == n
    case _ => true
  }

  ghost predicate OwnersOk(s: State) {
    forall n: nat :: n < |s.status| ==> OwnerOk(s, n)
  }

  /** The cells refer to nodes in the client's hands only. */
  ghost predicate CellsLive(s: State)
    requires Shape(s)
  {
    forall cell: Cell :: CellRef(s, cell).Some? ==>
      CellRef(s, cell).value < |s.status| && s.status[CellRef(s, cell).value].Live?
  }

  /** From `i` on, no link that is set comes after an empty one. */
  ghost predicate NoHole(links: seq<Option<nat>>, i: nat) {
    forall j: nat, k: nat :: i <= j < k < |links| && links[j].None? ==> links[k].None?
  }

  ghost predicate NoHoles(s: State) {
    && (forall n: nat :: n < |s.status| && n < |s.links| && s.status[n].Live? ==> NoHole(s.links[n], 0))
    && (forall t :: t in s.tasks && s.tasks[t].Sweeping? && s.tasks[t].p < |s.links| ==>
          NoHole(s.links[s.tasks[t].p], s.tasks[t].i))
  }

  ghost predicate Inv(s: State) {
    Shape(s) && Counted(s) && Chained(s) && TasksOk(s) && OwnersOk(s) && CellsLive(s) && NoHoles(s)
  }

  // ----- every step keeps the invariant -----

  lemma CountsKept(s: State, s': State, a: Holder, b: Holder)
    requires a != b && SameBut(s, s', a, b)
    requires |s.rc| == |s.status| && Counted(s) && |s'.rc| == |s'.status| == |s.rc|
    requires forall n: nat :: n < |s.rc| ==>
               s'.rc[n] - s'.status[n].Bit() == s.rc[n] - s.status[n].Bit()
                 + 2 * (One(RefOf(s', a) == Some(n)) - One(RefOf(s, a) == Some(n))
                        + One(RefOf(s', b) == Some(n)) - One(RefOf(s, b) == Some(n)))
    ensures Counted(s')
  {
    hide Refs, RefOf, SameBut, One;
    forall n: nat | n < |s'.rc| ensures s'.rc[n] == 2 * |Refs(s', n)| + s'.status[n].Bit() {
      RefsChange(s, s', a, b, n);
    }
  }

  /** The tasks that some node names as its owner. */
  function Duty(k: Task): int {
    match k
    case Clearing(_) => 1
    case ClearSwap(_, _) => 1
    case Zeroing(_, _) => 2
    case Sweeping(_, _) => 3
    case Pushing(_) => 4
    case PushSwap(_, _) => 4
    case _ => 0
  }

  predicate SameDuty(k: Task, k': Task) { Duty(k) == Duty(k') && (Duty(k) != 0 ==> k.p == k'.p) }

  ghost predicate TasksBut(s: State, s': State, t: nat, u: nat) {
    forall x :: x != t && x != u ==> (x in s'.tasks <==> x in s.tasks) && (x in s.tasks ==> s'.tasks[x] == s.tasks[x])
  }

  ghost predicate Fits(s: State, t: nat)
    requires Shape(s.(tasks := map[]))
  {
    t in s.tasks ==> TaskShape(s, s.tasks[t]) && TaskOk(s.(tasks := map[]), t, s.tasks[t]) && !s.tasks[t].Sweeping?
  }

  /** The holder that stands for the second changed task, if there is one. */
  function Second(t: nat, u: nat): Holder { if t == u then ByCell(Head) else ByTask(u) }

  /** Every count follows the references of `t` and `u`. */
  ghost predicate CountsFollow(s: State, s': State, t: nat, u: nat)
    requires |s.rc| == |s'.rc|
  {
    forall n: nat :: n < |s.rc| ==>
      s'.rc[n] == s.rc[n] + 2 * (One(RefOf(s', ByTask(t)) == Some(n)) - One(RefOf(s, ByTask(t)) == Some(n))
                                 + One(RefOf(s', Second(t, u)) == Some(n)) - One(RefOf(s, Second(t, u)) == Some(n)))
  }

  /** Only the tasks `t` and `u` and the counts change. */
  lemma TaskChange(s: State, s': State, t: nat, u: nat)
    requires Inv(s) && (t == u || u !in s.tasks)
    requires s' == s.(rc := s'.rc, tasks := s'.tasks) && |s'.rc| == |s.rc| && TasksBut(s, s', t, u)
    requires Shape(s'.(tasks := map[])) && Fits(s', t) && Fits(s', u)
    requires t in s.tasks && Duty(s.tasks[t]) != 0 ==> t in s'.tasks && SameDuty(s.tasks[t], s'.tasks[t])
    requires CountsFollow(s, s', t, u)
    ensures Inv(s')
  {
    TaskChangeShape(s, s', t, u);
    hide Shape, Counted, Chained, TasksOk, OwnersOk, CellsLive, NoHoles, CountsFollow, TasksBut;
    TaskChangeCounts(s, s', t, u);
    TaskChangeOwners(s, s', t, u);
    TaskChangeCells(s, s');
    TaskChangeRest(s, s', t, u);
  }

  lemma TaskChangeRest(s: State, s': State, t: nat, u: nat)
    requires Shape(s) && Chained(s) && TasksOk(s) && NoHoles(s)
    requires s' == s.(rc := s'.rc, tasks := s'.tasks) && |s'.rc| == |s.rc| && TasksBut(s, s', t, u)
    requires Shape(s') && Shape(s'.(tasks := map[])) && Fits(s', t) && Fits(s', u)
    ensures Chained(s') && TasksOk(s') && NoHoles(s')
  {
    hide NoHole;
    forall x | x in s'.tasks ensures TaskOk(s', x, s'.tasks[x]) {
      if x != t && x != u {
        assert TaskOk(s, x, s.tasks[x]);
      }
    }
    hide TasksOk, TaskOk;
    assert Chained(s') by { hide NoHoles; }
  }

  lemma TaskChangeShape(s: State, s': State, t: nat, u: nat)
    requires Inv(s) && s' == s.(rc := s'.rc, tasks := s'.tasks) && |s'.rc| == |s.rc| && TasksBut(s, s', t, u)
    requires Shape(s'.(tasks := map[])) && Fits(s', t) && Fits(s', u)
    ensures Shape(s')
  {
    hide Counted, Chained, OwnersOk, CellsLive, NoHoles, TasksOk, TaskOk;
    forall x | x in s'.tasks ensures TaskShape(s', s'.tasks[x]) {
      if x != t && x != u {
        assert TaskShape(s, s.tasks[x]);
      }
    }
  }

  lemma TaskChangeCounts(s: State, s': State, t: nat, u: nat)
    requires |s.rc| == |s.status| && Counted(s)
    requires s' == s.(rc := s'.rc, tasks := s'.tasks) && |s'.rc| == |s.rc| && TasksBut(s, s', t, u)
    requires CountsFollow(s, s', t, u)
    ensures Counted(s')
  {
    hide Refs, TaskRef;
    assert SameBut(s, s', ByTask(t), Second(t, u)) by { hide Counted; }
    hide Counted, One, RefOf;
    CountsKept(s, s', ByTask(t), Second(t, u));
  }

  lemma TaskChangeOwners(s: State, s': State, t: nat, u: nat)
    requires OwnersOk(s) && (t == u || u !in s.tasks) && TasksBut(s, s', t, u) && s'.status == s.status
    requires t in s.tasks && Duty(s.tasks[t]) != 0 ==> t in s'.tasks && SameDuty(s.tasks[t], s'.tasks[t])
    ensures OwnersOk(s')
  {
    forall n: nat | n < |s'.status| ensures OwnerOk(s', n) {
      assert OwnerOk(s, n);
    }
  }

  lemma TaskChangeCells(s: State, s': State)
    requires Shape(s) && CellsLive(s) && Shape(s') && s' == s.(rc := s'.rc, tasks := s'.tasks)
    ensures CellsLive(s')
  {
    hide Shape;
    forall cell ensures CellRef(s', cell) == CellRef(s, cell) {
    }
  }

  lemma BeginInv(s: State, s': State, t: nat, cell: Cell)
    requires Inv(s) && t !in s.tasks && CellOk(s, cell) && s' == Put(s, t, Reading(cell))
    ensures Inv(s')
  {
    hide Counted, OwnersOk, CellsLive, Chained, NoHoles;
    TaskChange(s, s', t, t);
  }

  lemma LoadInv(s: State, s': State, t: nat, via: nat)
    requires Inv(s) && StepTo(s, s', Load(t, via))
    ensures Inv(s')
  {
    hide Counted, OwnersOk, CellsLive, Chained, NoHoles;
    TaskChange(s, s', t, t);
  }

  lemma BumpInv(s: State, s': State, t: nat)
    requires Inv(s) && StepTo(s, s', Bump(t))
    ensures Inv(s')
  {
    hide Counted, OwnersOk, CellsLive, Chained, NoHoles;
    TaskChange(s, s', t, t);
  }

  lemma CheckInv(s: State, s': State, t: nat, via: nat, u: nat)
    requires Inv(s) && StepTo(s, s', Check(t, via, u))
    ensures Inv(s')
  {
    hide Counted, OwnersOk, CellsLive, Chained, NoHoles, TasksOk;
    var cell, q := s.tasks[t].cell, s.tasks[t].q;
    if Contents(s, cell) == Some(q) {
      CheckedIsLive(s, cell, q, via);
      TaskChange(s, s', t, t);
    } else {
      CheckFails(s, s', t, u, cell, q);
    }
  }

  lemma CheckFails(s: State, s': State, t: nat, u: nat, cell: Cell, q: nat)
    requires Inv(s) && Is(s, t, Checking(cell, q)) && u !in s.tasks
    requires s' == Put(Put(s, t, Dropping(q)), u, Reading(cell))
    ensures Inv(s')
  {
    hide Counted, OwnersOk, CellsLive, Chained, NoHoles, TasksOk;
    TaskChange(s, s', t, u);
  }

  /** What a cell points to is free or alive, according to the cell. */
  lemma CheckedIsLive(s: State, cell: Cell, q: nat, via: nat)
    requires Inv(s) && MayRead(s, cell, via) && Contents(s, cell) == Some(q)
    ensures q < |s.status| && if cell == Head then s.status[q].Free? else s.status[q].Live?
  {
    hide Counted, OwnersOk, NoHoles;
    if cell == Head {
      assert s.fl[0] == q;
    } else {
      assert CellRef(s, cell) == Some(q);
    }
  }

  lemma ReadNextInv(s: State, s': State, t: nat)
    requires Inv(s) && StepTo(s, s', ReadNext(t))
    ensures Inv(s')
  {
    hide Counted, OwnersOk, CellsLive, Chained, NoHoles;
    TaskChange(s, s', t, t);
  }

  lemma LoadCountInv(s: State, s': State, t: nat)
    requires Inv(s) && StepTo(s, s', LoadCount(t))
    ensures Inv(s')
  {
    hide Counted, OwnersOk, CellsLive, Chained, NoHoles;
    TaskChange(s, s', t, t);
  }

  lemma DiscardInv(s: State, s': State, t: nat)
    requires Inv(s) && StepTo(s, s', Discard(t))
    ensures Inv(s')
  {
    hide Counted, OwnersOk, CellsLive, Chained, NoHoles;
    TaskChange(s, s', t, t);
  }

  lemma ShareInv(s: State, s': State, t: nat, u: nat)
    requires Inv(s) && StepTo(s, s', Share(t, u))
    ensures Inv(s')
  {
    hide Counted, OwnersOk, CellsLive, Chained, NoHoles;
    TaskChange(s, s', t, u);
  }

  /** Status and links change at most at `p`. */
  ghost predicate NodesBut(s: State, s': State, p: nat) {
    && |s.links| == |s'.links| && |s.status| == |s'.status| && |s.rc| == |s'.rc| && s.nlinks == s'.nlinks
    && forall n: nat :: n < |s.status| && n < |s.links| && n != p ==>
         s'.status[n] == s.status[n] && s'.links[n] == s.links[n]
  }

  /** The part of the invariant that speaks of single tasks and nodes. */
  ghost predicate Local(s: State) { Shape(s) && TasksOk(s) && OwnersOk(s) }

  /** The node that a task works on. */
  function NodeOf(k: Task): Option<nat> {
    match k
    case Reading(_) => None
    case Bumping(_, _) => None
    case Checking(_, _) => None
    case _ => Some(k.p)
  }

  /** The node `p`, which is in the hands of `t` or of the client, moves on to a
      stage that nobody else at work on it minds. */
  ghost predicate Gentle(s: State, s': State, t: nat, p: nat) {
    p < |s.status| == |s'.status| ==>
      var x, y := s.status[p], s'.status[p];
      && (x.Popped? || x.Blank? || x.Claimed? || x.Swept? ==> x.owner == t)
      && (x.Unclaimed() ==> y.Unclaimed())
      && (x.Live? ==> y.Live?)
      && (y.Free? ==> !x.Unclaimed())
  }

  lemma StageShape(s: State, s': State, t: nat, u: nat)
    requires Shape(s) && Shape(s'.(tasks := map[])) && TasksBut(s, s', t, u)
    requires |s.links| == |s'.links| && |s.rc| == |s'.rc| && s.nlinks == s'.nlinks && |s.roots| == |s'.roots|
    requires forall x :: x in {t, u} && x in s'.tasks ==> TaskShape(s', s'.tasks[x])
    ensures Shape(s')
  {
    forall x | x in s'.tasks ensures TaskShape(s', s'.tasks[x]) {
      if x != t && x != u {
        assert TaskShape(s, s.tasks[x]);
      }
    }
  }

  lemma StageTasks(s: State, s': State, t: nat, u: nat, p: nat)
    requires Shape(s) && Shape(s') && TasksOk(s) && NodesBut(s, s', p) && TasksBut(s, s', t, u)
    requires forall x :: x in {t, u} && x in s'.tasks ==> TaskOk(s', x, s'.tasks[x])
    requires Gentle(s, s', t, p) || forall x :: x in s.tasks && x != t ==> NodeOf(s.tasks[x]) != Some(p)
    ensures TasksOk(s')
  {
    forall x | x in s'.tasks ensures TaskOk(s', x, s'.tasks[x]) {
      if x != t && x != u {
        var k := s.tasks[x];
        assert TaskShape(s, k) && TaskShape(s', s'.tasks[x]) && TaskOk(s, x, k);
      }
    }
  }

  /** The node that `t` worked on is the only one whose owner may change. */
  lemma StageOwners(s: State, s': State, t: nat, u: nat, p: nat)
    requires OwnersOk(s) && (t == u || u !in s.tasks) && TasksBut(s, s', t, u) && NodesBut(s, s', p)
    requires |s.links| == |s.status|
    requires t in s.tasks && Duty(s.tasks[t]) != 0 ==> s.tasks[t].p == p
    requires p < |s'.status| ==> OwnerOk(s', p)
    ensures OwnersOk(s')
  {
    forall n: nat | n < |s'.status| ensures OwnerOk(s', n) {
      if n != p { assert OwnerOk(s, n); }
    }
  }

  /** No cell but `c` is changed, and what cells point to stays alive. */
  lemma StageCells(s: State, s': State, c: Cell, p: nat)
    requires Shape(s) && Shape(s') && CellsLive(s) && |s.rc| == |s'.rc|
    requires forall cell: Cell :: cell != c && CellRef(s', cell).Some? ==> CellRef(s', cell) == CellRef(s, cell)
    requires forall n: nat :: n < |s.status| && n != p && s.status[n].Live? ==> s'.status[n].Live?
    requires p < |s.status| ==> s.status[p].Live? ==> s'.status[p].Live? || forall cell :: CellRef(s, cell) != Some(p)
    requires CellRef(s', c).Some? ==> s'.status[CellRef(s', c).value].Live?
    ensures CellsLive(s')
  {
    forall cell: Cell | CellRef(s', cell).Some?
      ensures CellRef(s', cell).value < |s'.status| && s'.status[CellRef(s', cell).value].Live?
    {
      if cell != c {
        assert CellRef(s, cell).Some?;
      }
    }
  }

  lemma StageNoHoles(s: State, s': State, t: nat, u: nat, p: nat)
    requires Shape(s) && NoHoles(s) && NodesBut(s, s', p) && TasksBut(s, s', t, u)
    requires p < |s'.status| && s'.status[p].Live? ==> NoHole(s'.links[p], 0)
    requires forall x :: x in {t, u} && x in s'.tasks && s'.tasks[x].Sweeping? ==>
               s'.tasks[x].p < |s'.links| ==> NoHole(s'.links[s'.tasks[x].p], s'.tasks[x].i)
    requires forall x :: x in s.tasks && x != t && x != u && s.tasks[x].Sweeping? ==> s.tasks[x].p != p
    ensures NoHoles(s')
  {
  }

  // --- taking the head ---

  lemma SwingTakes(s: State, s': State, t: nat, u: nat, p: nat, next: Option<nat>)
    requires Inv(s) && Is(s, t, Swinging(p, next)) && s.head == Some(p) && SwingStep(s, s', t, u, p, next)
    ensures Inv(s')
  {
    hide Refs, Shape, TasksOk, Counted, OwnersOk, CellsLive, Chained, NoHoles;
    SwingHead(s, t, p, next);
    SwingLocal(s, s', t, p, next);
    SwingCells(s, s', t, p, next);
    SwingCounts(s, s', t, p, next);
    SwingChain(s, s', t, p, next);
  }

  lemma SwingLocal(s: State, s': State, t: nat, p: nat, next: Option<nat>)
    requires Local(s) && NoHoles(s) && Is(s, t, Swinging(p, next)) && p < |s.status| && s.status[p].Free?
    requires s' == Put(Stage(s.(head := next, fl := s'.fl), p, Popped(t)), t, Clearing(p))
    ensures Local(s') && NoHoles(s')
  {
    hide OwnersOk, NoHoles;
    assert TaskShape(s, s.tasks[t]) && TaskOk(s, t, s.tasks[t]);
    StageShape(s, s', t, t);
    StageTasks(s, s', t, t, p);
    StageOwners(s, s', t, t, p);
    StageNoHoles(s, s', t, t, p);
  }

  lemma SwingCells(s: State, s': State, t: nat, p: nat, next: Option<nat>)
    requires Shape(s) && Shape(s') && CellsLive(s) && p < |s.status| && s.status[p].Free?
    requires s' == Put(Stage(s.(head := next, fl := s'.fl), p, Popped(t)), t, Clearing(p))
    ensures CellsLive(s')
  {
    hide CellsLive;
    StageCells(s, s', Head, p);
  }

  /** The heart of the matter: if the head is still `p` when it is swung, then
      the link that was read earlier is the true second node. */
  lemma SwingHead(s: State, t: nat, p: nat, next: Option<nat>)
    requires Inv(s) && Is(s, t, Swinging(p, next)) && s.head == Some(p)
    ensures s.fl != [] && s.fl[0] == p && p < |s.status| == |s.rc| && s.status[p].Free? && next == First(s.fl[1..])
  {
    hide Counted, OwnersOk, CellsLive, NoHoles;
    assert TaskOk(s, t, s.tasks[t]);
  }

  lemma SwingCounts(s: State, s': State, t: nat, p: nat, next: Option<nat>)
    requires |s.rc| == |s.status| && Counted(s) && Is(s, t, Swinging(p, next)) && p < |s.status| && s.status[p].Free?
    requires s' == Put(Stage(s.(head := next, fl := s'.fl), p, Popped(t)), t, Clearing(p))
    ensures Counted(s')
  {
    hide Refs;
    assert SameBut(s, s', ByTask(t), ByCell(Head)) by { hide Counted; }
    hide Counted, SameBut;
    CountsKept(s, s', ByTask(t), ByCell(Head));
  }

  lemma SwingChain(s: State, s': State, t: nat, p: nat, next: Option<nat>)
    requires Shape(s) && Shape(s') && Chained(s) && p < |s.status| && s.fl != [] && s.fl[0] == p && next == First(s.fl[1..])
    requires s' == Put(Stage(s.(head := next, fl := s.fl[1..]), p, Popped(t)), t, Clearing(p))
    ensures Chained(s')
  {
    forall k: nat | k < |s'.fl|
      ensures s'.fl[k] < |s'.links| && s'.links[s'.fl[k]][0] == First(s'.fl[k + 1..])
    {
      assert s'.fl[k] == s.fl[k + 1];
      assert s'.fl[k + 1..] == s.fl[(k + 1) + 1..];
    }
    forall n: nat | n < |s'.status| ensures s'.status[n].Free? <==> n in s'.fl {
      assert n in s.fl <==> n == p || n in s'.fl;
    }
  }

  lemma ChainKept(s: State, s': State, p: nat)
    requires Shape(s) && Shape(s') && Chained(s) && NodesBut(s, s', p) && s'.head == s.head && s'.fl == s.fl
    requires p < |s.status| ==> !s.status[p].Free? && !s'.status[p].Free?
    ensures Chained(s')
  {
  }

  // --- clearing the claim bit and the links of a new node ---

  lemma ClearInv(s: State, s': State, t: nat)
    requires Inv(s) && StepTo(s, s', ClearCas(t))
    ensures Inv(s')
  {
    hide Refs, Counted, OwnersOk, CellsLive, Chained, NoHoles;
    var p, seen := s.tasks[t].p, s.tasks[t].seen;
    assert TaskOk(s, t, s.tasks[t]);
    if s.rc[p] != seen {
      TaskChange(s, s', t, t);
    } else {
      ClearTakes(s, s', t, p, seen);
    }
  }

  lemma ClearTakes(s: State, s': State, t: nat, p: nat, seen: int)
    requires Inv(s) && Is(s, t, ClearSwap(p, seen)) && p < |s.rc| && s.rc[p] == seen && s.status[p] == Popped(t)
    requires s' == Put(Stage(Count(s, p, seen - 1), p, Blank(t)), t, Zeroing(p, 0))
    ensures Inv(s')
  {
    hide Refs, Counted, OwnersOk, CellsLive, Chained, NoHoles, TasksOk;
    ClearLocal(s, s', t, p, seen);
    StageCells(s, s', Head, p);
    ClearCounts(s, s', t, p, seen);
    ChainKept(s, s', p);
  }

  lemma ClearLocal(s: State, s': State, t: nat, p: nat, seen: int)
    requires Local(s) && NoHoles(s) && Is(s, t, ClearSwap(p, seen)) && p < |s.rc| && s.status[p] == Popped(t)
    requires s' == Put(Stage(Count(s, p, seen - 1), p, Blank(t)), t, Zeroing(p, 0))
    ensures Local(s') && NoHoles(s')
  {
    hide OwnersOk, NoHoles;
    StageShape(s, s', t, t);
    StageTasks(s, s', t, t, p);
    StageOwners(s, s', t, t, p);
    StageNoHoles(s, s', t, t, p);
  }

  lemma ClearCounts(s: State, s': State, t: nat, p: nat, seen: int)
    requires |s.rc| == |s.status| && Counted(s) && Is(s, t, ClearSwap(p, seen)) && p < |s.status| && s.status[p].Popped?
    requires s.rc[p] == seen && s' == Put(Stage(Count(s, p, seen - 1), p, Blank(t)), t, Zeroing(p, 0))
    ensures Counted(s')
  {
    hide Refs;
    assert SameBut(s, s', ByTask(t), ByCell(Head)) by { hide Counted; }
    hide Counted, SameBut;
    CountsKept(s, s', ByTask(t), ByCell(Head));
  }

  lemma ZeroInv(s: State, s': State, t: nat)
    requires Inv(s) && StepTo(s, s', Zero(t))
    ensures Inv(s')
  {
    hide Refs, Counted, OwnersOk, CellsLive, Chained, NoHoles;
    var p, i := s.tasks[t].p, s.tasks[t].i;
    assert TaskShape(s, s.tasks[t]) && TaskOk(s, t, s.tasks[t]);
    ZeroLocal(s, s', t, p, i);
    hide TasksOk;
    ZeroCells(s, s', t, p, i);
    ZeroCounts(s, s', t, p, i);
    ChainKept(s, s', p);
  }

  lemma ZeroLocal(s: State, s': State, t: nat, p: nat, i: nat)
    requires Local(s) && NoHoles(s) && Is(s, t, Zeroing(p, i)) && ZeroStep(s, s', t, p, i)
    ensures Local(s') && NoHoles(s')
  {
    assert TaskShape(s, s.tasks[t]) && TaskOk(s, t, s.tasks[t]);
    ZeroShape(s, s', t, p, i);
    hide Shape, OwnersOk, NoHoles;
    ZeroTasks(s, s', t, p, i);
    hide TasksOk;
    StageOwners(s, s', t, t, p);
    ZeroNoHoles(s, s', t, p, i);
  }

  lemma ZeroShape(s: State, s': State, t: nat, p: nat, i: nat)
    requires Shape(s) && Is(s, t, Zeroing(p, i)) && ZeroStep(s, s', t, p, i) && i <= s.nlinks
    ensures Shape(s') && |s.links| == |s.status| && NodesBut(s, s', p)
  {
    StageShape(s, s', t, t);
  }

  lemma ZeroTasks(s: State, s': State, t: nat, p: nat, i: nat)
    requires Shape(s) && Shape(s') && TasksOk(s) && Is(s, t, Zeroing(p, i)) && ZeroStep(s, s', t, p, i)
    requires s.status[p] == Blank(t) && i <= s.nlinks && forall j: nat :: j < i ==> s.links[p][j].None?
    ensures TasksOk(s')
  {
    StageTasks(s, s', t, t, p);
  }

  lemma ZeroNoHoles(s: State, s': State, t: nat, p: nat, i: nat)
    requires Shape(s) && TasksOk(s) && NoHoles(s) && Is(s, t, Zeroing(p, i)) && ZeroStep(s, s', t, p, i)
    requires s.status[p] == Blank(t) && i <= s.nlinks && forall j: nat :: j < i ==> s.links[p][j].None?
    ensures NoHoles(s')
  {
    StageNoHoles(s, s', t, t, p);
  }

  lemma ZeroCells(s: State, s': State, t: nat, p: nat, i: nat)
    requires Shape(s) && Shape(s') && CellsLive(s) && p < |s.status| && s.status[p].Blank? && i <= s.nlinks
    requires ZeroStep(s, s', t, p, i) && forall j: nat :: j < i ==> s.links[p][j].None?
    ensures CellsLive(s')
  {
    hide CellsLive;
    StageCells(s, s', Head, p);
  }

  lemma ZeroCounts(s: State, s': State, t: nat, p: nat, i: nat)
    requires |s.rc| == |s.status| && Counted(s) && Is(s, t, Zeroing(p, i)) && p < |s.status| && s.status[p].Blank?
    requires ZeroStep(s, s', t, p, i) && i <= s.nlinks && forall j: nat :: j < i ==> s.links[p][j].None?
    ensures Counted(s')
  {
    hide Refs;
    assert SameBut(s, s', ByTask(t), ByCell(Head)) by { hide Counted; }
    hide Counted, SameBut;
    CountsKept(s, s', ByTask(t), ByCell(Head));
  }

  // --- giving up a reference ---

  /** A count of two seen by a holder means that it is the last one, of a node in the client's hands. */
  lemma LastReference(s: State, t: nat, p: nat, seen: int)
    requires Inv(s) && Is(s, t, DropSwap(p, seen)) && s.rc[p] == seen
    ensures Wins(seen) <==> s.status[p].Live? && Refs(s, p) == {ByTask(t)}
    ensures Wins(seen) <==> seen == 2
  {
    hide Chained, CellsLive, NoHoles, Holders;
    RefsAre(s, p, ByTask(t));
    assert TaskShape(s, s.tasks[t]);
    assert s.rc[p] == 2 * |Refs(s, p)| + s.status[p].Bit();
    Single(Refs(s, p), ByTask(t));
    assert OwnerOk(s, p);
    if s.status[p].Blank? {
      RefsAre(s, p, ByTask(s.status[p].owner));
    }
  }

  lemma Single<T>(s: set<T>, x: T)
    requires x in s
    ensures |s| == 1 <==> s == {x}
  {
    if |s| == 1 {
      assert |s - {x}| == 0;
      assert s == {x} + (s - {x});
    }
  }

  lemma DropInv(s: State, s': State, t: nat)
    requires Inv(s) && StepTo(s, s', DropCas(t))
    ensures Inv(s')
  {
    hide Refs, Counted, OwnersOk, CellsLive, Chained, NoHoles;
    var p, seen := s.tasks[t].p, s.tasks[t].seen;
    if s.rc[p] != seen || !Wins(seen) {
      TaskChange(s, s', t, t);
    } else {
      LastReference(s, t, p, seen);
      DropWins(s, s', t, p, seen);
    }
  }

  lemma DropWins(s: State, s': State, t: nat, p: nat, seen: int)
    requires Inv(s) && Is(s, t, DropSwap(p, seen)) && p < |s.rc| && s.rc[p] == seen == 2
    requires s.status[p].Live? && Refs(s, p) == {ByTask(t)}
    requires s' == Put(Stage(Count(s, p, Lowered(seen)), p, Claimed(t)), t, Sweeping(p, 0))
    ensures Inv(s')
  {
    hide Refs, Counted, OwnersOk, CellsLive, Chained, NoHoles;
    forall h | h != ByTask(t) ensures RefOf(s, h) != Some(p) { RefsAre(s, p, h); }
    assert forall cell :: CellRef(s, cell) == RefOf(s, ByCell(cell));
    StageShape(s, s', t, t);
    OnlyTask(s, t, p);
    StageTasks(s, s', t, t, p);
    StageOwners(s, s', t, t, p);
    StageCells(s, s', Head, p);
    DropNoHoles(s, s', t, p);
    DropCounts(s, s', t, p);
    ChainKept(s, s', p);
  }

  lemma OnlyTask(s: State, t: nat, p: nat)
    requires Inv(s) && p < |s.status| && s.status[p].Live?
    requires forall h :: h != ByTask(t) ==> RefOf(s, h) != Some(p)
    ensures forall x :: x in s.tasks && x != t ==> NodeOf(s.tasks[x]) != Some(p)
  {
    hide Counted, OwnersOk, CellsLive, Chained, NoHoles;
    forall x | x in s.tasks && x != t ensures NodeOf(s.tasks[x]) != Some(p) {
      assert TaskShape(s, s.tasks[x]) && TaskOk(s, x, s.tasks[x]);
      assert RefOf(s, ByTask(x)) != Some(p);
    }
  }

  lemma DropNoHoles(s: State, s': State, t: nat, p: nat)
    requires Shape(s) && NoHoles(s) && p < |s.status| && s.status[p].Live?
    requires s' == Put(Stage(Count(s, p, 1), p, Claimed(t)), t, Sweeping(p, 0))
    ensures NoHoles(s')
  {
  }

  lemma DropCounts(s: State, s': State, t: nat, p: nat)
    requires |s.rc| == |s.status| && Counted(s) && p < |s.status| && s.status[p].Live? && s.rc[p] == 2
    requires t in s.tasks && TaskRef(s.tasks[t]) == Some(p)
    requires s' == Put(Stage(Count(s, p, 1), p, Claimed(t)), t, Sweeping(p, 0))
    ensures Counted(s')
  {
    hide Refs;
    assert SameBut(s, s', ByTask(t), ByCell(Head)) by { hide Counted; }
    hide Counted, SameBut;
    CountsKept(s, s', ByTask(t), ByCell(Head));
  }

  // --- releasing the links of a claimed node ---

  lemma SweepInv(s: State, s': State, t: nat, u: nat)
    requires Inv(s) && StepTo(s, s', Sweep(t, u))
    ensures Inv(s')
  {
    hide Refs, Counted, OwnersOk, CellsLive, Chained, NoHoles;
    var p, i := s.tasks[t].p, s.tasks[t].i;
    assert TaskShape(s, s.tasks[t]) && TaskOk(s, t, s.tasks[t]);
    hide TasksOk;
    SweepShape(s, s', t, u, p, i);
    SweepTasks(s, s', t, u, p, i);
    SweepOwners(s, s', t, u, p, i);
    SweepNoHoles(s, s', t, u, p, i);
    SweepTail(s, t, p, i);
    SweepCells(s, s', t, u, p, i);
    SweepCounts(s, s', t, u, p, i);
    ChainKept(s, s', p);
  }

  /** If the loop ends early, there is nothing left to release. */
  lemma SweepTail(s: State, t: nat, p: nat, i: nat)
    requires Shape(s) && NoHoles(s) && Is(s, t, Sweeping(p, i)) && p < |s.links|
    ensures i < s.nlinks && s.links[p][i].None? ==> forall j: nat :: i <= j < s.nlinks ==> s.links[p][j].None?
  {
    assert NoHole(s.links[p], i);
  }

  lemma SweepShape(s: State, s': State, t: nat, u: nat, p: nat, i: nat)
    requires Shape(s) && Is(s, t, Sweeping(p, i)) && u !in s.tasks && SweepStep(s, s', t, u, p, i) && i <= s.nlinks
    ensures Shape(s') && |s.links| == |s.status| && NodesBut(s, s', p)
  {
    StageShape(s, s', t, u);
  }

  lemma SweepTasks(s: State, s': State, t: nat, u: nat, p: nat, i: nat)
    requires Shape(s) && Shape(s') && TasksOk(s) && Is(s, t, Sweeping(p, i)) && u !in s.tasks
    requires SweepStep(s, s', t, u, p, i)
    requires s.status[p] == Claimed(t) && i <= s.nlinks && forall j: nat :: j < i ==> s.links[p][j].None?
    requires NodesBut(s, s', p)
    ensures TasksOk(s')
  {
    SweepOwn(s, s', t, u, p, i);
    hide Shape, TasksOk, TaskOk, NodesBut;
    StageTasks(s, s', t, u, p);
  }

  lemma SweepOwn(s: State, s': State, t: nat, u: nat, p: nat, i: nat)
    requires Shape(s) && Shape(s') && Is(s, t, Sweeping(p, i)) && u !in s.tasks && SweepStep(s, s', t, u, p, i)
    requires s.status[p] == Claimed(t) && i <= s.nlinks && forall j: nat :: j < i ==> s.links[p][j].None?
    ensures forall x :: x in {t, u} && x in s'.tasks ==> TaskOk(s', x, s'.tasks[x])
    ensures Gentle(s, s', t, p) && TasksBut(s, s', t, u)
  {
  }

  lemma SweepOwners(s: State, s': State, t: nat, u: nat, p: nat, i: nat)
    requires OwnersOk(s) && Is(s, t, Sweeping(p, i)) && u !in s.tasks && SweepStep(s, s', t, u, p, i)
    requires p < |s.status| == |s.links| && s.status[p] == Claimed(t) && NodesBut(s, s', p)
    ensures OwnersOk(s')
  {
    StageOwners(s, s', t, u, p);
  }

  lemma SweepNoHoles(s: State, s': State, t: nat, u: nat, p: nat, i: nat)
    requires Shape(s) && TasksOk(s) && NoHoles(s) && Is(s, t, Sweeping(p, i)) && u !in s.tasks
    requires SweepStep(s, s', t, u, p, i) && s.status[p] == Claimed(t) && i <= s.nlinks
    ensures NoHoles(s')
  {
    forall x | x in s.tasks && x != t && s.tasks[x].Sweeping? ensures s.tasks[x].p != p {
      assert TaskOk(s, x, s.tasks[x]);
    }
    hide Shape, TasksOk;
    assert NoHole(s.links[p], i);
    StageNoHoles(s, s', t, u, p);
  }

  lemma SweepCells(s: State, s': State, t: nat, u: nat, p: nat, i: nat)
    requires Shape(s) && Shape(s') && CellsLive(s) && p < |s.status| && s.status[p] == Claimed(t) && i <= s.nlinks
    requires u !in s.tasks && SweepStep(s, s', t, u, p, i)
    ensures CellsLive(s')
  {
    hide CellsLive;
    StageCells(s, s', Head, p);
  }

  lemma SweepCounts(s: State, s': State, t: nat, u: nat, p: nat, i: nat)
    requires |s.rc| == |s.status| && Counted(s) && Is(s, t, Sweeping(p, i)) && u !in s.tasks
    requires SweepStep(s, s', t, u, p, i)
    requires s.status[p] == Claimed(t) && i <= s.nlinks && forall j: nat :: j < i ==> s.links[p][j].None?
    requires i < s.nlinks && s.links[p][i].None? ==> forall j: nat :: i <= j < s.nlinks ==> s.links[p][j].None?
    ensures Counted(s')
  {
    hide Refs;
    assert SameBut(s, s', ByTask(u), ByCell(Link(p, i))) by { hide Counted; }
    hide Counted, SameBut;
    CountsKept(s, s', ByTask(u), ByCell(Link(p, i)));
  }

  // --- putting a node back ---

  lemma PushLoadInv(s: State, s': State, t: nat)
    requires Inv(s) && StepTo(s, s', PushLoad(t))
    ensures Inv(s')
  {
    hide Refs, Counted, OwnersOk, CellsLive, Chained, NoHoles;
    var p := s.tasks[t].p;
    assert TaskShape(s, s.tasks[t]) && TaskOk(s, t, s.tasks[t]);
    StageShape(s, s', t, t);
    PushLoadTasks(s, s', t, p);
    PushLoadNoHoles(s, s', t, p);
    hide TasksOk;
    StageOwners(s, s', t, t, p);
    PushLoadCells(s, s', t, p);
    PushLoadCounts(s, s', t, p);
    ChainKept(s, s', p);
  }

  lemma PushLoadTasks(s: State, s': State, t: nat, p: nat)
    requires Shape(s) && Shape(s') && TasksOk(s) && Is(s, t, Pushing(p)) && PushLoadStep(s, s', t, p)
    requires s.status[p] == Swept(t)
    ensures TasksOk(s')
  {
    StageTasks(s, s', t, t, p);
  }

  lemma PushLoadNoHoles(s: State, s': State, t: nat, p: nat)
    requires Shape(s) && TasksOk(s) && NoHoles(s) && Is(s, t, Pushing(p)) && PushLoadStep(s, s', t, p)
    requires s.status[p] == Swept(t)
    ensures NoHoles(s')
  {
    forall x | x in s.tasks && x != t && s.tasks[x].Sweeping? ensures s.tasks[x].p != p {
      assert TaskOk(s, x, s.tasks[x]);
    }
    hide TasksOk;
    StageNoHoles(s, s', t, t, p);
  }

  lemma PushLoadCells(s: State, s': State, t: nat, p: nat)
    requires Shape(s) && Shape(s') && CellsLive(s) && p < |s.status| && s.status[p] == Swept(t) && PushLoadStep(s, s', t, p)
    ensures CellsLive(s')
  {
    hide CellsLive;
    StageCells(s, s', Head, p);
  }

  lemma PushLoadCounts(s: State, s': State, t: nat, p: nat)
    requires |s.rc| == |s.status| && Counted(s) && Is(s, t, Pushing(p)) && PushLoadStep(s, s', t, p)
    requires p < |s.status| && s.status[p] == Swept(t)
    ensures Counted(s')
  {
    hide Refs;
    assert SameBut(s, s', ByTask(t), ByCell(Head)) by { hide Counted; }
    hide Counted, SameBut;
    CountsKept(s, s', ByTask(t), ByCell(Head));
  }

  lemma PushInv(s: State, s': State, t: nat)
    requires Inv(s) && StepTo(s, s', PushCas(t))
    ensures Inv(s')
  {
    hide Refs, Counted, OwnersOk, CellsLive, Chained, NoHoles;
    var p, next := s.tasks[t].p, s.tasks[t].next;
    assert TaskShape(s, s.tasks[t]) && TaskOk(s, t, s.tasks[t]);
    if s.head != next {
      TaskChange(s, s', t, t);
    } else {
      PushSucceeds(s, s', t, p);
    }
  }

  lemma PushSucceeds(s: State, s': State, t: nat, p: nat)
    requires Inv(s) && Is(s, t, PushSwap(p, s.head)) && p < |s.status| && s.status[p] == Swept(t) && s.links[p][0] == s.head
    requires s' == End(Stage(s.(head := Some(p), fl := [p] + s.fl), p, Free), t)
    ensures Inv(s')
  {
    hide Refs, Counted, OwnersOk, CellsLive, Chained, NoHoles;
    StageShape(s, s', t, t);
    PushTasks(s, s', t, p);
    StageNoHoles(s, s', t, t, p);
    hide TasksOk;
    StageOwners(s, s', t, t, p);
    PushCells(s, s', t, p);
    PushCounts(s, s', t, p);
    PushChain(s, s', t, p);
  }

  lemma PushTasks(s: State, s': State, t: nat, p: nat)
    requires Shape(s) && Shape(s') && TasksOk(s) && p < |s.status| && s.status[p] == Swept(t)
    requires s' == End(Stage(s.(head := Some(p), fl := s'.fl), p, Free), t)
    ensures TasksOk(s')
  {
    StageTasks(s, s', t, t, p);
  }

  lemma PushCells(s: State, s': State, t: nat, p: nat)
    requires Shape(s) && Shape(s') && CellsLive(s) && p < |s.status| && s.status[p] == Swept(t)
    requires s' == End(Stage(s.(head := Some(p), fl := s'.fl), p, Free), t)
    ensures CellsLive(s')
  {
    hide CellsLive;
    StageCells(s, s', Head, p);
  }

  lemma PushCounts(s: State, s': State, t: nat, p: nat)
    requires |s.rc| == |s.status| && Counted(s) && p < |s.status| && s.status[p] == Swept(t)
    requires t in s.tasks && TaskRef(s.tasks[t]).None?
    requires s' == End(Stage(s.(head := Some(p), fl := s'.fl), p, Free), t)
    ensures Counted(s')
  {
    hide Refs;
    assert SameBut(s, s', ByTask(t), ByCell(Head)) by { hide Counted; }
    hide Counted, SameBut;
    CountsKept(s, s', ByTask(t), ByCell(Head));
  }

  lemma PushChain(s: State, s': State, t: nat, p: nat)
    requires Shape(s) && Shape(s') && Chained(s) && p < |s.status| && s.status[p] == Swept(t) && s.links[p][0] == s.head
    requires s' == End(Stage(s.(head := Some(p), fl := [p] + s.fl), p, Free), t)
    ensures Chained(s')
  {
    forall k: nat | k < |s'.fl|
      ensures s'.fl[k] < |s'.links| && s'.links[s'.fl[k]][0] == First(s'.fl[k + 1..])
    {
      if k == 0 {
        assert s'.fl[1..] == s.fl;
      } else {
        assert s'.fl[k] == s.fl[k - 1] && s'.fl[k + 1..] == s.fl[(k - 1) + 1..];
      }
    }
    forall n: nat | n < |s'.status| ensures s'.status[n].Free? <==> n in s'.fl {
      assert n in s'.fl <==> n == p || n in s.fl;
    }
  }

  // --- the client's cells ---

  /** Both client steps store `v` into a cell and hand what it held to task `t`. */
  ghost predicate CellStep(s: State, s': State, t: nat, cell: Cell, via: nat, v: Option<nat>) {
    && cell != Head && MayRead(s, cell, via)
    && (cell.Link? && 0 < cell.i && v.Some? ==> s.links[cell.n][cell.i - 1].Some?)
    && (cell.Link? && cell.i + 1 < |s.links[cell.n]| && v.None? ==> s.links[cell.n][cell.i + 1].None?)
    && (v.Some? ==> Is(s, t, Holding(v.value)))
    && (v.None? ==> t !in s.tasks)
    && match Contents(s, cell)
       case None => s' == End(Store(s, cell, v), t)
       case Some(e) => s' == Put(Store(s, cell, v), t, Holding(e))
  }

  lemma CellInv(s: State, s': State, t: nat, cell: Cell, via: nat, v: Option<nat>)
    requires Inv(s) && CellStep(s, s', t, cell, via, v)
    ensures Inv(s')
  {
    hide Refs, Counted, OwnersOk, CellsLive, Chained, NoHoles, TasksOk;
    var m := if cell.Link? then cell.n else 0;
    HeldAreLive(s, t, cell, via, v);
    CellShape(s, s', t, cell, via, v, m);
    CellTasks(s, s', t, cell, via, v, m);
    hide Shape;
    CellNoHoles(s, s', t, cell, via, v, m);
    TaskChangeOwners(s, s', t, t);
    CellCells(s, s', t, cell, via, v);
    CellCounts(s, s', t, cell, via, v);
    CellChain(s, s', t, cell, via, v, m);
  }

  lemma HeldAreLive(s: State, t: nat, cell: Cell, via: nat, v: Option<nat>)
    requires Inv(s) && cell != Head && MayRead(s, cell, via) && (v.Some? ==> Is(s, t, Holding(v.value)))
    ensures cell.Link? ==> cell.n < |s.status| && s.status[cell.n].Live?
    ensures v.Some? ==> v.value < |s.rc| && s.status[v.value].Live?
    ensures Contents(s, cell) == CellRef(s, cell)
    ensures Contents(s, cell).Some? ==> Contents(s, cell).value < |s.rc| && s.status[Contents(s, cell).value].Live?
    ensures |s.rc| == |s.links| == |s.status|
  {
    hide Counted, OwnersOk, Chained, NoHoles;
    if cell.Link? { assert TaskOk(s, via, s.tasks[via]); }
    if v.Some? { assert TaskShape(s, s.tasks[t]) && TaskOk(s, t, s.tasks[t]); }
    assert CellRef(s, cell) == Contents(s, cell);
  }

  lemma CellShape(s: State, s': State, t: nat, cell: Cell, via: nat, v: Option<nat>, m: nat)
    requires Shape(s) && CellStep(s, s', t, cell, via, v) && m == if cell.Link? then cell.n else 0
    requires v.Some? ==> v.value < |s.rc|
    requires Contents(s, cell).Some? ==> Contents(s, cell).value < |s.rc|
    ensures Shape(s') && |s.links| == |s.status| && NodesBut(s, s', m) && TasksBut(s, s', t, t)
  {
    StageShape(s, s', t, t);
  }

  lemma CellTasks(s: State, s': State, t: nat, cell: Cell, via: nat, v: Option<nat>, m: nat)
    requires Shape(s) && Shape(s') && TasksOk(s) && CellStep(s, s', t, cell, via, v)
    requires m == (if cell.Link? then cell.n else 0) && NodesBut(s, s', m)
    requires cell.Link? ==> cell.n < |s.status| && s.status[cell.n].Live?
    requires Contents(s, cell).Some? ==> Contents(s, cell).value < |s.rc| && s.status[Contents(s, cell).value].Live?
    ensures TasksOk(s')
  {
    if cell.Link? {
      StageTasks(s, s', t, t, m);
    } else {
      forall x | x in s'.tasks ensures TaskOk(s', x, s'.tasks[x]) {
        if x != t { assert TaskOk(s, x, s.tasks[x]); }
      }
    }
  }

  lemma CellNoHoles(s: State, s': State, t: nat, cell: Cell, via: nat, v: Option<nat>, m: nat)
    requires Shape(s) && TasksOk(s) && NoHoles(s) && CellStep(s, s', t, cell, via, v)
    requires m == (if cell.Link? then cell.n else 0) && NodesBut(s, s', m) && TasksBut(s, s', t, t)
    requires cell.Link? ==> cell.n < |s.status| && s.status[cell.n].Live?
    ensures NoHoles(s')
  {
    if cell.Link? {
      forall x | x in s.tasks && x != t && s.tasks[x].Sweeping? ensures s.tasks[x].p != m {
        assert TaskOk(s, x, s.tasks[x]);
      }
      hide TasksOk, NoHole;
      assert NoHole(s.links[m], 0);
      NoHoleStore(s.links[m], cell.i, v);
      StageNoHoles(s, s', t, t, m);
    }
  }

  lemma NoHoleStore(links: seq<Option<nat>>, i: nat, v: Option<nat>)
    requires NoHole(links, 0) && i < |links|
    requires v.Some? && 0 < i ==> links[i - 1].Some?
    requires v.None? && i + 1 < |links| ==> links[i + 1].None?
    ensures NoHole(links[i := v], 0)
  {
  }

  lemma CellCells(s: State, s': State, t: nat, cell: Cell, via: nat, v: Option<nat>)
    requires Shape(s) && Shape(s') && CellsLive(s) && CellStep(s, s', t, cell, via, v)
    requires v.Some? ==> v.value < |s.rc| && s.status[v.value].Live?
    ensures CellsLive(s')
  {
    hide CellsLive;
    StageCells(s, s', cell, |s.status|);
  }

  lemma CellCounts(s: State, s': State, t: nat, cell: Cell, via: nat, v: Option<nat>)
    requires |s.rc| == |s.status| && Counted(s) && CellStep(s, s', t, cell, via, v)
    requires Contents(s, cell) == CellRef(s, cell)
    requires cell.Link? ==> cell.n < |s.status| && s.status[cell.n].Live?
    ensures Counted(s')
  {
    hide Refs;
    assert SameBut(s, s', ByTask(t), ByCell(cell)) by { hide Counted; }
    hide Counted, SameBut;
    CountsKept(s, s', ByTask(t), ByCell(cell));
  }

  lemma CellChain(s: State, s': State, t: nat, cell: Cell, via: nat, v: Option<nat>, m: nat)
    requires Shape(s) && Shape(s') && Chained(s) && CellStep(s, s', t, cell, via, v)
    requires m == (if cell.Link? then cell.n else 0) && NodesBut(s, s', m)
    requires cell.Link? ==> cell.n < |s.status| && s.status[cell.n].Live?
    ensures Chained(s')
  {
    if cell.Link? {
      ChainKept(s, s', m);
    } else {
      ChainKept(s, s', |s.status|);
    }
  }

  // --- all steps ---

  lemma SwingInv(s: State, s': State, t: nat, u: nat)
    requires Inv(s) && StepTo(s, s', Swing(t, u))
    ensures Inv(s')
  {
    hide Counted, OwnersOk, CellsLive, Chained, NoHoles;
    var p, next := s.tasks[t].p, s.tasks[t].next;
    if s.head == Some(p) {
      SwingTakes(s, s', t, u, p, next);
    } else {
      TaskChange(s, s', t, u);
    }
  }

  /** Every step of every task keeps the invariant. */
  lemma StepInv(s: State, s': State, step: Step)
    requires Inv(s) && StepTo(s, s', step)
    ensures Inv(s')
  {
    hide Shape, Counted, OwnersOk, CellsLive, Chained, NoHoles, TasksOk;
    match step
    case BeginNew(t) => BeginInv(s, s', t, Head);
    case BeginRead(t, cell) => BeginInv(s, s', t, cell);
    case Load(t, via) => LoadInv(s, s', t, via);
    case Bump(t) => BumpInv(s, s', t);
    case Check(t, via, u) => CheckInv(s, s', t, via, u);
    case ReadNext(t) => ReadNextInv(s, s', t);
    case Swing(t, u) => SwingInv(s, s', t, u);
    case LoadCount(t) => LoadCountInv(s, s', t);
    case ClearCas(t) => ClearInv(s, s', t);
    case Zero(t) => ZeroInv(s, s', t);
    case DropCas(t) => DropInv(s, s', t);
    case Sweep(t, u) => SweepInv(s, s', t, u);
    case PushLoad(t) => PushLoadInv(s, s', t);
    case PushCas(t) => PushInv(s, s', t);
    case Share(t, u) => ShareInv(s, s', t, u);
    case Discard(t) => DiscardInv(s, s', t);
    case Exchange(t, cell, via) => CellInv(s, s', t, cell, via, Some(s.tasks[t].p));
    case TakeOut(t, cell, via) => CellInv(s, s', t, cell, via, None);
  }
}
