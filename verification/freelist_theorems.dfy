/** What holds over every run of the lock-free free list. */
module FreeListTheorems {
  import opened PriorityQueues
  import opened FreeLists

  /** All nodes are on the free list, nothing refers to any of them, no task runs. */
  ghost predicate Initial(s: State) {
    && Shape(s) && Chained(s)
    && s.tasks == map[]
    && (forall r: nat :: r < |s.roots| ==> s.roots[r].None?)
    && (forall n: nat :: n < |s.status| ==> s.status[n].Free? && s.rc[n] == 1)
  }

  lemma InitialInv(s: State)
    requires Initial(s)
    ensures Inv(s) && NonZero(s)
  {
    forall n: nat | n < |s.rc| ensures Refs(s, n) == {} {
      forall h ensures h !in Refs(s, n) { RefsAre(s, n, h); }
    }
    hide Refs;
  }

  datatype Creation = Created(list: State) | Invalid | OutOfMemory

  /** Frees the nodes from the head on, and the list itself. */
  method Dispose(s: State, live: nat) returns (left: nat)
    requires Initial(s) && |s.fl| < live
    ensures left == live - |s.fl| - 1
  {
    var head := s.head;
    left := live;
    ghost var k: nat := 0;
    while head.Some?
      invariant k <= |s.fl| && head == First(s.fl[k..]) && left == live - k
      decreases |s.fl| - k
    {
      head := s.links[head.value][0];
      left := left - 1;
      k := k + 1;
    }
    left := left - 1;
  }

  /** Builds the free list: each new node is put in front. An element starts with a header of
      `nodesize` bytes. `memory` is the number of allocations before the first that fails. `live`
      counts the allocations that are not freed, two for a node and one for the list; on failure
      the nodes are freed, but not their arrays of links. */
  method Create(nbrelm: nat, nlinks: nat, elmsize: nat, nodesize: nat, roots: nat, memory: nat)
    returns (r: Creation, live: nat)
    ensures r == Invalid <==> nbrelm == 0 || elmsize < nodesize
    ensures r.Created? <==> 0 < nbrelm && nodesize <= elmsize && 2 * nbrelm < memory
    ensures r.Created? ==> Initial(r.list) && |r.list.rc| == nbrelm && |r.list.roots| == roots
    ensures r.Created? ==> r.list.nlinks == if nlinks == 0 then 1 else nlinks
    ensures live == if r.Created? then 2 * nbrelm + 1 else if r.Invalid? || memory == 0 then 0 else (memory - 1) / 2
  {
    live := 0;
    if nbrelm == 0 || elmsize < nodesize {
      return Invalid, live;
    }
    var width := if nlinks == 0 then 1 else nlinks;
    if live == memory {
      return OutOfMemory, live;
    }
    live := live + 1;
    var s := State([], [], None, seq(roots, _ => None), map[], [], [], width);
    for i := 0 to nbrelm
      invariant Initial(s) && |s.rc| == |s.fl| == i && |s.roots| == roots && s.nlinks == width
      invariant live == 2 * i + 1 <= memory
    {
      if memory < live + 2 {  // no node, or a node that is freed at once for want of its links
        live := Dispose(s, live);
        return OutOfMemory, live;
      }
      live := live + 2;
      var links := seq(width, _ => None)[0 := s.head];
      ghost var was := s;
      s := s.(rc := s.rc + [1], links := s.links + [links], status := s.status + [Free], head := Some(i), fl := [i] + s.fl);
      ChainGrows(was, s, i, links);
    }
    return Created(s), live;
  }

  lemma ChainGrows(s: State, s': State, i: nat, links: seq<Option<nat>>)
    requires Shape(s) && Chained(s) && |s.rc| == i && |links| == s.nlinks && links[0] == s.head && s.tasks == map[]
    requires forall n: nat :: n < |s.status| ==> s.status[n].Free?
    requires forall j: nat :: 0 < j < |links| ==> links[j].None?
    requires s' == s.(rc := s.rc + [1], links := s.links + [links], status := s.status + [Free], head := Some(i), fl := [i] + s.fl)
    ensures Shape(s') && Chained(s')
  {
    forall n: nat | n < |s'.links| ensures |s'.links[n]| == s'.nlinks {
    }
    forall k: nat | k < |s'.fl|
      ensures s'.fl[k] < |s'.links| && s'.links[s'.fl[k]][0] == First(s'.fl[k + 1..])
    {
      if k == 0 {
        assert s'.fl[1..] == s.fl;
      } else {
        assert s'.fl[k] == s.fl[k - 1] && s'.fl[k + 1..] == s.fl[(k - 1) + 1..];
      }
    }
    forall n: nat | n < |s'.status| ensures s'.status[n].Free? <==> n in s'.fl {
      assert n in s'.fl <==> n == i || n in s.fl;
    }
  }

  ghost predicate CanStep(s: State, s': State) {
    Shape(s) && exists step :: StepTo(s, s', step)
  }

  ghost function TheStep(s: State, s': State): (step: Step)
    requires CanStep(s, s')
    ensures StepTo(s, s', step)
  {
    var step :| StepTo(s, s', step); step
  }

  /** A run: any interleaving of the tasks' steps. */
  ghost predicate IsRun(tr: seq<State>) {
    && tr != []
    && Initial(tr[0])
    && forall i: nat :: i + 1 < |tr| ==> CanStep(tr[i], tr[i + 1])
  }

  lemma {:induction false} RunKeepsInv(tr: seq<State>, i: nat)
    requires IsRun(tr) && i < |tr|
    ensures Inv(tr[i]) && NonZero(tr[i]) && |tr[i].status| == |tr[i].rc|
  {
    hide Inv, NonZero, Initial;
    if i == 0 {
      InitialInv(tr[0]);
    } else {
      RunKeepsInv(tr, i - 1);
      assert CanStep(tr[i - 1], tr[(i - 1) + 1]);
      var step := TheStep(tr[i - 1], tr[i]);
      StepInv(tr[i - 1], tr[i], step);
      NonZeroStep(tr[i - 1], tr[i], step);
    }
    InvSizes(tr[i]);
  }

  lemma InvSizes(s: State)
    requires Inv(s)
    ensures |s.rc| == |s.status| == |s.links|
  {
  }

  lemma RunSteps(tr: seq<State>, i: nat)
    requires IsRun(tr) && i + 1 < |tr|
    ensures CanStep(tr[i], tr[i + 1]) && Inv(tr[i]) && Inv(tr[i + 1])
  {
    RunKeepsInv(tr, i);
    RunKeepsInv(tr, i + 1);
  }

  // ----- counting -----

  /** A count is never zero, so a node in use has a reference. */
  ghost predicate NonZero(s: State) {
    forall n: nat :: n < |s.rc| ==> s.rc[n] != 0
  }

  lemma NonZeroStep(s: State, s': State, step: Step)
    requires Inv(s) && NonZero(s) && StepTo(s, s', step)
    ensures NonZero(s')
  {
    hide Refs, OwnersOk, CellsLive, Chained, NoHoles;
    if step.Bump? || step.Share? {
      var q := if step.Bump? then s.tasks[step.t].q else s.tasks[step.t].p;
      assert s.rc[q] == 2 * |Refs(s, q)| + s.status[q].Bit();
    } else if step.ClearCas? {
      var p := s.tasks[step.t].p;
      assert TaskOk(s, step.t, s.tasks[step.t]);
      assert s.rc[p] == 2 * |Refs(s, p)| + s.status[p].Bit();
      RefsAre(s, p, ByTask(step.t));
      assert ByTask(step.t) in Refs(s, p);
    }
  }

  /** Accounting: in every reachable state a node's count is twice the number of
      references to it, counted wherever they are, plus its claim bit. */
  lemma Accounting(tr: seq<State>, i: nat, n: nat)
    requires IsRun(tr) && i < |tr| && n < |tr[i].rc|
    ensures n < |tr[i].status| && tr[i].rc[n] == 2 * |Refs(tr[i], n)| + tr[i].status[n].Bit()
    ensures forall h :: h in Refs(tr[i], n) <==> RefOf(tr[i], h) == Some(n)
  {
    RunKeepsInv(tr, i);
    forall h ensures h in Refs(tr[i], n) <==> RefOf(tr[i], h) == Some(n) { RefsAre(tr[i], n, h); }
    hide Refs;
  }

  /** The release whose swap finds the count as it saw it claims the node if and
      only if the node is in the client's hands and this was its only reference. */
  lemma LastReleaserWins(tr: seq<State>, i: nat, t: nat, p: nat)
    requires IsRun(tr) && i < |tr| && p < |tr[i].rc| && Is(tr[i], t, DropSwap(p, tr[i].rc[p]))
    ensures p < |tr[i].status| && (Wins(tr[i].rc[p]) <==> tr[i].status[p].Live? && Refs(tr[i], p) == {ByTask(t)})
  {
    RunKeepsInv(tr, i);
    LastReference(tr[i], t, p, tr[i].rc[p]);
  }

  // ----- the life of a node -----

  function StageNo(x: Status): nat {
    match x
    case Free => 0
    case Popped(_) => 1
    case Blank(_) => 2
    case Live => 3
    case Claimed(_) => 4
    case Swept(_) => 5
  }

  /** Every step leaves a node in its stage or moves it to the next one round the cycle. */
  lemma LifeCycle(s: State, s': State, step: Step, p: nat)
    requires Inv(s) && StepTo(s, s', step) && p < |s.status|
    ensures p < |s'.status|
    ensures s'.status[p] == s.status[p] || StageNo(s'.status[p]) == (StageNo(s.status[p]) + 1) % 6
    ensures s.status[p].Live? && s'.status[p].Claimed? ==>
              step.DropCas? && s.tasks[step.t].p == p && Wins(s.tasks[step.t].seen) && s.rc[p] == s.tasks[step.t].seen
    ensures step.DropCas? && s.tasks[step.t].p == p && Wins(s.tasks[step.t].seen) && s.rc[p] == s.tasks[step.t].seen ==>
              s.status[p].Live? && s'.status[p].Claimed?
  {
    hide Counted, OwnersOk, CellsLive, NoHoles, Refs, Shape, TasksOk, Chained, CellOk, TaskShape;
    InvSizes(s);
    match step
    case Swing(t, u) =>
      if s.head == Some(s.tasks[t].p) {
        SwingHead(s, t, s.tasks[t].p, s.tasks[t].next);
      }
    case DropCas(t) =>
      if s.rc[s.tasks[t].p] == s.tasks[t].seen {
        LastReference(s, t, s.tasks[t].p, s.tasks[t].seen);
      }
    case ClearCas(t) => TaskFacts(s, t);
    case Zero(t) => TaskFacts(s, t);
    case Sweep(t, u) => TaskFacts(s, t);
    case PushCas(t) => TaskFacts(s, t);
    case _ =>
  }

  lemma TaskFacts(s: State, t: nat)
    requires Inv(s) && t in s.tasks
    ensures TaskShape(s, s.tasks[t]) && TaskOk(s, t, s.tasks[t])
  {
    hide Counted, OwnersOk, CellsLive, NoHoles, Chained;
  }

  /** The step from `i` claims `p`. */
  ghost predicate Claims(tr: seq<State>, i: nat, p: nat) {
    && i + 1 < |tr| && p < |tr[i].status| && p < |tr[i + 1].status|
    && tr[i].status[p].Live? && tr[i + 1].status[p].Claimed?
  }

  /** The step from `i` takes `p` off the free list. */
  ghost predicate Pops(tr: seq<State>, i: nat, p: nat) {
    && i + 1 < |tr| && p < |tr[i].status| && p < |tr[i + 1].status|
    && tr[i].status[p].Free? && tr[i + 1].status[p].Popped?
  }

  /** A node that is not yet taken at `i` and is in use at `j` was taken in between. */
  lemma {:induction false} TakenBetween(tr: seq<State>, i: nat, j: nat, p: nat)
    requires IsRun(tr) && i <= j < |tr| && p < |tr[i].status|
    requires tr[i].status[p].Claimed? || tr[i].status[p].Swept? || tr[i].status[p].Free?
    ensures p < |tr[j].status|
    ensures tr[j].status[p].Popped? || tr[j].status[p].Blank? || tr[j].status[p].Live? ==>
              exists k: nat :: i <= k < j && Pops(tr, k, p)
  {
    hide Inv, CanStep, Initial;
    if i < j {
      TakenBetween(tr, i, j - 1, p);
      RunSteps(tr, j - 1);
      LifeCycle(tr[j - 1], tr[j], TheStep(tr[j - 1], tr[j]), p);
      if tr[j - 1].status[p].Free? && tr[j].status[p].Popped? {
        assert Pops(tr, j - 1, p);
      }
    }
  }

  /** One winner per lifetime: between two claims of a node it was taken off the
      free list again. */
  lemma OneWinnerPerLife(tr: seq<State>, i: nat, j: nat, p: nat)
    requires IsRun(tr) && i < j && Claims(tr, i, p) && Claims(tr, j, p)
    ensures exists k: nat :: i < k < j && Pops(tr, k, p)
  {
    hide IsRun;
    TakenBetween(tr, i + 1, j, p);
    var k: nat :| i + 1 <= k < j && Pops(tr, k, p);
  }

  // ----- taking a node off the list -----

  /** Task `t` has seen `p` at the head after counting it, and has not let it go. */
  ghost predicate Validated(s: State, t: nat, p: nat) {
    t in s.tasks && (s.tasks[t].Popping? || s.tasks[t].Swinging?) && s.tasks[t].p == p
  }

  /** No ABA: a node that was taken while a reader had it validated is not put back
      before that reader lets go of it. */
  lemma {:induction false} NotPutBack(tr: seq<State>, i: nat, j: nat, t: nat, p: nat)
    requires IsRun(tr) && i <= j < |tr| && p < |tr[i].status| && !tr[i].status[p].Free?
    requires forall k: nat :: i <= k <= j ==> Validated(tr[k], t, p)
    ensures p < |tr[j].status| && !tr[j].status[p].Free?
  {
    hide Inv, CanStep, Initial;
    if i < j {
      NotPutBack(tr, i, j - 1, t, p);
      RunSteps(tr, j - 1);
      LifeCycle(tr[j - 1], tr[j], TheStep(tr[j - 1], tr[j]), p);
      ValidatedIsUnclaimed(tr[j - 1], t, p);
    }
  }

  lemma ValidatedIsUnclaimed(s: State, t: nat, p: nat)
    requires Inv(s) && Validated(s, t, p)
    ensures p < |s.status| && s.status[p].Unclaimed()
  {
    hide Counted, OwnersOk, CellsLive, NoHoles, Chained;
    assert TaskShape(s, s.tasks[t]) && TaskOk(s, t, s.tasks[t]);
  }

  /** A swap of the head that succeeds installs the node that follows the first
      one, whatever happened since its link was read. */
  lemma PopInstallsTrueNext(tr: seq<State>, i: nat, t: nat, u: nat, p: nat, next: Option<nat>)
    requires IsRun(tr) && i + 1 < |tr| && Is(tr[i], t, Swinging(p, next)) && u !in tr[i].tasks
    requires tr[i].head == Some(p) && SwingStep(tr[i], tr[i + 1], t, u, p, next)
    ensures tr[i].fl != [] && tr[i].fl[0] == p && next == First(tr[i].fl[1..])
    ensures tr[i + 1].fl == tr[i].fl[1..] && tr[i + 1].head == First(tr[i + 1].fl)
  {
    RunKeepsInv(tr, i);
    SwingHead(tr[i], t, p, next);
  }

  /** The list never holds a node twice, and holds exactly the free ones. */
  lemma FreeNodesDistinct(tr: seq<State>, i: nat, j: nat, k: nat)
    requires IsRun(tr) && i < |tr| && j < k < |tr[i].fl|
    ensures tr[i].fl[j] != tr[i].fl[k] && tr[i].fl[j] < |tr[i].status| && tr[i].status[tr[i].fl[j]].Free?
  {
    RunKeepsInv(tr, i);
    hide Counted, OwnersOk, CellsLive, NoHoles, TasksOk, NonZero;
    var s := tr[i];
    assert s.fl[j] in s.fl;
  }

  // ----- nothing dangles and nothing is lost -----

  /** Whoever holds a node, and whatever cell points to it, it is in the client's hands. */
  lemma NoDanglingReference(tr: seq<State>, i: nat, n: nat)
    requires IsRun(tr) && i < |tr| && n < |tr[i].status|
    requires (exists t :: Is(tr[i], t, Holding(n))) || (exists cell :: CellRef(tr[i], cell) == Some(n))
    ensures tr[i].status[n].Live? && n !in tr[i].fl
  {
    RunKeepsInv(tr, i);
    var s := tr[i];
    hide Counted, OwnersOk, NoHoles, NonZero;
    if t :| Is(s, t, Holding(n)) {
      assert TaskOk(s, t, s.tasks[t]);
    }
  }

  /** Nothing is lost: every node is on the free list, or on its way between the
      list and the client in the hands of one task, or referred to. */
  lemma NothingLost(tr: seq<State>, i: nat, n: nat)
    requires IsRun(tr) && i < |tr| && n < |tr[i].status|
    ensures match tr[i].status[n]
            case Free => n in tr[i].fl
            case Live => Refs(tr[i], n) != {}
            case x => x.owner in tr[i].tasks && NodeOf(tr[i].tasks[x.owner]) == Some(n) && Duty(tr[i].tasks[x.owner]) != 0
  {
    RunKeepsInv(tr, i);
    var s := tr[i];
    hide Refs, CellsLive, NoHoles, TasksOk;
    assert OwnerOk(s, n);
    assert s.rc[n] == 2 * |Refs(s, n)| + s.status[n].Bit();
  }

  /** A node that `new` returns has no links and nobody else's pointer leads to it. */
  lemma NewNodeIsPrivate(s: State, s': State, t: nat, p: nat)
    requires Inv(s) && Is(s, t, Zeroing(p, s.nlinks)) && StepTo(s, s', Zero(t))
    ensures Is(s', t, Holding(p)) && p < |s'.links| && forall j: nat :: j < |s'.links[p]| ==> s'.links[p][j].None?
    ensures forall cell :: CellRef(s', cell) != Some(p)
    ensures forall x :: x != t ==> !Is(s', x, Holding(p))
  {
    hide Counted, OwnersOk, Chained, NoHoles;
    assert TaskShape(s, s.tasks[t]) && TaskOk(s, t, s.tasks[t]);
    forall cell ensures CellRef(s', cell) != Some(p) {
      assert CellRef(s, cell) != Some(p);
    }
    forall x | x != t ensures !Is(s', x, Holding(p)) {
      if Is(s, x, Holding(p)) { TaskFacts(s, x); }
    }
  }

  // ----- the cascade of releases -----

  /** A claimed node does not point to itself, and what it points to is still in use. */
  lemma SweptLinkIsAlive(s: State, t: nat, p: nat, i: nat)
    requires Inv(s) && Is(s, t, Sweeping(p, i)) && p < |s.links| && i < |s.links[p]| && s.links[p][i].Some?
    ensures s.links[p][i].value != p && s.links[p][i].value < |s.status| && s.status[s.links[p][i].value].Live?
  {
    hide Counted, OwnersOk, Chained, NoHoles;
    assert TaskOk(s, t, s.tasks[t]);
    assert CellRef(s, Link(p, i)) == s.links[p][i];
  }

  /** What the loop over the links of a claimed node leaves of them. */
  function Remains(links: seq<Option<nat>>, i: nat): (r: seq<Option<nat>>)
    ensures |r| == |links|
    decreases |links| - i
  {
    if i >= |links| || links[i].None? then links else Remains(links[i := None], i + 1)
  }

  ghost predicate AllEmpty(links: seq<Option<nat>>, from: nat) {
    forall j: nat :: from <= j < |links| ==> links[j].None?
  }

  /** The loop stops at the first empty link: it releases all links if and only if
      no link that is set comes after an empty one. */
  lemma {:induction false} SweepReleasesAll(links: seq<Option<nat>>, i: nat)
    requires i <= |links| && forall j: nat :: j < i ==> links[j].None?
    ensures AllEmpty(Remains(links, i), 0) <==> NoHole(links, i)
    decreases |links| - i
  {
    if i < |links| && links[i].Some? {
      SweepReleasesAll(links[i := None], i + 1);
      HoleBehind(links, i);
    }
  }

  /** Behind an empty first link a reference stays in a node that goes back to the list. */
  lemma HoleLeavesReference()
    ensures var links := [None, Some(1)]; Remains(links, 0) == links && !AllEmpty(Remains(links, 0), 0)
  {
    var links: seq<Option<nat>> := [None, Some(1)];
    assert Remains(links, 0)[1].Some?;
  }

  lemma HoleBehind(links: seq<Option<nat>>, i: nat)
    requires i < |links| && links[i].Some?
    ensures NoHole(links, i) <==> NoHole(links[i := None], i + 1)
  {
    var l := links[i := None];
    if NoHole(l, i + 1) {
      forall j: nat, k: nat | i <= j < k < |links| && links[j].None? ensures links[k].None? {
        assert l[j].None? && l[k] == links[k];
      }
    }
    if NoHole(links, i) {
      forall j: nat, k: nat | i + 1 <= j < k < |l| && l[j].None? ensures l[k].None? {
        assert links[j].None? && l[k] == links[k];
      }
    }
  }
}
