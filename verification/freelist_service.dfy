/** What an operation on the free list brings about when nothing interrupts it, whatever other tasks are in the middle of. */
module FreeListService {
  import opened PriorityQueues
  import opened FreeLists
  import FreeListTheorems

  /** The tasks of `own` alone get from `s` to `z` in `k` steps. */
  ghost predicate Reaches(s: State, z: State, own: set<nat>, k: nat)
    decreases k
  {
    if k == 0 then z == s
    else exists m, e: Step :: Shape(s) && e.t in own && StepTo(s, m, e) && Reaches(m, z, own, k - 1)
  }

  lemma Stepped(s: State, m: State, z: State, own: set<nat>, e: Step, k: nat)
    requires Shape(s) && e.t in own && StepTo(s, m, e) && Reaches(m, z, own, k)
    ensures Reaches(s, z, own, k + 1)
  {
    hide StepTo, Shape;
  }

  lemma Nowhere(s: State, own: set<nat>)
    ensures Reaches(s, s, own, 0)
  {
  }

  lemma {:induction false} Joined(s: State, y: State, z: State, own: set<nat>, i: nat, j: nat)
    requires Reaches(s, y, own, i) && Reaches(y, z, own, j)
    ensures Reaches(s, z, own, i + j)
    decreases i
  {
    hide StepTo, Shape;
    if i > 0 {
      var m, e: Step :| Shape(s) && e.t in own && StepTo(s, m, e) && Reaches(m, y, own, i - 1);
      Joined(m, y, z, own, i - 1, j);
      Stepped(s, m, z, own, e, i - 1 + j);
    }
  }

  lemma {:induction false} Wider(s: State, z: State, own: set<nat>, more: set<nat>, k: nat)
    requires Reaches(s, z, own, k) && own <= more
    ensures Reaches(s, z, more, k)
    decreases k
  {
    hide StepTo, Shape;
    if k > 0 {
      var m, e: Step :| Shape(s) && e.t in own && StepTo(s, m, e) && Reaches(m, z, own, k - 1);
      Wider(m, z, own, more, k - 1);
      Stepped(s, m, z, more, e, k - 1);
    }
  }

  /** A name that no task has. */
  lemma Fresh(tasks: map<nat, Task>) returns (u: nat)
    ensures u !in tasks
  {
    u := Above(tasks.Keys);
  }

  lemma Above(names: set<nat>) returns (u: nat)
    ensures forall x :: x in names ==> x < u
  {
    u := 0;
    var rest := names;
    while rest != {}
      invariant rest <= names && forall x :: x in names && x !in rest ==> x < u
    {
      var x: nat :| x in rest;
      u := if x < u then u else x + 1;
      rest := rest - {x};
    }
  }

  lemma InvShape(s: State)
    requires Inv(s)
    ensures Shape(s) && |s.rc| == |s.links| == |s.status| && 0 < s.nlinks
    ensures forall n: nat :: n < |s.links| ==> |s.links[n]| == s.nlinks
  {
  }

  lemma TaskIs(s: State, t: nat)
    requires Inv(s) && t in s.tasks
    ensures Shape(s) && TaskShape(s, s.tasks[t]) && TaskOk(s, t, s.tasks[t])
  {
    hide Counted, OwnersOk, CellsLive, NoHoles, Chained;
  }

  // ----- reading a cell -----

  lemma Begins(s: State, t: nat, cell: Cell) returns (m: State, e: Step)
    requires Inv(s) && t !in s.tasks && CellOk(s, cell)
    ensures e.t == t && Shape(s) && StepTo(s, m, e) && Inv(m) && m == s.(tasks := s.tasks[t := Reading(cell)])
  {
    m := s.(tasks := s.tasks[t := Reading(cell)]);
    e := if cell == Head then BeginNew(t) else BeginRead(t, cell);
    InvShape(s);
    StepInv(s, m, e);
  }

  lemma Loads(s: State, t: nat, cell: Cell, via: nat, q: nat) returns (m: State)
    requires Inv(s) && t in s.tasks && s.tasks[t] == Reading(cell) && MayRead(s, cell, via) && Contents(s, cell) == Some(q)
    ensures Shape(s) && StepTo(s, m, Load(t, via)) && Inv(m) && m == s.(tasks := s.tasks[t := Bumping(cell, q)])
  {
    m := s.(tasks := s.tasks[t := Bumping(cell, q)]);
    InvShape(s);
    StepInv(s, m, Load(t, via));
  }

  lemma LoadsNothing(s: State, t: nat, cell: Cell, via: nat) returns (m: State)
    requires Inv(s) && t in s.tasks && s.tasks[t] == Reading(cell) && MayRead(s, cell, via) && Contents(s, cell) == None
    ensures Shape(s) && StepTo(s, m, Load(t, via)) && Inv(m) && m == s.(tasks := s.tasks - {t})
  {
    m := s.(tasks := s.tasks - {t});
    InvShape(s);
    StepInv(s, m, Load(t, via));
  }

  lemma Bumps(s: State, t: nat, cell: Cell, q: nat) returns (m: State)
    requires Inv(s) && t in s.tasks && s.tasks[t] == Bumping(cell, q)
    ensures Shape(s) && StepTo(s, m, Bump(t)) && Inv(m) && q < |s.rc|
    ensures m == s.(rc := s.rc[q := s.rc[q] + 2], tasks := s.tasks[t := Checking(cell, q)])
  {
    TaskIs(s, t);
    m := s.(rc := s.rc[q := s.rc[q] + 2], tasks := s.tasks[t := Checking(cell, q)]);
    StepInv(s, m, Bump(t));
  }

  lemma Checks(s: State, t: nat, cell: Cell, via: nat, q: nat) returns (m: State, e: Step)
    requires Inv(s) && t in s.tasks && s.tasks[t] == Checking(cell, q) && MayRead(s, cell, via) && Contents(s, cell) == Some(q)
    ensures e.t == t && Shape(s) && StepTo(s, m, e) && Inv(m)
    ensures m == s.(tasks := s.tasks[t := if cell == Head then Popping(q) else Holding(q)])
  {
    var u := Fresh(s.tasks);
    m := s.(tasks := s.tasks[t := if cell == Head then Popping(q) else Holding(q)]);
    e := Check(t, via, u);
    InvShape(s);
    StepInv(s, m, e);
  }

  /** The pointer in the cell is counted and validated. */
  lemma Validates(s: State, t: nat, cell: Cell, via: nat, q: nat) returns (z: State)
    requires Inv(s) && t !in s.tasks && MayRead(s, cell, via) && Contents(s, cell) == Some(q)
    ensures Reaches(s, z, {t}, 4) && Inv(z) && q < |s.rc|
    ensures z == s.(rc := s.rc[q := s.rc[q] + 2], tasks := s.tasks[t := if cell == Head then Popping(q) else Holding(q)])
  {
    hide Inv, Shape, StepTo, Reaches;
    var a, e := Begins(s, t, cell);
    SameCell(s, a, cell, via);
    var b := Loads(a, t, cell, via, q);
    var d := Bumps(b, t, cell, q);
    SameCell(s, d, cell, via);
    var f;
    z, f := Checks(d, t, cell, via, q);
    Nowhere(z, {t});
    Stepped(d, z, z, {t}, f, 0);
    Stepped(b, d, z, {t}, Bump(t), 1);
    Stepped(a, b, z, {t}, Load(t, via), 2);
    Stepped(s, a, z, {t}, e, 3);
    assert z.tasks == s.tasks[t := if cell == Head then Popping(q) else Holding(q)];
  }

  /** Counting leaves the cells as they are, and the client's hold on a node. */
  lemma SameCell(s: State, a: State, cell: Cell, via: nat)
    requires MayRead(s, cell, via) && a.links == s.links && a.roots == s.roots && a.head == s.head
    requires cell.Link? ==> via in a.tasks && a.tasks[via] == s.tasks[via]
    ensures MayRead(a, cell, via) && Contents(a, cell) == Contents(s, cell)
  {
  }

  /** A safe read of a cell that points to a node comes back with that node, counted once more. */
  lemma ReadsPointer(s: State, t: nat, cell: Cell, via: nat, q: nat) returns (z: State)
    requires Inv(s) && t !in s.tasks && cell != Head && MayRead(s, cell, via) && Contents(s, cell) == Some(q)
    ensures Reaches(s, z, {t}, 4) && Inv(z) && q < |s.rc|
    ensures z == s.(rc := s.rc[q := s.rc[q] + 2], tasks := s.tasks[t := Holding(q)])
  {
    hide Inv, Shape, StepTo, Reaches;
    z := Validates(s, t, cell, via, q);
  }

  /** A safe read of an empty cell, or an allocation from an empty list, comes back with nothing and has changed nothing. */
  lemma ReadsNothing(s: State, t: nat, cell: Cell, via: nat)
    requires Inv(s) && t !in s.tasks && MayRead(s, cell, via) && Contents(s, cell) == None
    ensures Reaches(s, s, {t}, 2)
  {
    hide Inv, Shape, StepTo, Reaches;
    var a, e := Begins(s, t, cell);
    SameCell(s, a, cell, via);
    var z := LoadsNothing(a, t, cell, via);
    assert s.tasks[t := Reading(cell)] - {t} == s.tasks;
    Nowhere(z, {t});
    Stepped(a, z, z, {t}, Load(t, via), 0);
    Stepped(s, a, z, {t}, e, 1);
  }

  // ----- allocating -----

  lemma FirstIs(s: State)
    requires Inv(s) && s.fl != []
    ensures Shape(s) && s.head == Some(s.fl[0]) && s.fl[0] < |s.rc| == |s.links| == |s.status|
    ensures s.links[s.fl[0]][0] == (if |s.fl| > 1 then Some(s.fl[1]) else None)
  {
    hide Counted, OwnersOk, CellsLive, NoHoles, TasksOk;
    assert s.fl[0 + 1..] == s.fl[1..];
  }

  lemma HeadIs(s: State)
    ensures MayRead(s, Head, 0) && Contents(s, Head) == s.head
  {
  }

  lemma ZeroingIs(s: State, t: nat)
    requires Inv(s) && t in s.tasks && s.tasks[t].Zeroing?
    ensures s.tasks[t].p < |s.links| && s.tasks[t].i <= s.nlinks
  {
    TaskIs(s, t);
  }

  lemma ReadsNext(s: State, t: nat, p: nat) returns (m: State)
    requires Inv(s) && t in s.tasks && s.tasks[t] == Popping(p)
    ensures Shape(s) && StepTo(s, m, ReadNext(t)) && Inv(m) && p < |s.links| && 0 < |s.links[p]|
    ensures m == s.(tasks := s.tasks[t := Swinging(p, s.links[p][0])])
  {
    TaskIs(s, t);
    m := s.(tasks := s.tasks[t := Swinging(p, s.links[p][0])]);
    StepInv(s, m, ReadNext(t));
  }

  lemma Swings(s: State, t: nat, p: nat, next: Option<nat>) returns (m: State, e: Step)
    requires Inv(s) && t in s.tasks && s.tasks[t] == Swinging(p, next) && s.fl != [] && s.fl[0] == p
    ensures e.t == t && Shape(s) && StepTo(s, m, e) && Inv(m) && p < |s.status|
    ensures m == s.(head := next, fl := s.fl[1..], status := s.status[p := Popped(t)], tasks := s.tasks[t := Clearing(p)])
  {
    FirstIs(s);
    var u := Fresh(s.tasks);
    e := Swing(t, u);
    m := s.(head := next, fl := s.fl[1..], status := s.status[p := Popped(t)], tasks := s.tasks[t := Clearing(p)]);
    StepInv(s, m, e);
  }

  lemma LoadsCount(s: State, t: nat, p: nat) returns (m: State)
    requires Inv(s) && t in s.tasks && (s.tasks[t] == Clearing(p) || s.tasks[t] == Dropping(p))
    ensures Shape(s) && StepTo(s, m, LoadCount(t)) && Inv(m) && p < |s.rc|
    ensures m == s.(tasks := s.tasks[t := if s.tasks[t].Clearing? then ClearSwap(p, s.rc[p]) else DropSwap(p, s.rc[p])])
  {
    TaskIs(s, t);
    m := s.(tasks := s.tasks[t := if s.tasks[t].Clearing? then ClearSwap(p, s.rc[p]) else DropSwap(p, s.rc[p])]);
    StepInv(s, m, LoadCount(t));
  }

  lemma Clears(s: State, t: nat, p: nat, seen: int) returns (m: State)
    requires Inv(s) && t in s.tasks && s.tasks[t] == ClearSwap(p, seen) && p < |s.rc| && s.rc[p] == seen
    ensures Shape(s) && StepTo(s, m, ClearCas(t)) && Inv(m) && p < |s.status|
    ensures m == s.(rc := s.rc[p := seen - 1], status := s.status[p := Blank(t)], tasks := s.tasks[t := Zeroing(p, 0)])
  {
    TaskIs(s, t);
    m := s.(rc := s.rc[p := seen - 1], status := s.status[p := Blank(t)], tasks := s.tasks[t := Zeroing(p, 0)]);
    StepInv(s, m, ClearCas(t));
  }

  function Emptied(links: seq<Option<nat>>, i: nat): (r: seq<Option<nat>>)
    requires i <= |links|
    ensures |r| == |links| && forall j: nat :: j < |links| ==> r[j] == if j < i then links[j] else None
  {
    links[..i] + seq(|links| - i, _ => None)
  }

  lemma ZerosOne(s: State, t: nat, p: nat, i: nat) returns (m: State)
    requires Inv(s) && t in s.tasks && s.tasks[t] == Zeroing(p, i) && p < |s.links|
    ensures Shape(s) && StepTo(s, m, Zero(t)) && Inv(m) && i <= s.nlinks == |s.links[p]| && p < |s.status|
    ensures m == if i < s.nlinks then s.(links := s.links[p := s.links[p][i := None]], tasks := s.tasks[t := Zeroing(p, i + 1)])
                 else s.(status := s.status[p := Live], tasks := s.tasks[t := Holding(p)])
  {
    TaskIs(s, t);
    m := if i < s.nlinks then s.(links := s.links[p := s.links[p][i := None]], tasks := s.tasks[t := Zeroing(p, i + 1)])
         else s.(status := s.status[p := Live], tasks := s.tasks[t := Holding(p)]);
    StepInv(s, m, Zero(t));
  }

  lemma {:induction false} Zeros(s: State, t: nat, p: nat, i: nat) returns (z: State, k: nat)
    requires Inv(s) && t in s.tasks && s.tasks[t] == Zeroing(p, i) && p < |s.links| == |s.status| && i <= s.nlinks == |s.links[p]|
    ensures Reaches(s, z, {t}, k) && Inv(z)
    ensures z == s.(links := s.links[p := Emptied(s.links[p], i)], status := s.status[p := Live], tasks := s.tasks[t := Holding(p)])
    decreases s.nlinks - i
  {
    hide *;
    var m := ZerosOne(s, t, p, i);
    if i < s.nlinks {
      z, k := Zeros(m, t, p, i + 1);
      assert Emptied(s.links[p][i := None], i + 1) == Emptied(s.links[p], i);
      assert z.links == s.links[p := Emptied(s.links[p], i)];
      assert z.tasks == s.tasks[t := Holding(p)];
    } else {
      z, k := m, 0;
      assert Emptied(s.links[p], i) == s.links[p];
      assert s.links[p := s.links[p]] == s.links;
      Nowhere(z, {t});
    }
    Stepped(s, m, z, {t}, Zero(t), k);
    k := k + 1;
  }

  /** A task that has validated the first node takes it off the list. */
  lemma TakesOff(s: State, t: nat, p: nat) returns (z: State)
    requires Inv(s) && t in s.tasks && s.tasks[t] == Popping(p) && s.fl != [] && s.fl[0] == p
    ensures Reaches(s, z, {t}, 2) && Inv(z) && p < |s.status|
    ensures z == s.(head := if |s.fl| > 1 then Some(s.fl[1]) else None, fl := s.fl[1..],
                    status := s.status[p := Popped(t)], tasks := s.tasks[t := Clearing(p)])
  {
    hide *;
    FirstIs(s);
    var a := ReadsNext(s, t, p);
    var e;
    z, e := Swings(a, t, p, a.tasks[t].next);
    Nowhere(z, {t});
    Stepped(a, z, z, {t}, e, 0);
    Stepped(s, a, z, {t}, ReadNext(t), 1);
    assert z.tasks == s.tasks[t := Clearing(p)];
  }

  /** The claim bit of a node that was taken is cleared. */
  lemma Unclaims(s: State, t: nat, p: nat) returns (z: State)
    requires Inv(s) && t in s.tasks && s.tasks[t] == Clearing(p)
    ensures Reaches(s, z, {t}, 2) && Inv(z) && p < |s.rc| == |s.status|
    ensures z == s.(rc := s.rc[p := s.rc[p] - 1], status := s.status[p := Blank(t)], tasks := s.tasks[t := Zeroing(p, 0)])
  {
    hide *;
    InvShape(s);
    var a := LoadsCount(s, t, p);
    z := Clears(a, t, p, s.rc[p]);
    Nowhere(z, {t});
    Stepped(a, z, z, {t}, ClearCas(t), 0);
    Stepped(s, a, z, {t}, LoadCount(t), 1);
    assert z.tasks == s.tasks[t := Zeroing(p, 0)];
  }

  /** Allocating takes the first node of the list, whatever it was left with, and hands it out with one reference
      and empty links; nothing else changes. */
  lemma AllocatesFirst(s: State, t: nat) returns (z: State, k: nat)
    requires Inv(s) && t !in s.tasks && s.fl != []
    ensures Reaches(s, z, {t}, k) && Inv(z) && s.fl[0] < |s.rc| == |s.status| == |s.links| == |z.links|
    ensures var p := s.fl[0];
            && z.tasks == s.tasks[t := Holding(p)] && z.roots == s.roots && z.nlinks == s.nlinks
            && z.fl == s.fl[1..] && z.head == (if |s.fl| > 1 then Some(s.fl[1]) else None)
            && z.status == s.status[p := Live] && z.rc == s.rc[p := s.rc[p] + 1]
            && z.links == s.links[p := z.links[p]] && forall j: nat :: j < |z.links[p]| ==> z.links[p][j].None?
  {
    hide *;
    FirstIs(s);
    var p := s.fl[0];
    InvShape(s);
    HeadIs(s);
    var a := Validates(s, t, Head, 0, p);
    var b := TakesOff(a, t, p);
    Joined(s, a, b, {t}, 4, 2);
    var d := Unclaims(b, t, p);
    Joined(s, b, d, {t}, 6, 2);
    var n;
    z, n := Empties(d, t, p);
    Joined(s, d, z, {t}, 8, n);
    k := 8 + n;
    assert z.tasks == s.tasks[t := Holding(p)];
    assert z.status == s.status[p := Live];
    assert z.rc == s.rc[p := s.rc[p] + 1];
  }

  lemma Empties(s: State, t: nat, p: nat) returns (z: State, k: nat)
    requires Inv(s) && t in s.tasks && s.tasks[t] == Zeroing(p, 0)
    ensures Reaches(s, z, {t}, k) && Inv(z) && p < |s.links| == |s.status| == |z.links|
    ensures z == s.(links := s.links[p := z.links[p]], status := s.status[p := Live], tasks := s.tasks[t := Holding(p)])
    ensures forall j: nat :: j < |z.links[p]| ==> z.links[p][j].None?
  {
    hide *;
    InvShape(s);
    ZeroingIs(s, t);
    z, k := Zeros(s, t, p, 0);
  }

  // ----- releasing -----

  lemma Discards(s: State, t: nat, p: nat) returns (m: State)
    requires Inv(s) && t in s.tasks && s.tasks[t] == Holding(p)
    ensures Shape(s) && StepTo(s, m, Discard(t)) && Inv(m) && m == s.(tasks := s.tasks[t := Dropping(p)])
  {
    InvShape(s);
    m := s.(tasks := s.tasks[t := Dropping(p)]);
    StepInv(s, m, Discard(t));
  }

  /** The count falls by two; if that leaves nothing, the node is claimed. */
  lemma Lowers(s: State, t: nat, p: nat, seen: int) returns (m: State)
    requires Inv(s) && t in s.tasks && s.tasks[t] == DropSwap(p, seen) && p < |s.rc| == |s.status| && s.rc[p] == seen
    ensures Shape(s) && StepTo(s, m, DropCas(t)) && Inv(m)
    ensures m == if seen == 2 then s.(rc := s.rc[p := 1], status := s.status[p := Claimed(t)], tasks := s.tasks[t := Sweeping(p, 0)])
                 else s.(rc := s.rc[p := seen - 2], tasks := s.tasks - {t})
  {
    m := if seen == 2 then s.(rc := s.rc[p := 1], status := s.status[p := Claimed(t)], tasks := s.tasks[t := Sweeping(p, 0)])
         else s.(rc := s.rc[p := seen - 2], tasks := s.tasks - {t});
    hide Inv, Shape;
    InvShape(s);
    IsLowered(s, m, t, p, seen);
    StepInv(s, m, DropCas(t));
  }

  lemma IsLowered(s: State, m: State, t: nat, p: nat, seen: int)
    requires Shape(s) && t in s.tasks && s.tasks[t] == DropSwap(p, seen) && p < |s.rc| == |s.status| && s.rc[p] == seen
    requires m == if seen == 2 then s.(rc := s.rc[p := 1], status := s.status[p := Claimed(t)], tasks := s.tasks[t := Sweeping(p, 0)])
                  else s.(rc := s.rc[p := seen - 2], tasks := s.tasks - {t})
    ensures StepTo(s, m, DropCas(t))
  {
    hide Shape;
  }

  lemma Drops(s: State, t: nat, p: nat) returns (z: State)
    requires Inv(s) && t in s.tasks && s.tasks[t] == Dropping(p)
    ensures Reaches(s, z, {t}, 2) && Inv(z) && p < |s.rc| == |s.status|
    ensures z == if s.rc[p] == 2 then s.(rc := s.rc[p := 1], status := s.status[p := Claimed(t)], tasks := s.tasks[t := Sweeping(p, 0)])
                 else s.(rc := s.rc[p := s.rc[p] - 2], tasks := s.tasks - {t})
  {
    hide *;
    InvShape(s);
    var a := LoadsCount(s, t, p);
    z := Lowers(a, t, p, s.rc[p]);
    Nowhere(z, {t});
    Stepped(a, z, z, {t}, DropCas(t), 0);
    Stepped(s, a, z, {t}, LoadCount(t), 1);
    assert s.rc[p] == 2 ==> z.tasks == s.tasks[t := Sweeping(p, 0)];
    assert s.rc[p] != 2 ==> z.tasks == s.tasks - {t};
  }

  /** The client lets go of a node to which there are other references: only the count changes. */
  lemma ReleasesShared(s: State, t: nat, p: nat) returns (z: State)
    requires Inv(s) && t in s.tasks && s.tasks[t] == Holding(p) && p < |s.rc| && s.rc[p] != 2
    ensures Reaches(s, z, {t}, 3) && Inv(z)
    ensures z == s.(rc := s.rc[p := s.rc[p] - 2], tasks := s.tasks - {t})
  {
    hide *;
    var a := Discards(s, t, p);
    z := Drops(a, t, p);
    Stepped(s, a, z, {t}, Discard(t), 2);
    assert z.tasks == s.tasks - {t};
  }

  lemma SweepsOne(s: State, t: nat, p: nat, i: nat) returns (m: State, e: Step, u: nat)
    requires Inv(s) && t in s.tasks && s.tasks[t] == Sweeping(p, i) && p < |s.links| == |s.status|
    ensures e.t == t && Shape(s) && StepTo(s, m, e) && Inv(m) && i <= s.nlinks == |s.links[p]| && u !in s.tasks
    ensures m == if i >= s.nlinks || s.links[p][i].None? then s.(status := s.status[p := Swept(t)], tasks := s.tasks[t := Pushing(p)])
                 else s.(links := s.links[p := s.links[p][i := None]],
                         tasks := s.tasks[t := Sweeping(p, i + 1)][u := Dropping(s.links[p][i].value)])
  {
    TaskIs(s, t);
    u := Fresh(s.tasks);
    e := Sweep(t, u);
    m := if i >= s.nlinks || s.links[p][i].None? then s.(status := s.status[p := Swept(t)], tasks := s.tasks[t := Pushing(p)])
         else s.(links := s.links[p := s.links[p][i := None]],
                 tasks := s.tasks[t := Sweeping(p, i + 1)][u := Dropping(s.links[p][i].value)]);
    StepInv(s, m, e);
  }

  /** New tasks, each about to give up a reference. */
  ghost predicate Dropped(was: map<nat, Task>, now: map<nat, Task>, t: nat, news: set<nat>) {
    && now.Keys == was.Keys + news && t !in news && t in was && news !! was.Keys
    && (forall x :: x in was && x != t ==> x in now && now[x] == was[x])
    && (forall x :: x in news ==> x in now && now[x].Dropping?)
  }

  lemma DroppedMore(was: map<nat, Task>, mid: map<nat, Task>, now: map<nat, Task>, t: nat, u: nat, q: nat, k: Task, news: set<nat>)
    requires t in was && u !in was && mid == was[t := k][u := Dropping(q)] && Dropped(mid, now, t, news)
    ensures Dropped(was, now, t, news + {u})
  {
    assert mid.Keys == was.Keys + {u};
  }

  /** All references of a claimed node are set free, each by a task of its own. */
  lemma {:induction false} Sweeps(s: State, t: nat, p: nat, i: nat) returns (z: State, news: set<nat>, k: nat)
    requires Inv(s) && t in s.tasks && s.tasks[t] == Sweeping(p, i) && p < |s.links| == |s.status| && i <= s.nlinks == |s.links[p]|
    ensures Reaches(s, z, {t}, k) && Inv(z) && Dropped(s.tasks, z.tasks, t, news) && t in z.tasks && z.tasks[t] == Pushing(p)
    ensures p < |z.links| && z == s.(links := s.links[p := z.links[p]], status := s.status[p := Swept(t)], tasks := z.tasks)
    decreases s.nlinks - i
  {
    hide *;
    var m, e, u := SweepsOne(s, t, p, i);
    if i >= s.nlinks || s.links[p][i].None? {
      z, news, k := m, {}, 0;
      NoneDropped(s.tasks, t, Pushing(p));
      assert s.links[p := s.links[p]] == s.links;
      Nowhere(z, {t});
    } else {
      z, news, k := Sweeps(m, t, p, i + 1);
      DroppedMore(s.tasks, m.tasks, z.tasks, t, u, s.links[p][i].value, Sweeping(p, i + 1), news);
      news := news + {u};
      assert z.links == s.links[p := z.links[p]];
    }
    Stepped(s, m, z, {t}, e, k);
    k := k + 1;
  }

  lemma NoneDropped(was: map<nat, Task>, t: nat, k: Task)
    requires t in was
    ensures Dropped(was, was[t := k], t, {})
  {
  }

  lemma PushesLoad(s: State, t: nat, p: nat) returns (m: State)
    requires Inv(s) && t in s.tasks && s.tasks[t] == Pushing(p)
    ensures Shape(s) && StepTo(s, m, PushLoad(t)) && Inv(m) && p < |s.links| && 0 < |s.links[p]|
    ensures m == s.(links := s.links[p := s.links[p][0 := s.head]], tasks := s.tasks[t := PushSwap(p, s.head)])
  {
    TaskIs(s, t);
    m := s.(links := s.links[p := s.links[p][0 := s.head]], tasks := s.tasks[t := PushSwap(p, s.head)]);
    StepInv(s, m, PushLoad(t));
  }

  lemma PushesOn(s: State, t: nat, p: nat, next: Option<nat>) returns (m: State)
    requires Inv(s) && t in s.tasks && s.tasks[t] == PushSwap(p, next) && s.head == next
    ensures Shape(s) && StepTo(s, m, PushCas(t)) && Inv(m) && p < |s.status|
    ensures m == s.(head := Some(p), fl := [p] + s.fl, status := s.status[p := Free], tasks := s.tasks - {t})
  {
    TaskIs(s, t);
    m := s.(head := Some(p), fl := [p] + s.fl, status := s.status[p := Free], tasks := s.tasks - {t});
    StepInv(s, m, PushCas(t));
  }

  /** A swept node goes to the front of the list. */
  lemma PutsBack(s: State, t: nat, p: nat) returns (z: State)
    requires Inv(s) && t in s.tasks && s.tasks[t] == Pushing(p)
    ensures Reaches(s, z, {t}, 2) && Inv(z) && p < |s.status| && p < |s.links| == |z.links|
    ensures z == s.(head := Some(p), fl := [p] + s.fl, links := s.links[p := z.links[p]], status := s.status[p := Free],
                    tasks := s.tasks - {t})
  {
    hide *;
    InvShape(s);
    var a := PushesLoad(s, t, p);
    z := PushesOn(a, t, p, s.head);
    Nowhere(z, {t});
    Stepped(a, z, z, {t}, PushCas(t), 0);
    Stepped(s, a, z, {t}, PushLoad(t), 1);
    assert z.tasks == s.tasks - {t};
  }

  // ----- the cascade -----

  ghost function LiveSet(s: State): set<nat> { set n: nat | n < |s.status| && s.status[n].Live? }

  /** Nodes stay as they are or go from the client back to the list, in front of those that were there. */
  ghost predicate Returned(s: State, z: State) {
    && |z.status| == |s.status| && z.roots == s.roots && z.nlinks == s.nlinks
    && |s.fl| <= |z.fl| && z.fl[|z.fl| - |s.fl|..] == s.fl
    && forall n: nat :: n < |s.status| ==> z.status[n] == s.status[n] || (s.status[n].Live? && z.status[n].Free?)
  }

  lemma ReturnedMore(s: State, m: State, z: State)
    requires Returned(s, m) && Returned(m, z)
    ensures Returned(s, z)
  {
    assert z.fl[|z.fl| - |s.fl|..] == z.fl[|z.fl| - |m.fl|..][|m.fl| - |s.fl|..];
  }

  /** A task gives up its reference, the only one to its node. */
  lemma ReturnsNode(s: State, t: nat, p: nat) returns (z: State, news: set<nat>, k: nat)
    requires Inv(s) && t in s.tasks && s.tasks[t] == Dropping(p) && p < |s.rc| && s.rc[p] == 2
    ensures Reaches(s, z, {t}, k) && Inv(z) && Returned(s, z) && p < |s.status| && s.status[p].Live? && z.status[p].Free?
    ensures t !in z.tasks && z.tasks.Keys == s.tasks.Keys - {t} + news && news !! s.tasks.Keys
    ensures forall x :: x in s.tasks && x != t ==> x in z.tasks && z.tasks[x] == s.tasks[x]
    ensures forall x :: x in news ==> x in z.tasks && z.tasks[x].Dropping?
    ensures z.fl == [p] + s.fl
  {
    hide *;
    InvShape(s);
    var a := Drops(s, t, p);
    WasLive(s, t, p);
    InvShape(a);
    var b, more, n := Sweeps(a, t, p, 0);
    Joined(s, a, b, {t}, 2, n);
    InvShape(b);
    z := PutsBack(b, t, p);
    Joined(s, b, z, {t}, 2 + n, 2);
    k := 4 + n;
    news := more;
    AllDropped(s.tasks, a.tasks, b.tasks, t, Sweeping(p, 0), news);
    assert z.status == s.status[p := Free];
    BackInFront(s, z, p);
  }

  lemma BackInFront(s: State, z: State, p: nat)
    requires z.roots == s.roots && z.nlinks == s.nlinks && p < |s.status| && s.status[p].Live?
    requires z.status == s.status[p := Free] && z.fl == [p] + s.fl
    ensures Returned(s, z)
  {
    assert z.fl[1..] == s.fl;
  }

  lemma AllDropped(was: map<nat, Task>, mid: map<nat, Task>, now: map<nat, Task>, t: nat, k: Task, news: set<nat>)
    requires t in was && mid == was[t := k] && Dropped(mid, now, t, news)
    ensures now.Keys == was.Keys + news && news !! was.Keys && t !in news
    ensures forall x :: x in was && x != t ==> x in now && now[x] == was[x]
    ensures forall x :: x in news ==> x in now && now[x].Dropping?
  {
    assert mid.Keys == was.Keys;
  }

  lemma WasLive(s: State, t: nat, p: nat)
    requires Inv(s) && t in s.tasks && s.tasks[t] == Dropping(p) && p < |s.rc| == |s.status| && s.rc[p] == 2
    ensures s.status[p].Live?
  {
    var a := LoadsCount(s, t, p);
    hide Inv;
    LastReference(a, t, p, 2);
  }

  lemma FewerLive(s: State, z: State, p: nat)
    requires Returned(s, z) && p < |s.status| && s.status[p].Live? && z.status[p].Free?
    ensures |LiveSet(z)| < |LiveSet(s)|
  {
    var u, v := LiveSet(s), LiveSet(z);
    assert v <= u - {p};
    Fewer(v, u - {p});
  }

  lemma Fewer<T>(u: set<T>, v: set<T>)
    requires u <= v
    ensures |u| <= |v|
  {
    assert v == u + (v - u);
  }

  lemma SameLive(s: State, z: State)
    requires z.status == s.status
    ensures LiveSet(z) == LiveSet(s)
  {
  }

  /** One task gives up its reference, the last one or not; `news` are the tasks that this sets off. */
  lemma GivesUp(s: State, t: nat) returns (m: State, news: set<nat>, k: nat)
    requires Inv(s) && t in s.tasks && s.tasks[t].Dropping?
    ensures Reaches(s, m, {t}, k) && Inv(m) && Returned(s, m)
    ensures t !in m.tasks && m.tasks.Keys == s.tasks.Keys - {t} + news && news !! s.tasks.Keys
    ensures forall x :: x in s.tasks && x != t ==> x in m.tasks && m.tasks[x] == s.tasks[x]
    ensures forall x :: x in news ==> x in m.tasks && m.tasks[x].Dropping?
    ensures |LiveSet(m)| < |LiveSet(s)| || (|LiveSet(m)| == |LiveSet(s)| && news == {})
  {
    hide *;
    var p := s.tasks[t].p;
    DroppingIs(s, t);
    if s.rc[p] == 2 {
      m, news, k := ReturnsNode(s, t, p);
      FewerLive(s, m, p);
    } else {
      m := Drops(s, t, p);
      news, k := {}, 2;
      SameLive(s, m);
      LowerCount(s, m);
    }
  }

  /** Any number of releases, and all that they set off, come to an end, with every node to which no reference is
      left back on the list. */
  lemma {:induction false} Drains(s: State, own: set<nat>) returns (z: State, all: set<nat>, k: nat)
    requires Inv(s) && forall x :: x in own ==> x in s.tasks && s.tasks[x].Dropping?
    ensures Reaches(s, z, all, k) && Inv(z) && Returned(s, z) && z.tasks == s.tasks - own
    ensures own <= all && forall x :: x in all ==> x in own || x !in s.tasks
    decreases |LiveSet(s)|, |own|
  {
    hide *;
    if own == {} {
      z, all, k := s, {}, 0;
      Nowhere(s, {});
      Unreturned(s);
      assert s.tasks - {} == s.tasks;
    } else {
      var t :| t in own;
      var m, news, i := GivesUp(s, t);
      assert own == (own - {t}) + {t};
      assert news == {} ==> own - {t} + news == own - {t};
      var j;
      z, all, j := Drains(m, own - {t} + news);
      DrainedTasks(s.tasks, m.tasks, z.tasks, own, t, news);
      ReturnedMore(s, m, z);
      Wider(s, m, {t}, all + {t}, i);
      Wider(m, z, all, all + {t}, j);
      Joined(s, m, z, all + {t}, i, j);
      all, k := all + {t}, i + j;
    }
  }

  lemma DrainedTasks(was: map<nat, Task>, mid: map<nat, Task>, now: map<nat, Task>, own: set<nat>, t: nat, news: set<nat>)
    requires t in own && own <= was.Keys && mid.Keys == was.Keys - {t} + news && news !! was.Keys
    requires forall x :: x in was && x != t ==> x in mid && mid[x] == was[x]
    requires now == mid - (own - {t} + news)
    ensures now == was - own
  {
    assert now.Keys == was.Keys - own;
  }

  lemma Unreturned(s: State)
    ensures Returned(s, s)
  {
  }

  lemma LowerCount(s: State, m: State)
    requires m == s.(rc := m.rc, tasks := m.tasks)
    ensures Returned(s, m)
  {
  }

  lemma DroppingIs(s: State, t: nat)
    requires Inv(s) && t in s.tasks && s.tasks[t].Dropping?
    ensures s.tasks[t].p < |s.rc| == |s.status|
  {
    TaskIs(s, t);
  }

  /** The client lets go of the only reference to a node: the node goes back to the list, and so does everything
      that only it led to; the list that was there is what follows, and no task is left over. */
  lemma ReleasesLast(s: State, t: nat, p: nat) returns (z: State, all: set<nat>, k: nat)
    requires Inv(s) && t in s.tasks && s.tasks[t] == Holding(p) && p < |s.rc| == |s.status| && s.rc[p] == 2
    ensures Reaches(s, z, all, k) && Inv(z) && z.tasks == s.tasks - {t} && z.roots == s.roots
    ensures forall x :: x in all ==> x == t || x !in s.tasks
    ensures |s.fl| < |z.fl| && z.fl[|z.fl| - |s.fl| - 1..] == [p] + s.fl
    ensures |z.status| == |s.status| && z.status[p].Free?
    ensures forall n: nat :: n < |s.status| ==> z.status[n] == s.status[n] || (s.status[n].Live? && z.status[n].Free?)
  {
    hide *;
    var a := Discards(s, t, p);
    var m, news, i := ReturnsNode(a, t, p);
    var j;
    z, all, j := Drains(m, news);
    Wider(a, m, {t}, all + {t}, i);
    Wider(m, z, all, all + {t}, j);
    Joined(a, m, z, all + {t}, i, j);
    Stepped(s, a, z, all + {t}, Discard(t), i + j);
    all, k := all + {t}, i + j + 1;
    assert z.tasks == s.tasks - {t};
    ReturnedIs(s, a, m, z, p);
  }

  lemma ReturnedIs(s: State, a: State, m: State, z: State, p: nat)
    requires a == s.(tasks := a.tasks) && Returned(a, m) && Returned(m, z) && p < |s.status|
    requires m.status[p].Free? && m.fl == [p] + s.fl
    ensures |s.fl| < |z.fl| && z.fl[|z.fl| - |s.fl| - 1..] == [p] + s.fl && z.roots == s.roots
    ensures |z.status| == |s.status| && z.status[p].Free?
    ensures forall n: nat :: n < |s.status| ==> z.status[n] == s.status[n] || (s.status[n].Live? && z.status[n].Free?)
  {
  }

  // ----- the client's own steps -----

  /** The client stores its reference in a root and gets back the one that was there. */
  lemma Stores(s: State, t: nat, r: nat, p: nat) returns (z: State)
    requires Inv(s) && t in s.tasks && s.tasks[t] == Holding(p) && r < |s.roots|
    ensures Reaches(s, z, {t}, 1) && Inv(z)
    ensures z == s.(roots := s.roots[r := Some(p)],
                    tasks := if s.roots[r].Some? then s.tasks[t := Holding(s.roots[r].value)] else s.tasks - {t})
  {
    z := s.(roots := s.roots[r := Some(p)],
            tasks := if s.roots[r].Some? then s.tasks[t := Holding(s.roots[r].value)] else s.tasks - {t});
    InvShape(s);
    var e := Exchange(t, Root(r), 0);
    assert StepTo(s, z, e);
    StepInv(s, z, e);
    hide *;
    Nowhere(z, {t});
    Stepped(s, z, z, {t}, e, 0);
  }

  /** The client links a node that it holds to another one, behind the links that are set. */
  lemma Links(s: State, t: nat, via: nat, n: nat, i: nat, p: nat) returns (z: State)
    requires Inv(s) && t in s.tasks && s.tasks[t] == Holding(p) && via in s.tasks && s.tasks[via] == Holding(n) && via != t
    requires n < |s.links| && i < |s.links[n]| && (0 < i ==> s.links[n][i - 1].Some?) && s.links[n][i].None?
    ensures Reaches(s, z, {t}, 1) && Inv(z)
    ensures z == s.(links := s.links[n := s.links[n][i := Some(p)]], tasks := s.tasks - {t})
  {
    z := s.(links := s.links[n := s.links[n][i := Some(p)]], tasks := s.tasks - {t});
    InvShape(s);
    var e := Exchange(t, Link(n, i), via);
    assert StepTo(s, z, e);
    StepInv(s, z, e);
    hide *;
    Nowhere(z, {t});
    Stepped(s, z, z, {t}, e, 0);
  }

  // ----- attempts do not get lost -----

  /** An unfinished read or allocation. */
  predicate Tries(k: Task) { k.Reading? || k.Bumping? || k.Checking? || k.Popping? || k.Swinging? }

  ghost function Attempts(s: State): set<nat> { set t | t in s.tasks && Tries(s.tasks[t]) }

  /** The attempt of task `t` goes on, by itself or as the new task `u`. */
  ghost predicate GoesOn(was: map<nat, Task>, now: map<nat, Task>, t: nat) {
    || (t in now && Tries(now[t]) && now == was[t := now[t]])
    || (exists u, q, cell :: u !in was && now == was[t := Dropping(q)][u := Reading(cell)])
  }

  /** The attempt of task `t` has found its cell empty or has got its node. */
  ghost predicate Ends(s: State, s': State, t: nat)
    requires t in s.tasks
  {
    var k := s.tasks[t];
    || (k.Reading? && CellOk(s, k.cell) && Contents(s, k.cell) == None && s'.tasks == s.tasks - {t})
    || (k.Checking? && k.cell != Head && CellOk(s, k.cell) && Contents(s, k.cell) == Some(k.q)
        && s'.tasks == s.tasks[t := Holding(k.q)])
    || (k.Swinging? && s.head == Some(k.p) && s'.tasks == s.tasks[t := Clearing(k.p)])
  }

  lemma CheckGoes(s: State, s': State, t: nat, via: nat, u: nat, cell: Cell, q: nat)
    requires t in s.tasks && s.tasks[t] == Checking(cell, q) && u !in s.tasks && CheckStep(s, s', t, via, u, cell, q)
    ensures GoesOn(s.tasks, s'.tasks, t) || Ends(s, s', t)
  {
    if Contents(s, cell) != Some(q) {
      assert s'.tasks == s.tasks[t := Dropping(q)][u := Reading(cell)];
    }
  }

  lemma SwingGoes(s: State, s': State, t: nat, u: nat, p: nat, next: Option<nat>)
    requires t in s.tasks && s.tasks[t] == Swinging(p, next) && u !in s.tasks && SwingStep(s, s', t, u, p, next)
    ensures GoesOn(s.tasks, s'.tasks, t) || Ends(s, s', t)
  {
    if s.head != Some(p) {
      assert s'.tasks == s.tasks[t := Dropping(p)][u := Reading(Head)];
    }
  }

  lemma LoadGoes(s: State, s': State, t: nat, via: nat, cell: Cell)
    requires t in s.tasks && s.tasks[t] == Reading(cell) && LoadStep(s, s', t, via, cell)
    ensures GoesOn(s.tasks, s'.tasks, t) || Ends(s, s', t)
  {
  }

  lemma AttemptGoes(s: State, s': State, e: Step)
    requires Inv(s) && StepTo(s, s', e) && e.t in s.tasks && Tries(s.tasks[e.t])
    ensures GoesOn(s.tasks, s'.tasks, e.t) || Ends(s, s', e.t)
  {
    hide Inv, Shape, Ends, LoadStep, CheckStep, SwingStep, ExchangeStep, TakeOutStep, DropStep, SweepStep, PushStep,
         PushLoadStep, ZeroStep, ClearStep, LoadCountStep, ShareStep;
    match e
    case Load(t, via) => LoadGoes(s, s', t, via, s.tasks[t].cell);
    case Check(t, via, u) => CheckGoes(s, s', t, via, u, s.tasks[t].cell, s.tasks[t].q);
    case Swing(t, u) => SwingGoes(s, s', t, u, s.tasks[t].p, s.tasks[t].next);
    case _ =>
  }

  /** An attempt that does not go on, by its own task or by a new one, has found its cell empty or has got its node:
      what it loaded is what it hands out. */
  lemma AttemptEnds(s: State, s': State, e: Step)
    requires Inv(s) && StepTo(s, s', e) && e.t in s.tasks && Tries(s.tasks[e.t])
    ensures var k := s.tasks[e.t];
            |Attempts(s')| < |Attempts(s)| ==>
              || (k.Reading? && CellOk(s, k.cell) && Contents(s, k.cell) == None && e.t !in s'.tasks)
              || (k.Checking? && k.cell != Head && CellOk(s, k.cell) && Contents(s, k.cell) == Some(k.q)
                  && e.t in s'.tasks && s'.tasks[e.t] == Holding(k.q))
              || (k.Swinging? && s.head == Some(k.p) && e.t in s'.tasks && s'.tasks[e.t] == Clearing(k.p))
    ensures |Attempts(s')| >= |Attempts(s)| - 1
  {
    AttemptGoes(s, s', e);
    hide Inv, StepTo, Attempts;
    InAttempts(s, e.t);
    SameAttempts(s);
    SameAttempts(s');
    if GoesOn(s.tasks, s'.tasks, e.t) {
      Same(s.tasks, s'.tasks, e.t);
    } else {
      Fall(s.tasks, s'.tasks, e.t);
    }
  }

  lemma Same(was: map<nat, Task>, now: map<nat, Task>, t: nat)
    requires t in was && Tries(was[t]) && GoesOn(was, now, t)
    ensures |TryingIn(now)| == |TryingIn(was)|
  {
    if t in now && Tries(now[t]) && now == was[t := now[t]] {
      PutAttempts(was, t, now[t]);
      Moved(TryingIn(was), t, t);
    } else {
      var u, q, cell :| u !in was && now == was[t := Dropping(q)][u := Reading(cell)];
      PutAttempts(was, t, Dropping(q));
      PutAttempts(was[t := Dropping(q)], u, Reading(cell));
      Moved(TryingIn(was), t, u);
    }
  }

  lemma Fall(was: map<nat, Task>, now: map<nat, Task>, t: nat)
    requires t in was && Tries(was[t])
    requires now == was - {t} || (t in now && !Tries(now[t]) && now == was[t := now[t]])
    ensures |TryingIn(now)| == |TryingIn(was)| - 1
  {
    if now == was - {t} { EndAttempts(was, t); } else { PutAttempts(was, t, now[t]); }
    Moved(TryingIn(was), t, t);
  }

  function TryingIn(tasks: map<nat, Task>): set<nat> { set t | t in tasks && Tries(tasks[t]) }

  lemma SameAttempts(s: State)
    ensures Attempts(s) == TryingIn(s.tasks)
  {
  }

  lemma InAttempts(s: State, t: nat)
    requires t in s.tasks && Tries(s.tasks[t])
    ensures t in Attempts(s) && forall u :: u in Attempts(s) ==> u in s.tasks
  {
  }

  lemma PutAttempts(tasks: map<nat, Task>, t: nat, k: Task)
    ensures TryingIn(tasks[t := k]) == if Tries(k) then TryingIn(tasks) + {t} else TryingIn(tasks) - {t}
  {
  }

  lemma EndAttempts(tasks: map<nat, Task>, t: nat)
    ensures TryingIn(tasks - {t}) == TryingIn(tasks) - {t}
  {
  }

  lemma Moved(a: set<nat>, t: nat, u: nat)
    requires t in a && (u == t || u !in a)
    ensures a + {t} == a && |a - {t}| == |a| - 1 && |a - {t} + {u}| == |a|
  {
    assert a - {t} + {t} == a;
    assert u !in a - {t};
  }

  /** What a reading task loads is what it goes on to count. */
  lemma LoadIsCounted(s: State, s': State, e: Step, cell: Cell)
    requires Inv(s) && StepTo(s, s', e) && e.t in s.tasks && s.tasks[e.t] == Reading(cell)
    ensures CellOk(s, cell)
    ensures match Contents(s, cell) case None => e.t !in s'.tasks
                                    case Some(q) => e.t in s'.tasks && s'.tasks[e.t] == Bumping(cell, q)
  {
  }

  // ----- in runs -----

  /** A step changes no task but its own and a new one. */
  lemma OthersStay(s: State, s': State, e: Step, x: nat)
    requires Shape(s) && StepTo(s, s', e) && x in s.tasks && x != e.t
    ensures x in s'.tasks && s'.tasks[x] == s.tasks[x]
  {
    hide Shape;
  }

  /** In every run: a read, or an allocation, that has not counted anything comes back with nothing only when its cell was empty. */
  lemma NothingMeansEmpty(tr: seq<State>, i: nat, t: nat, cell: Cell)
    requires FreeListTheorems.IsRun(tr) && i + 1 < |tr| && t in tr[i].tasks && tr[i].tasks[t] == Reading(cell)
    requires t !in tr[i + 1].tasks
    ensures CellOk(tr[i], cell) && Contents(tr[i], cell) == None
  {
    FreeListTheorems.RunSteps(tr, i);
    hide Inv, Shape, StepTo;
    var e := FreeListTheorems.TheStep(tr[i], tr[i + 1]);
    if e.t != t { OthersStay(tr[i], tr[i + 1], e, t); }
    LoadIsCounted(tr[i], tr[i + 1], e, cell);
  }

  /** What can be reached from a state of a run is reached by a longer run. */
  lemma {:induction false} RunOn(tr: seq<State>, z: State, own: set<nat>, k: nat) returns (r: seq<State>)
    requires FreeListTheorems.IsRun(tr) && Reaches(tr[|tr| - 1], z, own, k)
    ensures FreeListTheorems.IsRun(r) && tr <= r && r[|r| - 1] == z
    decreases k
  {
    hide StepTo, Shape, FreeListTheorems.Initial;
    if k == 0 {
      r := tr;
    } else {
      var s := tr[|tr| - 1];
      var m, e: Step :| Shape(s) && e.t in own && StepTo(s, m, e) && Reaches(m, z, own, k - 1);
      assert FreeListTheorems.CanStep(s, m);
      assert forall i: nat :: i + 1 < |tr| ==> FreeListTheorems.CanStep((tr + [m])[i], (tr + [m])[i + 1]);
      r := RunOn(tr + [m], z, own, k - 1);
    }
  }

  /** From every newly built list with nodes there is a run in which an allocation comes back with the first one. */
  lemma NewListAllocates(s: State, t: nat) returns (tr: seq<State>)
    requires FreeListTheorems.Initial(s) && 0 < |s.rc|
    ensures s.fl != [] && FreeListTheorems.IsRun(tr) && tr[0] == s
    ensures var z := tr[|tr| - 1]; z.tasks == map[t := Holding(s.fl[0])] && z.fl == s.fl[1..]
  {
    FreeListTheorems.InitialInv(s);
    SomeFree(s);
    var z, k := AllocatesFirst(s, t);
    hide Inv, Reaches;
    tr := RunOn([s], z, {t}, k);
    assert z.tasks == map[t := Holding(s.fl[0])];
  }

  lemma SomeFree(s: State)
    requires FreeListTheorems.Initial(s) && 0 < |s.rc|
    ensures s.fl != [] && s.tasks == map[]
  {
    assert s.status[0].Free?;
  }
}
