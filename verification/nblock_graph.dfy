/**
 * The nblock graph with its incremental counters.
 *
 * Each method is a critical section of the program, or a part of one, and is
 * proved to compute the operation of `PbnfScheduler` that bears its name.
 */
module NBlockGraphs {
  import opened Orders
  import opened FixedPoint
  import opened PriorityQueues
  import opened Interference
  import opened PbnfScheduler

  /** The mutable scheduling fields of a block. */
  datatype NBlock = NBlock(sigma: nat, sigmaHot: nat, hot: bool, inuse: bool)

  /** A block's open list: its nodes, the published best value and the g of its front node. */
  datatype OpenList = OpenList(nodes: set<Node>, best: nat, frontG: nat)

  ghost predicate Published(c: Config, o: OpenList) {
    && (o.nodes == {} ==> o.best == FP_INFINITY)
    && (o.nodes != {} ==> exists x :: x in o.nodes && c.FPrimeOf(x) == o.best)
    && (forall x :: x in o.nodes ==> o.best <= c.FPrimeOf(x))
  }

  ghost function NodesOf(open: seq<OpenList>): seq<set<Node>> {
    seq(|open|, b requires 0 <= b < |open| => open[b].nodes)
  }

  ghost function InuseOf(blocks: seq<NBlock>): set<nat> { set b: nat | b < |blocks| && blocks[b].inuse }

  ghost function HotOf(blocks: seq<NBlock>): set<nat> { set b: nat | b < |blocks| && blocks[b].hot }

  ghost function ZeroOf(blocks: seq<NBlock>): set<nat> { set b: nat | b < |blocks| && blocks[b].sigma == 0 }

  predicate Idle(b: NBlock) { !b.inuse && b.sigma == 0 && b.sigmaHot == 0 }

  /** The free list's predecessor operator: the f values that it compares on a
      tie are never assigned, so ties go to the larger g. */
  predicate Precedes(open: seq<OpenList>, a: nat, b: nat) {
    var (af, ag) := KeyOf(open, a);
    var (bf, bg) := KeyOf(open, b);
    if af == bf then ag > bg else af < bf
  }

  function KeyOf(open: seq<OpenList>, a: nat): (nat, nat) {
    if a < |open| then (open[a].best, if open[a].nodes != {} then open[a].frontG else FP_INFINITY)
    else (FP_INFINITY, FP_INFINITY)
  }

  function Before(open: seq<OpenList>): (nat, nat) -> bool { (a: nat, b: nat) => Precedes(open, a, b) }

  lemma BeforeIsStrictWeakOrder(open: seq<OpenList>)
    ensures StrictWeakOrder(Before(open))
  {
  }

  /** All counters are exact, and the list holds free blocks only. */
  ghost predicate Exact(c: Config, blocks: seq<NBlock>, zero: nat) {
    && |blocks| == |c.scope|
    && Counted(c, blocks, InuseOf(blocks), HotOf(blocks))
    && zero == |ZeroOf(blocks)|
  }

  ghost predicate Counted(c: Config, blocks: seq<NBlock>, inuse: set<nat>, hot: set<nat>)
    requires |blocks| == |c.scope|
  {
    forall b: nat :: b < |blocks| ==>
      blocks[b].sigma == |c.scope[b] * inuse| && blocks[b].sigmaHot == |c.scope[b] * hot|
  }

  /** `is_free` computes freedom from exact counters. */
  lemma IdleIsFree(c: Config, blocks: seq<NBlock>, open: seq<OpenList>, b: nat)
    requires |blocks| == |c.scope| == |open| && b < |blocks|
    requires Counted(c, blocks, InuseOf(blocks), HotOf(blocks))
    ensures Idle(blocks[b]) && open[b].nodes != {} <==> c.Free(InuseOf(blocks), HotOf(blocks), NodesOf(open), b)
  {
    var u := c.scope[b] * InuseOf(blocks);
    var h := c.scope[b] * HotOf(blocks);
    assert |u| == 0 <==> u == {};
    assert |h| == 0 <==> h == {};
  }

  lemma ZeroUpdated(blocks: seq<NBlock>, m: nat, b: NBlock)
    requires m < |blocks|
    ensures |ZeroOf(blocks[m := b])| == |ZeroOf(blocks)|
            + (if b.sigma == 0 then 1 else 0) - (if blocks[m].sigma == 0 then 1 else 0)
  {
    var z, z' := ZeroOf(blocks), ZeroOf(blocks[m := b]);
    assert z - {m} == z' - {m};
    assert m in z ==> z == (z - {m}) + {m};
    assert m in z' ==> z' == (z' - {m}) + {m};
  }

  lemma CardPlus(s: set<nat>, u: set<nat>, n: nat)
    requires n !in u
    ensures |s * (u + {n})| == |s * u| + if n in s then 1 else 0
  {
    if n in s {
      assert s * (u + {n}) == s * u + {n};
    } else {
      assert s * (u + {n}) == s * u;
    }
  }

  lemma CardMinus(s: set<nat>, u: set<nat>, n: nat)
    requires n in u
    ensures |s * (u - {n})| == |s * u| - if n in s then 1 else 0
  {
    CardPlus(s, u - {n}, n);
    assert u - {n} + {n} == u;
  }

  // ----- acquiring -----

  /** The counters after `sigma` was raised in the part `d` of a scope. */
  ghost predicate Raised(was: seq<NBlock>, now: seq<NBlock>, d: set<nat>) {
    |now| == |was| && forall b: nat :: b < |was| ==>
      now[b] == if b in d then was[b].(sigma := was[b].sigma + 1) else was[b]
  }

  lemma RaisedMore(was: seq<NBlock>, now: seq<NBlock>, d: set<nat>, m: nat)
    requires Raised(was, now, d) && m < |was| && m !in d
    ensures now[m] == was[m]
    ensures Raised(was, now[m := now[m].(sigma := now[m].sigma + 1)], d + {m})
  {
  }

  /** Raising sigma all over the scope of a newly taken block makes the counters exact. */
  lemma RaisedIsExact(c: Config, was: seq<NBlock>, now: seq<NBlock>, n: nat)
    requires c.Valid() && n < |was| == |c.scope| && !was[n].inuse
    requires Counted(c, was, InuseOf(was), HotOf(was))
    requires Raised(was[n := was[n].(inuse := true)], now, c.scope[n])
    ensures Counted(c, now, InuseOf(now), HotOf(now))
    ensures InuseOf(now) == InuseOf(was) + {n} && HotOf(now) == HotOf(was)
  {
    RaisedSets(was, now, n, c.scope[n]);
    hide Config.Valid, InuseOf, HotOf;
    forall b: nat | b < |now|
      ensures now[b].sigma == |c.scope[b] * InuseOf(now)| && now[b].sigmaHot == |c.scope[b] * HotOf(now)|
    {
      CardPlus(c.scope[b], InuseOf(was), n);
      Symmetric(c, b, n);
    }
  }

  lemma RaisedSets(was: seq<NBlock>, now: seq<NBlock>, n: nat, d: set<nat>)
    requires n < |was| && !was[n].inuse && Raised(was[n := was[n].(inuse := true)], now, d)
    ensures InuseOf(now) == InuseOf(was) + {n} && HotOf(now) == HotOf(was) && n !in InuseOf(was)
  {
  }

  // ----- cooling -----

  /** The fields after `m` went cold and `sigmaHot` fell in the part `d` of its scope. */
  ghost predicate Cooled(was: seq<NBlock>, now: seq<NBlock>, m: nat, d: set<nat>) {
    |now| == |was| && forall b: nat :: b < |was| ==>
      && now[b].sigmaHot + (if b in d then 1 else 0) == was[b].sigmaHot
      && now[b].sigma == was[b].sigma && now[b].inuse == was[b].inuse
      && now[b].hot == (was[b].hot && b != m)
  }

  lemma CooledMore(was: seq<NBlock>, now: seq<NBlock>, m: nat, d: set<nat>, b: nat)
    requires Cooled(was, now, m, d) && b < |was| && b !in d && 0 < was[b].sigmaHot
    ensures 0 < now[b].sigmaHot
    ensures Cooled(was, now[b := now[b].(sigmaHot := now[b].sigmaHot - 1)], m, d + {b})
  {
  }

  /** The blocks of `d` that the flags and counters call free. */
  ghost function IdleIn(blocks: seq<NBlock>, open: seq<OpenList>, d: set<nat>): set<nat> {
    set b | b in d && b < |blocks| == |open| && Idle(blocks[b]) && open[b].nodes != {}
  }

  lemma IdleInMore(was: seq<NBlock>, now: seq<NBlock>, open: seq<OpenList>, d: set<nat>, b: nat)
    requires b < |now| == |was| == |open| && b !in d && now == was[b := now[b]]
    ensures IdleIn(now, open, d + {b}) ==
            IdleIn(was, open, d) + if Idle(now[b]) && open[b].nodes != {} then {b} else {}
  {
  }

  // ----- releasing -----

  /** The hot blocks while the sigmas of the part `d` of the scope of `n` have been lowered. */
  ghost function HotDuring(c: Config, s: State, n: nat, d: set<nat>): set<nat> {
    set b | b in s.hot && !(b in d && b < |c.scope| && c.scope[b] * (s.inuse - {n}) == {})
  }

  /** The sigmas of `d` are those of the time after the release, all others those before it. */
  ghost predicate SigmasDuring(c: Config, s: State, n: nat, d: set<nat>, blocks: seq<NBlock>)
    requires |blocks| == |c.scope|
  {
    forall b: nat :: b < |blocks| ==>
      blocks[b].sigma == |c.scope[b] * if b in d then s.inuse - {n} else s.inuse|
  }

  ghost predicate HotCounted(c: Config, hot: set<nat>, blocks: seq<NBlock>)
    requires |blocks| == |c.scope|
  {
    forall b: nat :: b < |blocks| ==> blocks[b].sigmaHot == |c.scope[b] * hot|
  }

  /** The list holds what is free now and was listed or not free before the release. */
  ghost predicate ReleasedList(c: Config, s: State, blocks: seq<NBlock>, elems: set<nat>)
    requires |blocks| == |s.open|
  {
    forall b: nat :: b in elems <==>
      b < |blocks| && Idle(blocks[b]) && s.open[b] != {} && (b in s.listed || !PbnfScheduler.IsFree(c, s, b))
  }

  /** The state of the loop that lowers sigma in the scope of `n`. */
  ghost predicate Releasing(c: Config, s: State, n: nat, d: set<nat>, blocks: seq<NBlock>, elems: set<nat>, zero: nat) {
    && |blocks| == |s.open| == |c.scope|
    && InuseOf(blocks) == s.inuse - {n}
    && HotOf(blocks) == HotDuring(c, s, n, d)
    && SigmasDuring(c, s, n, d, blocks)
    && HotCounted(c, HotOf(blocks), blocks)
    && zero == |ZeroOf(blocks)|
    && ReleasedList(c, s, blocks, elems)
  }

  ghost predicate CanRelease(c: Config, s: State, n: nat) {
    c.Valid() && WellFormed(c, s) && Quiet(c, s.inuse, s.hot) && ListedAreFree(c, s) && n in s.inuse
  }

  /** The block that is given back neither was free nor lay in a used or listed block's scope. */
  lemma ReleasedBlock(c: Config, s: State, n: nat)
    requires CanRelease(c, s, n)
    ensures n < |c.scope| && c.scope[n] * s.inuse == {} && n !in s.listed && !PbnfScheduler.IsFree(c, s, n)
  {
  }

  lemma Neighbour(c: Config, a: nat, b: nat)
    requires c.Valid() && b < |c.scope| && a in c.scope[b]
    ensures a < |c.scope| && a != b && b in c.scope[a]
  {
  }

  lemma NotOwnNeighbour(c: Config, b: nat)
    requires c.Valid() && b < |c.scope|
    ensures b !in c.scope[b]
  {
  }

  lemma NotFreeBeside(c: Config, s: State, n: nat, m: nat)
    requires c.Valid() && n < |c.scope| && m in c.scope[n] && (n in s.inuse || n in s.hot)
    ensures !PbnfScheduler.IsFree(c, s, m)
  {
    Neighbour(c, m, n);
    assert n in c.scope[m] * (if n in s.inuse then s.inuse else s.hot);
  }

  lemma Disjoint(s: set<nat>, u: set<nat>)
    ensures |s * u| == 0 <==> s !! u
  {
    if s !! u {
      assert s * u == {};
    } else {
      var x :| x in s && x in u;
      assert x in s * u;
    }
  }

  lemma EmptyCard(s: set<nat>)
    ensures |s| == 0 <==> s == {}
  {
  }

  /** The release starts when the block's own flag is cleared and the block is
      listed if it is free. */
  lemma StartRelease(c: Config, s: State, n: nat, was: seq<NBlock>, open: seq<OpenList>, zero: nat)
    requires CanRelease(c, s, n) && Exact(c, was, zero) && s.open == NodesOf(open)
    requires s.inuse == InuseOf(was) && s.hot == HotOf(was)
    ensures n < |was| && n !in s.listed && was[n].sigma == 0
    ensures var now := was[n := was[n].(inuse := false)];
            Releasing(c, s, n, {}, now, if Idle(now[n]) && s.open[n] != {} then s.listed + {n} else s.listed, zero)
  {
    hide Config.Valid, Quiet, ListedAreFree, PbnfScheduler.IsFree, ReleasedList, HotDuring,
         InuseOf, HotOf, ZeroOf, SigmasDuring, HotCounted, NodesOf, Idle, Counted;
    NodesLength(open);
    ReleasedBlock(c, s, n);
    StartFlags(c, s, n, was);
    StartReleaseList(c, s, n, was, open);
  }

  lemma NodesUpdated(open: seq<OpenList>, m: nat, o: OpenList)
    requires m < |open|
    ensures |NodesOf(open)| == |open|
    ensures NodesOf(open[m := o]) == NodesOf(open)[m := o.nodes]
  {
  }

  lemma NodesLength(open: seq<OpenList>)
    ensures |NodesOf(open)| == |open|
    ensures forall b: nat :: b < |open| ==> NodesOf(open)[b] == open[b].nodes
  {
  }

  lemma StartFlags(c: Config, s: State, n: nat, was: seq<NBlock>)
    requires n < |was| == |c.scope| && Counted(c, was, InuseOf(was), HotOf(was)) && c.scope[n] * s.inuse == {}
    requires s.inuse == InuseOf(was) && s.hot == HotOf(was)
    ensures was[n].sigma == 0
    ensures var now := was[n := was[n].(inuse := false)];
            && InuseOf(now) == s.inuse - {n} && HotOf(now) == s.hot && ZeroOf(now) == ZeroOf(was)
            && HotDuring(c, s, n, {}) == s.hot && SigmasDuring(c, s, n, {}, now) && HotCounted(c, HotOf(now), now)
  {
    hide InuseOf, HotOf, ZeroOf;
    UnuseFlags(was, n);
    Disjoint(c.scope[n], s.inuse);
    assert was[n].sigma == |c.scope[n] * s.inuse|;
  }

  lemma UnuseFlags(was: seq<NBlock>, n: nat)
    requires n < |was|
    ensures var now := was[n := was[n].(inuse := false)];
            InuseOf(now) == InuseOf(was) - {n} && HotOf(now) == HotOf(was) && ZeroOf(now) == ZeroOf(was)
  {
  }

  lemma StartReleaseList(c: Config, s: State, n: nat, was: seq<NBlock>, open: seq<OpenList>)
    requires |was| == |c.scope| == |open| && s.open == NodesOf(open) && n < |was|
    requires Counted(c, was, InuseOf(was), HotOf(was)) && ListedAreFree(c, s)
    requires s.inuse == InuseOf(was) && s.hot == HotOf(was) && !PbnfScheduler.IsFree(c, s, n)
    ensures var now := was[n := was[n].(inuse := false)];
            ReleasedList(c, s, now, if Idle(now[n]) && s.open[n] != {} then s.listed + {n} else s.listed)
  {
    IdleAreFree(c, s, was, open);
    NodesLength(open);
    ListedInRange(c, s);
    hide Counted, Config.Free, InuseOf, HotOf, NodesOf, PbnfScheduler.IsFree, Idle;
    var now := was[n := was[n].(inuse := false)];
    var elems := if Idle(now[n]) && s.open[n] != {} then s.listed + {n} else s.listed;
    assert n !in s.listed;
    forall b: nat
      ensures b in elems <==>
              b < |now| && Idle(now[b]) && s.open[b] != {} && (b in s.listed || !PbnfScheduler.IsFree(c, s, b))
    {
      if b < |now| && b != n { assert now[b] == was[b]; }
    }
  }

  lemma ListedInRange(c: Config, s: State)
    requires ListedAreFree(c, s)
    ensures forall b :: b in s.listed ==> b < |c.scope| && PbnfScheduler.IsFree(c, s, b)
  {
  }

  lemma IdleAreFree(c: Config, s: State, was: seq<NBlock>, open: seq<OpenList>)
    requires |was| == |c.scope| == |open| && s.open == NodesOf(open)
    requires Counted(c, was, InuseOf(was), HotOf(was)) && s.inuse == InuseOf(was) && s.hot == HotOf(was)
    ensures forall b: nat :: b < |was| ==> (Idle(was[b]) && open[b].nodes != {} <==> PbnfScheduler.IsFree(c, s, b))
  {
    forall b: nat | b < |was| ensures Idle(was[b]) && open[b].nodes != {} <==> PbnfScheduler.IsFree(c, s, b) {
      IdleIsFree(c, was, open, b);
    }
  }

  lemma HotDuringMore(c: Config, s: State, n: nat, d: set<nat>, m: nat)
    requires m < |c.scope|
    ensures HotDuring(c, s, n, d + {m}) ==
            if c.scope[m] * (s.inuse - {n}) == {} then HotDuring(c, s, n, d) - {m} else HotDuring(c, s, n, d)
  {
  }

  /** Lowering the sigma of `m`. */
  lemma LowerSigma(c: Config, s: State, n: nat, d: set<nat>, blocks: seq<NBlock>, m: nat)
    requires n in s.inuse && |blocks| == |c.scope| && SigmasDuring(c, s, n, d, blocks)
    requires m < |c.scope| && n in c.scope[m] && m !in d
    ensures 0 < blocks[m].sigma
    ensures blocks[m].sigma - 1 == |c.scope[m] * (s.inuse - {n})|
    ensures SigmasDuring(c, s, n, d + {m}, blocks[m := blocks[m].(sigma := blocks[m].sigma - 1)])
  {
    CardMinus(c.scope[m], s.inuse, n);
  }

  /** Blocks other than those of `d` keep their place in the list, and `d` was not free before. */
  lemma ListKept(c: Config, s: State, blocks: seq<NBlock>, elems: set<nat>, now: seq<NBlock>, added: set<nat>)
    requires |blocks| == |now| == |s.open| && ReleasedList(c, s, blocks, elems)
    requires forall b: nat :: b < |now| && Idle(blocks[b]) ==> Idle(now[b])
    requires forall b: nat :: b in added <==> b < |now| && Idle(now[b]) && !Idle(blocks[b]) && s.open[b] != {}
    requires forall b: nat :: b in added ==> !PbnfScheduler.IsFree(c, s, b)
    ensures ReleasedList(c, s, now, elems + added)
    ensures elems !! added
  {
    hide PbnfScheduler.IsFree;
  }

  /** A lowered sigma of a block that stays hot or was not hot. */
  lemma LowerOne(c: Config, s: State, n: nat, d: set<nat>, blocks: seq<NBlock>, elems: set<nat>, zero: nat, m: nat)
    requires CanRelease(c, s, n) && Releasing(c, s, n, d, blocks, elems, zero)
    requires n < |c.scope| && m in c.scope[n] && m !in d
    ensures m < |blocks| && 0 < blocks[m].sigma && m !in elems
    ensures var b := blocks[m].(sigma := blocks[m].sigma - 1);
            0 < b.sigma || !b.hot ==>
            Releasing(c, s, n, d + {m}, blocks[m := b],
                      if Idle(b) && s.open[m] != {} then elems + {m} else elems,
                      if b.sigma == 0 then zero + 1 else zero)
  {
    hide Config.Valid, WellFormed, Quiet, ListedAreFree, PbnfScheduler.IsFree, ReleasedList, HotDuring,
         InuseOf, HotOf, ZeroOf, SigmasDuring, HotCounted;
    Neighbour(c, m, n);
    NotFreeBeside(c, s, n, m);
    LowerSigma(c, s, n, d, blocks, m);
    HotDuringMore(c, s, n, d, m);
    var b := blocks[m].(sigma := blocks[m].sigma - 1);
    ZeroUpdated(blocks, m, b);
    EmptyCard(c.scope[m] * (s.inuse - {n}));
    LowerFlags(blocks, m, b);
    HotCountKept(c, HotOf(blocks), blocks, m, b);
    ListKept(c, s, blocks, elems, blocks[m := b], if Idle(b) && s.open[m] != {} then {m} else {});
    BusyIsUnlisted(c, s, blocks, elems, m);
  }

  lemma HotCountKept(c: Config, hot: set<nat>, blocks: seq<NBlock>, m: nat, b: NBlock)
    requires |blocks| == |c.scope| && HotCounted(c, hot, blocks) && m < |blocks| && b.sigmaHot == blocks[m].sigmaHot
    ensures HotCounted(c, hot, blocks[m := b])
  {
  }

  lemma BusyIsUnlisted(c: Config, s: State, blocks: seq<NBlock>, elems: set<nat>, m: nat)
    requires |blocks| == |s.open| && ReleasedList(c, s, blocks, elems) && m < |blocks| && !Idle(blocks[m])
    ensures m !in elems
  {
  }

  lemma LowerFlags(blocks: seq<NBlock>, m: nat, b: NBlock)
    requires m < |blocks| && b.inuse == blocks[m].inuse && b.hot == blocks[m].hot
    ensures InuseOf(blocks[m := b]) == InuseOf(blocks) && HotOf(blocks[m := b]) == HotOf(blocks)
    ensures m in HotOf(blocks) <==> blocks[m].hot
  {
  }

  /** What `SetCold` may rely on when the sigma of a hot block has reached zero. */
  lemma BeforeCold(c: Config, s: State, n: nat, d: set<nat>, blocks: seq<NBlock>, elems: set<nat>, zero: nat, m: nat)
    requires CanRelease(c, s, n) && Releasing(c, s, n, d, blocks, elems, zero)
    requires m < |blocks| && blocks[m].hot
    ensures forall b :: b in c.scope[m] ==> b < |blocks| && 0 < blocks[b].sigmaHot && b != m
    ensures forall b :: b in elems ==> b < |blocks| && blocks[b].sigmaHot == 0
  {
    hide Config.Valid, WellFormed, Quiet, ListedAreFree, PbnfScheduler.IsFree, SigmasDuring, HotDuring;
    forall b | b in c.scope[m] ensures b < |blocks| && 0 < blocks[b].sigmaHot && b != m {
      Neighbour(c, b, m);
      assert m in c.scope[b] * HotOf(blocks);
    }
  }

  lemma CooledFlags(blocks: seq<NBlock>, m: nat, now: seq<NBlock>, scope: set<nat>)
    requires m < |blocks| && blocks[m].hot && Cooled(blocks, now, m, scope)
    ensures InuseOf(now) == InuseOf(blocks) && HotOf(now) == HotOf(blocks) - {m} && ZeroOf(now) == ZeroOf(blocks)
    ensures |now| == |blocks|
  {
  }

  lemma CooledCounted(c: Config, hot: set<nat>, blocks: seq<NBlock>, m: nat, now: seq<NBlock>)
    requires c.Valid() && |blocks| == |c.scope| && HotCounted(c, hot, blocks) && m < |blocks| && m in hot
    requires Cooled(blocks, now, m, c.scope[m])
    ensures HotCounted(c, hot - {m}, now)
  {
    hide Config.Valid;
    forall b: nat | b < |now| ensures now[b].sigmaHot == |c.scope[b] * (hot - {m})| {
      CardMinus(c.scope[b], hot, m);
      if b in c.scope[m] { Neighbour(c, b, m); }
      if m in c.scope[b] { Neighbour(c, m, b); }
    }
  }

  /** What becomes idle when `m` goes cold was not free before the release: it
      interferes with a hot block, or it is `m`, whose sigma was not zero. */
  lemma CooledList(c: Config, s: State, n: nat, blocks: seq<NBlock>, elems: set<nat>, m: nat, now: seq<NBlock>, open: seq<OpenList>)
    requires c.Valid() && |blocks| == |s.open| == |c.scope| && ReleasedList(c, s, blocks, elems)
    requires s.open == NodesOf(open) && m < |blocks| && m in s.hot && 0 < blocks[m].sigma
    requires n < |c.scope| && n in s.inuse && m in c.scope[n]
    requires Cooled(blocks[m := blocks[m].(sigma := 0)], now, m, c.scope[m])
    ensures ReleasedList(c, s, now, elems + IdleIn(now, open, c.scope[m]) + (if Idle(now[m]) && s.open[m] != {} then {m} else {}))
    ensures m !in elems && m !in IdleIn(now, open, c.scope[m])
  {
    hide Config.Valid;
    NotOwnNeighbour(c, m);
    NotFreeBeside(c, s, n, m);
    forall b | b in c.scope[m] ensures b < |c.scope| && !PbnfScheduler.IsFree(c, s, b) {
      Neighbour(c, b, m);
      NotFreeBeside(c, s, m, b);
    }
    hide PbnfScheduler.IsFree;
    var added := IdleIn(now, open, c.scope[m]) + (if Idle(now[m]) && s.open[m] != {} then {m} else {});
    ListKept(c, s, blocks, elems, now, added);
    assert elems + added ==
      elems + IdleIn(now, open, c.scope[m]) + (if Idle(now[m]) && s.open[m] != {} then {m} else {});
  }

  lemma CooledSigmas(c: Config, s: State, n: nat, d: set<nat>, blocks: seq<NBlock>, m: nat, now: seq<NBlock>)
    requires |blocks| == |c.scope| && SigmasDuring(c, s, n, d, blocks) && m < |blocks|
    requires Cooled(blocks, now, m, c.scope[m])
    ensures SigmasDuring(c, s, n, d, now)
  {
  }

  /** Cooling the hot block whose sigma has just reached zero. */
  lemma LowerHot(c: Config, s: State, n: nat, d: set<nat>, blocks: seq<NBlock>, elems: set<nat>, zero: nat, m: nat,
                 now: seq<NBlock>, open: seq<OpenList>)
    requires CanRelease(c, s, n) && Releasing(c, s, n, d, blocks, elems, zero) && s.open == NodesOf(open)
    requires n < |c.scope| && m in c.scope[n] && m !in d && m < |blocks| && blocks[m].hot && blocks[m].sigma == 1
    requires Cooled(blocks[m := blocks[m].(sigma := 0)], now, m, c.scope[m])
    ensures Releasing(c, s, n, d + {m}, now,
                      elems + IdleIn(now, open, c.scope[m]) + (if Idle(now[m]) && s.open[m] != {} then {m} else {}),
                      zero + 1)
    ensures m !in elems && m !in IdleIn(now, open, c.scope[m])
  {
    hide Config.Valid, WellFormed, Quiet, ListedAreFree, PbnfScheduler.IsFree;
    var mid := blocks[m := blocks[m].(sigma := 0)];
    Neighbour(c, m, n);
    LowerFlags(blocks, m, mid[m]);
    assert m in s.hot;
    CooledList(c, s, n, blocks, elems, m, now, open);
    LowerSigma(c, s, n, d, blocks, m);
    EmptyCard(c.scope[m] * (s.inuse - {n}));
    HotDuringMore(c, s, n, d, m);
    CooledSigmas(c, s, n, d + {m}, mid, m, now);
    assert HotCounted(c, HotOf(blocks), mid);
    CooledCounted(c, HotOf(blocks), mid, m, now);
    CooledFlags(mid, m, now, c.scope[m]);
    ZeroUpdated(blocks, m, mid[m]);
    hide ReleasedList, HotDuring, InuseOf, HotOf, ZeroOf, SigmasDuring, HotCounted, Cooled, IdleIn, Idle;
  }

  /** When the whole scope has been treated, the release is complete. */
  lemma EndRelease(c: Config, s: State, n: nat, blocks: seq<NBlock>, elems: set<nat>, zero: nat)
    requires CanRelease(c, s, n) && n < |c.scope| && Releasing(c, s, n, c.scope[n], blocks, elems, zero)
    ensures Exact(c, blocks, zero)
    ensures var r := Release(c, s, n);
            InuseOf(blocks) == r.inuse && HotOf(blocks) == r.hot && elems == r.listed && r.open == s.open
  {
    hide Config.Valid, WellFormed, Quiet, ListedAreFree, PbnfScheduler.IsFree, ReleasedList, HotDuring,
         InuseOf, HotOf, ZeroOf, SigmasDuring, HotCounted, Counted;
    EndHot(c, s, n);
    EndSigmas(c, s, n, blocks);
    EndList(c, s, n, blocks, elems);
  }

  lemma EndHot(c: Config, s: State, n: nat)
    requires c.Valid() && Quiet(c, s.inuse, s.hot) && n < |c.scope|
    ensures HotDuring(c, s, n, c.scope[n]) == StillHot(c, s.hot, s.inuse - {n})
  {
    hide Config.Valid;
    forall b | b in s.hot && b !in c.scope[n] ensures b < |c.scope| && c.scope[b] * (s.inuse - {n}) != {} {
      if n in c.scope[b] { Neighbour(c, n, b); }
      assert c.scope[b] * (s.inuse - {n}) == c.scope[b] * s.inuse;
    }
  }

  lemma EndSigmas(c: Config, s: State, n: nat, blocks: seq<NBlock>)
    requires c.Valid() && n in s.inuse && n < |c.scope| == |blocks|
    requires SigmasDuring(c, s, n, c.scope[n], blocks) && HotCounted(c, HotOf(blocks), blocks)
    requires InuseOf(blocks) == s.inuse - {n}
    ensures Counted(c, blocks, InuseOf(blocks), HotOf(blocks))
  {
    hide Config.Valid, InuseOf, HotOf;
    forall b: nat | b < |blocks| ensures blocks[b].sigma == |c.scope[b] * (s.inuse - {n})| {
      CardMinus(c.scope[b], s.inuse, n);
      if n in c.scope[b] { Neighbour(c, n, b); }
    }
  }

  lemma EndList(c: Config, s: State, n: nat, blocks: seq<NBlock>, elems: set<nat>)
    requires |blocks| == |c.scope| == |s.open| && ReleasedList(c, s, blocks, elems)
    requires Counted(c, blocks, InuseOf(blocks), HotOf(blocks))
    requires InuseOf(blocks) == s.inuse - {n} && HotOf(blocks) == StillHot(c, s.hot, s.inuse - {n})
    ensures elems == Release(c, s, n).listed
  {
    forall b: nat | b < |blocks|
      ensures Idle(blocks[b]) && s.open[b] != {} <==> c.Free(InuseOf(blocks), HotOf(blocks), s.open, b)
    {
      assert |c.scope[b] * InuseOf(blocks)| == 0 <==> c.scope[b] * InuseOf(blocks) == {};
      assert |c.scope[b] * HotOf(blocks)| == 0 <==> c.scope[b] * HotOf(blocks) == {};
    }
  }

  // ----- heating and cooling -----

  ghost predicate HotRaised(c: Config, hot: set<nat>, raised: set<nat>, blocks: seq<NBlock>)
    requires |blocks| == |c.scope|
  {
    forall b: nat :: b < |blocks| ==> blocks[b].sigmaHot == |c.scope[b] * hot| + if b in raised then 1 else 0
  }

  ghost predicate SigmaCounted(c: Config, inuse: set<nat>, blocks: seq<NBlock>)
    requires |blocks| == |c.scope|
  {
    forall b: nat :: b < |blocks| ==> blocks[b].sigma == |c.scope[b] * inuse|
  }

  /** The state of a loop that makes the hot blocks of `d` cold and raises
      `sigmaHot` in `raised`; `news` holds the block that was made hot. */
  ghost predicate Reheating(c: Config, s: State, d: set<nat>, raised: set<nat>, news: set<nat>,
                            blocks: seq<NBlock>, elems: set<nat>, zero: nat) {
    && |blocks| == |s.open| == |c.scope|
    && InuseOf(blocks) == s.inuse
    && HotOf(blocks) == s.hot - d + news
    && SigmaCounted(c, s.inuse, blocks)
    && HotRaised(c, s.hot - d, raised, blocks)
    && zero == |ZeroOf(blocks)|
    && ReleasedList(c, s, blocks, elems)
  }

  ghost predicate CanReheat(c: Config, s: State) {
    c.Valid() && WellFormed(c, s) && Quiet(c, s.inuse, s.hot) && ListedAreFree(c, s)
  }

  lemma StartReheat(c: Config, s: State, blocks: seq<NBlock>, open: seq<OpenList>, zero: nat)
    requires CanReheat(c, s) && Exact(c, blocks, zero) && s.open == NodesOf(open)
    requires s.inuse == InuseOf(blocks) && s.hot == HotOf(blocks)
    ensures Reheating(c, s, {}, {}, {}, blocks, s.listed, zero)
  {
    hide Config.Valid, Quiet, Config.Free, InuseOf, HotOf, ReleasedList, HotRaised, SigmaCounted, NodesOf, ListedAreFree;
    NodesLength(open);
    assert s.hot - {} + {} == s.hot && s.hot - {} == s.hot;
    StartReheatList(c, s, blocks, open);
    StartReheatCounts(c, s, blocks);
  }

  lemma StartReheatCounts(c: Config, s: State, blocks: seq<NBlock>)
    requires |blocks| == |c.scope| && Counted(c, blocks, s.inuse, s.hot)
    ensures SigmaCounted(c, s.inuse, blocks) && HotRaised(c, s.hot, {}, blocks)
  {
  }

  lemma StartReheatList(c: Config, s: State, blocks: seq<NBlock>, open: seq<OpenList>)
    requires |blocks| == |c.scope| == |open| && s.open == NodesOf(open) && ListedAreFree(c, s)
    requires Counted(c, blocks, InuseOf(blocks), HotOf(blocks))
    requires s.inuse == InuseOf(blocks) && s.hot == HotOf(blocks)
    ensures ReleasedList(c, s, blocks, s.listed)
  {
    forall b: nat | b < |blocks| ensures Idle(blocks[b]) && open[b].nodes != {} <==> PbnfScheduler.IsFree(c, s, b) {
      IdleIsFree(c, blocks, open, b);
    }
    hide Counted, Config.Free, InuseOf, HotOf;
  }

  /** Setting the flag of the block that is to be hot. */
  lemma FlagHot(c: Config, s: State, blocks: seq<NBlock>, zero: nat, b: nat)
    requires Reheating(c, s, {}, {}, {}, blocks, s.listed, zero) && b < |blocks|
    ensures Reheating(c, s, {}, {}, {b}, blocks[b := blocks[b].(hot := true)], s.listed, zero)
  {
    hide InuseOf, HotOf, ZeroOf, HotRaised, SigmaCounted, ReleasedList, PbnfScheduler.IsFree;
    var x := blocks[b].(hot := true);
    FlagSet(blocks, b);
    CountsKept(c, s.inuse, s.hot - {}, {}, blocks, b, x);
    ListUpdated(c, s, blocks, s.listed, b, x);
    assert s.hot - {} + {} + {b} == s.hot - {} + {b};
  }

  lemma FlagSet(blocks: seq<NBlock>, b: nat)
    requires b < |blocks|
    ensures var now := blocks[b := blocks[b].(hot := true)];
            InuseOf(now) == InuseOf(blocks) && ZeroOf(now) == ZeroOf(blocks) && HotOf(now) == HotOf(blocks) + {b}
  {
  }

  lemma CountsKept(c: Config, inuse: set<nat>, hot: set<nat>, raised: set<nat>, blocks: seq<NBlock>, m: nat, b: NBlock)
    requires |blocks| == |c.scope| && SigmaCounted(c, inuse, blocks) && HotRaised(c, hot, raised, blocks)
    requires m < |blocks| && b.sigma == blocks[m].sigma
    requires b.sigmaHot == blocks[m].sigmaHot || (b.sigmaHot == blocks[m].sigmaHot + 1 && m !in raised)
    ensures SigmaCounted(c, inuse, blocks[m := b])
    ensures HotRaised(c, hot, if b.sigmaHot == blocks[m].sigmaHot then raised else raised + {m}, blocks[m := b])
  {
  }

  /** Replacing the fields of a block: it leaves the list if it is no longer idle. */
  lemma ListUpdated(c: Config, s: State, blocks: seq<NBlock>, elems: set<nat>, m: nat, b: NBlock)
    requires |blocks| == |s.open| && ReleasedList(c, s, blocks, elems) && m < |blocks|
    requires Idle(b) ==> Idle(blocks[m])
    ensures ReleasedList(c, s, blocks[m := b], if Idle(b) == Idle(blocks[m]) then elems else elems - {m})
    ensures !Idle(b) && Idle(b) == Idle(blocks[m]) ==> m !in elems
  {
    hide PbnfScheduler.IsFree;
  }

  /** Passing a block that is not hot. */
  lemma SkipCold(c: Config, s: State, d: set<nat>, raised: set<nat>, news: set<nat>,
                 blocks: seq<NBlock>, elems: set<nat>, zero: nat, m: nat)
    requires Reheating(c, s, d, raised, news, blocks, elems, zero) && m < |blocks| && !blocks[m].hot
    ensures Reheating(c, s, d + {m}, raised, news, blocks, elems, zero)
  {
    hide ReleasedList, SigmaCounted;
    assert m !in HotOf(blocks);
    assert s.hot - (d + {m}) == s.hot - d;
  }

  /** What `SetCold` may rely on for a block that was hot before. */
  lemma BeforeCool(c: Config, s: State, d: set<nat>, raised: set<nat>, news: set<nat>,
                   blocks: seq<NBlock>, elems: set<nat>, zero: nat, m: nat)
    requires c.Valid() && Reheating(c, s, d, raised, news, blocks, elems, zero)
    requires m < |blocks| && m in s.hot && m !in d
    ensures forall b :: b in c.scope[m] ==> b < |blocks| && 0 < blocks[b].sigmaHot && b != m
    ensures forall b :: b in elems ==> b < |blocks| && blocks[b].sigmaHot == 0
  {
    hide Config.Valid, PbnfScheduler.IsFree, SigmaCounted;
    forall b | b in c.scope[m] ensures b < |blocks| && 0 < blocks[b].sigmaHot && b != m {
      Neighbour(c, b, m);
      assert m in c.scope[b] * (s.hot - d);
    }
  }

  lemma CooledRaised(c: Config, hot: set<nat>, raised: set<nat>, blocks: seq<NBlock>, m: nat, now: seq<NBlock>)
    requires c.Valid() && |blocks| == |c.scope| && HotRaised(c, hot, raised, blocks) && m < |blocks| && m in hot
    requires Cooled(blocks, now, m, c.scope[m])
    ensures HotRaised(c, hot - {m}, raised, now)
  {
    hide Config.Valid;
    forall b: nat | b < |now|
      ensures now[b].sigmaHot == |c.scope[b] * (hot - {m})| + if b in raised then 1 else 0
    {
      CardMinus(c.scope[b], hot, m);
      if b in c.scope[m] { Neighbour(c, b, m); }
      if m in c.scope[b] { Neighbour(c, m, b); }
    }
  }

  /** Making a hot block cold: what becomes idle interferes with a block that was hot. */
  lemma CoolHot(c: Config, s: State, d: set<nat>, raised: set<nat>, news: set<nat>,
                blocks: seq<NBlock>, elems: set<nat>, zero: nat, m: nat, now: seq<NBlock>, open: seq<OpenList>)
    requires c.Valid() && Reheating(c, s, d, raised, news, blocks, elems, zero) && s.open == NodesOf(open)
    requires m < |blocks| && m in s.hot && m !in d && m !in news && Cooled(blocks, now, m, c.scope[m])
    ensures Reheating(c, s, d + {m}, raised, news, now, elems + IdleIn(now, open, c.scope[m]), zero)
    ensures m !in IdleIn(now, open, c.scope[m])
  {
    hide Config.Valid, SigmaCounted, HotRaised, ReleasedList, Cooled, IdleIn, InuseOf, HotOf, ZeroOf;
    NotOwnNeighbour(c, m);
    OwnScopeIdle(now, open, c.scope[m], m);
    CoolHotList(c, s, blocks, elems, m, now, open);
    HotFlag(blocks, m);
    CooledFlags(blocks, m, now, c.scope[m]);
    CooledRaised(c, s.hot - d, raised, blocks, m, now);
    CooledSigmaCounted(c, s.inuse, blocks, m, now);
    assert s.hot - d - {m} == s.hot - (d + {m});
    assert s.hot - d + news - {m} == s.hot - (d + {m}) + news;
  }

  lemma OwnScopeIdle(blocks: seq<NBlock>, open: seq<OpenList>, d: set<nat>, m: nat)
    requires m !in d
    ensures m !in IdleIn(blocks, open, d)
  {
  }

  lemma HotFlag(blocks: seq<NBlock>, m: nat)
    requires m in HotOf(blocks)
    ensures m < |blocks| && blocks[m].hot
  {
  }

  lemma CooledSigmaCounted(c: Config, inuse: set<nat>, blocks: seq<NBlock>, m: nat, now: seq<NBlock>)
    requires |blocks| == |c.scope| && SigmaCounted(c, inuse, blocks) && m < |blocks| && Cooled(blocks, now, m, c.scope[m])
    ensures SigmaCounted(c, inuse, now)
  {
  }

  lemma CoolHotList(c: Config, s: State, blocks: seq<NBlock>, elems: set<nat>, m: nat, now: seq<NBlock>, open: seq<OpenList>)
    requires c.Valid() && |blocks| == |s.open| == |c.scope| && ReleasedList(c, s, blocks, elems)
    requires s.open == NodesOf(open) && m < |blocks| && m in s.hot
    requires Cooled(blocks, now, m, c.scope[m])
    ensures ReleasedList(c, s, now, elems + IdleIn(now, open, c.scope[m]))
  {
    hide Config.Valid;
    NotOwnNeighbour(c, m);
    forall b | b in c.scope[m] ensures b < |c.scope| && !PbnfScheduler.IsFree(c, s, b) {
      Neighbour(c, b, m);
      NotFreeBeside(c, s, m, b);
    }
    hide PbnfScheduler.IsFree;
    ListKept(c, s, blocks, elems, now, IdleIn(now, open, c.scope[m]));
  }

  /** Raising `sigmaHot` of a block, which takes it off the list. */
  lemma RaiseHot(c: Config, s: State, d: set<nat>, raised: set<nat>, news: set<nat>,
                 blocks: seq<NBlock>, elems: set<nat>, zero: nat, m: nat)
    requires Reheating(c, s, d, raised, news, blocks, elems, zero) && m < |blocks| && m !in raised
    ensures Reheating(c, s, d, raised + {m}, news,
                      blocks[m := blocks[m].(sigmaHot := blocks[m].sigmaHot + 1)], elems - {m}, zero)
  {
    hide InuseOf, HotOf, ZeroOf, HotRaised, SigmaCounted, ReleasedList, PbnfScheduler.IsFree;
    var b := blocks[m].(sigmaHot := blocks[m].sigmaHot + 1);
    ZeroUpdated(blocks, m, b);
    LowerFlags(blocks, m, b);
    CountsKept(c, s.inuse, s.hot - d, raised, blocks, m, b);
    ListUpdated(c, s, blocks, elems, m, b);
    assert m !in elems ==> elems - {m} == elems;
  }

  /** When every hot block of the scope is cold, the counters are exact again. */
  lemma EndReheat(c: Config, s: State, scope: set<nat>, raised: set<nat>, news: set<nat>,
                  blocks: seq<NBlock>, elems: set<nat>, zero: nat)
    requires CanReheat(c, s) && Reheating(c, s, scope, raised, news, blocks, elems, zero)
    requires (raised == {} && news == {}) ||
             (exists b: nat :: b < |c.scope| && raised == c.scope[b] && news == {b} && b !in s.hot - scope)
    ensures Exact(c, blocks, zero)
    ensures elems == Relist(c, s, s.inuse, s.hot - scope + news)
  {
    hide Config.Valid, WellFormed, Quiet, ListedAreFree, ReleasedList, Config.Free, InuseOf, HotOf, ZeroOf;
    var hot := s.hot - scope;
    if news == {} {
      assert hot + news == hot;
    } else {
      var b: nat :| b < |c.scope| && raised == c.scope[b] && news == {b} && b !in hot;
      forall x: nat | x < |blocks| ensures blocks[x].sigmaHot == |c.scope[x] * (hot + news)| {
        CardPlus(c.scope[x], hot, b);
        if x in c.scope[b] { Neighbour(c, x, b); }
        if b in c.scope[x] { Neighbour(c, b, x); }
      }
    }
    EndReheatList(c, s, hot + news, blocks, elems);
  }

  lemma EndReheatList(c: Config, s: State, hot: set<nat>, blocks: seq<NBlock>, elems: set<nat>)
    requires |blocks| == |c.scope| == |s.open| && ReleasedList(c, s, blocks, elems)
    requires Counted(c, blocks, s.inuse, hot) && InuseOf(blocks) == s.inuse
    ensures elems == Relist(c, s, s.inuse, hot)
  {
    forall b: nat | b < |blocks|
      ensures Idle(blocks[b]) && s.open[b] != {} <==> c.Free(s.inuse, hot, s.open, b)
    {
      EmptyCard(c.scope[b] * s.inuse);
      EmptyCard(c.scope[b] * hot);
    }
  }

  /** A block that may be made hot: it is cold and a block of its scope is in use. */
  ghost predicate Heatable(c: Config, s: State, b: nat) {
    b < |c.scope| && b !in s.hot && c.scope[b] * s.inuse != {}
  }

  /** No hot block of `d` has a better value than `val`. */
  ghost predicate Preferred(blocks: seq<NBlock>, open: seq<OpenList>, d: set<nat>, val: nat) {
    forall m :: m in d && m < |blocks| && m < |open| && blocks[m].hot ==> val <= open[m].best
  }

  /** Which blocks are hot after `b` has been made hot. */
  lemma HeatedFlags(c: Config, s: State, was: seq<NBlock>, now: seq<NBlock>, b: nat)
    requires b < |c.scope| == |was| == |now| && s.hot == HotOf(was) && HotOf(now) == Heat(c, s, b).hot
    ensures forall m: nat :: m < |now| ==> (now[m].hot <==> m == b || (was[m].hot && m !in c.scope[b]))
  {
    forall m: nat | m < |now| ensures now[m].hot <==> m == b || (was[m].hot && m !in c.scope[b]) {
      assert now[m].hot <==> m in HotOf(now);
      assert was[m].hot <==> m in HotOf(was);
    }
  }

  /** A hot block still waits for something without `n`. */
  lemma StillWaits(c: Config, inuse: set<nat>, m: nat, n: nat, sigma: nat)
    requires c.Valid() && n < |c.scope| && m < |c.scope| && n in inuse && sigma == |c.scope[m] * inuse| && 0 < sigma
    ensures c.scope[m] * (inuse - {n}) != {} <==> m !in c.scope[n] || 1 < sigma
  {
    CardMinus(c.scope[m], inuse, n);
    EmptyCard(c.scope[m] * (inuse - {n}));
    if m in c.scope[n] { Neighbour(c, m, n); }
    if n in c.scope[m] { Neighbour(c, n, m); }
  }

  lemma HotWaits(c: Config, inuse: set<nat>, hot: set<nat>, m: nat)
    requires Quiet(c, inuse, hot) && m in hot
    ensures m < |c.scope| && 0 < |c.scope[m] * inuse|
  {
    EmptyCard(c.scope[m] * inuse);
  }

  /** Which blocks are in use and hot after `n` has been given back: a hot block of
      its scope goes cold if `n` was all that it waited for. */
  lemma ReleasedFlags(c: Config, s: State, was: seq<NBlock>, now: seq<NBlock>, n: nat)
    requires CanRelease(c, s, n) && n < |c.scope| == |was| == |now| && Counted(c, was, InuseOf(was), HotOf(was))
    requires s.inuse == InuseOf(was) && s.hot == HotOf(was)
    requires InuseOf(now) == Release(c, s, n).inuse && HotOf(now) == Release(c, s, n).hot
    ensures forall m: nat :: m < |now| ==> (now[m].inuse <==> was[m].inuse && m != n)
    ensures forall m: nat :: m < |now| ==> (now[m].hot <==> was[m].hot && (m !in c.scope[n] || 1 < was[m].sigma))
  {
    hide Config.Valid, WellFormed, ListedAreFree, Relist, Quiet;
    forall m: nat | m < |now|
      ensures now[m].inuse <==> was[m].inuse && m != n
      ensures now[m].hot <==> was[m].hot && (m !in c.scope[n] || 1 < was[m].sigma)
    {
      assert now[m].inuse <==> m in InuseOf(now);
      assert now[m].hot <==> m in HotOf(now);
      if was[m].hot {
        HotWaits(c, s.inuse, s.hot, m);
        StillWaits(c, s.inuse, m, n, was[m].sigma);
      }
    }
  }

  /** A single signal is sent if the block has open nodes and no hot block is in its scope. */
  lemma AtOnceMeans(c: Config, s: State, was: seq<NBlock>, open: seq<OpenList>, n: nat)
    requires CanRelease(c, s, n) && n < |c.scope| == |was| == |open| && s.hot == HotOf(was) && s.open == NodesOf(open)
    ensures AtOnce(c, s, n) <==> open[n].nodes != {} && forall m :: m in c.scope[n] && m < |was| ==> !was[m].hot
  {
    hide WellFormed, ListedAreFree;
    NodesLength(open);
    assert c.scope[n] * (s.inuse - {n}) == c.scope[n] * s.inuse == {};
    assert forall m: nat :: m < |was| ==> (was[m].hot <==> m in s.hot);
    assert c.scope[n] !! s.hot <==> forall m :: m in c.scope[n] ==> m !in s.hot;
  }

  /** Which blocks are listed after the one that is given back. */
  lemma LaterIs(c: Config, s: State, n: nat, signal: bool)
    requires signal <==> AtOnce(c, s, n)
    ensures Later(c, s, n) != {} <==> exists m :: m in Release(c, s, n).listed && m !in s.listed && (m != n || !signal)
  {
    hide Release, AtOnce;
    if m :| m in Release(c, s, n).listed && m !in s.listed && (m != n || !signal) {
      assert m in Later(c, s, n);
    }
    if m :| m in Later(c, s, n) {
      assert m in Release(c, s, n).listed && m !in s.listed;
    }
  }

  /** Which blocks are hot after those of a scope have been made cold. */
  lemma CooledScope(c: Config, s: State, was: seq<NBlock>, now: seq<NBlock>, b: nat)
    requires b < |c.scope| == |was| == |now| && s.hot == HotOf(was) && HotOf(now) == Cool(c, s, b).hot
    ensures forall m: nat :: m < |now| ==> (now[m].hot <==> was[m].hot && m !in c.scope[b])
  {
    forall m: nat | m < |now| ensures now[m].hot <==> was[m].hot && m !in c.scope[b] {
      assert now[m].hot <==> m in HotOf(now);
      assert was[m].hot <==> m in HotOf(was);
    }
  }

  lemma CoolQuiet(c: Config, s: State, b: nat)
    requires c.Valid() && WellFormed(c, s) && Quiet(c, s.inuse, s.hot) && b < |c.scope|
    ensures Quiet(c, s.inuse, s.hot - c.scope[b])
  {
  }

  lemma RelistSame(c: Config, s: State)
    requires ListedAreFree(c, s)
    ensures Relist(c, s, s.inuse, s.hot) == s.listed
  {
  }

  /** A block that is hot while its scope is treated was hot before, is busy and not listed. */
  lemma BeforeSetCold(c: Config, s: State, d: set<nat>, raised: set<nat>, news: set<nat>,
                      blocks: seq<NBlock>, elems: set<nat>, zero: nat, m: nat)
    requires CanReheat(c, s) && Reheating(c, s, d, raised, news, blocks, elems, zero)
    requires m < |blocks| && m !in d && m !in news
    ensures blocks[m].hot ==> m in s.hot && m !in elems && !Idle(blocks[m])
    ensures blocks[m].hot ==> forall b :: b in c.scope[m] ==> b < |blocks| && 0 < blocks[b].sigmaHot && b != m
    ensures forall b :: b in elems ==> b < |blocks| && blocks[b].sigmaHot == 0
  {
    hide Config.Valid, PbnfScheduler.IsFree, ListedAreFree;
    if blocks[m].hot {
      assert m in HotOf(blocks);
      Disjoint(c.scope[m], s.inuse);
      BeforeCool(c, s, d, raised, news, blocks, elems, zero, m);
    }
  }

  /** What the loop of `SetHot` finds at the next block of the scope. */
  lemma BeforeHeat(c: Config, s: State, d: set<nat>, b: nat, blocks: seq<NBlock>, elems: set<nat>, zero: nat, m: nat,
                   open: seq<OpenList>)
    requires CanReheat(c, s) && Reheating(c, s, d, d, {b}, blocks, elems, zero) && s.open == NodesOf(open)
    requires m < |blocks| && m !in d && m != b
    ensures blocks[m].hot ==> m in s.hot && m !in elems && !Idle(blocks[m])
    ensures blocks[m].hot ==> forall b :: b in c.scope[m] ==> b < |blocks| && 0 < blocks[b].sigmaHot && b != m
    ensures forall b :: b in elems ==> b < |blocks| && blocks[b].sigmaHot == 0
    ensures |open| == |blocks| && (m in elems ==> Idle(blocks[m]) && open[m].nodes != {})
  {
    BeforeSetCold(c, s, d, d, {b}, blocks, elems, zero, m);
    hide Config.Valid, PbnfScheduler.IsFree, ListedAreFree, InuseOf, HotOf, HotRaised, SigmaCounted;
  }

  /** The blocks that become free when `m` goes cold after the hot blocks of `d`
      have, unless they have been turned to already. */
  ghost function FreedBy(c: Config, s: State, d: set<nat>, m: nat): set<nat>
    requires m < |c.scope|
  {
    set y | y in c.scope[m] && y !in d && c.Free(s.inuse, s.hot - (d + {m}), s.open, y)
  }

  /** One of the first `k` blocks of the scope `order` is hot and frees some block when it goes cold in its turn. */
  ghost predicate FreesInPassing(c: Config, s: State, order: seq<nat>, k: nat)
    requires k <= |order|
  {
    exists i: nat :: i < k && order[i] < |c.scope| && order[i] in s.hot &&
      FreedBy(c, s, Elements(order[..i]), order[i]) != {}
  }

  lemma FreesNothing(c: Config, s: State, order: seq<nat>)
    ensures !FreesInPassing(c, s, order, 0)
  {
  }

  lemma FreesMore(c: Config, s: State, order: seq<nat>, k: nat)
    requires k < |order| && order[k] < |c.scope|
    ensures FreesInPassing(c, s, order, k + 1) <==>
            FreesInPassing(c, s, order, k) || (order[k] in s.hot && FreedBy(c, s, Elements(order[..k]), order[k]) != {})
  {
    hide FreedBy;
  }

  /** What the counters call free after the cooling is what has become free. */
  lemma FreedAre(c: Config, s: State, d: set<nat>, news: set<nat>, now: seq<NBlock>, elems: set<nat>, zero: nat, m: nat,
                 open: seq<OpenList>)
    requires m < |c.scope| && Reheating(c, s, d + {m}, d, news, now, elems, zero) && s.open == NodesOf(open)
    ensures IdleIn(now, open, c.scope[m]) == FreedBy(c, s, d, m)
  {
    NodesLength(open);
    forall y | y in c.scope[m] && y < |now|
      ensures Idle(now[y]) && open[y].nodes != {} <==> y !in d && c.Free(s.inuse, s.hot - (d + {m}), s.open, y)
    {
      EmptyCard(c.scope[y] * s.inuse);
      EmptyCard(c.scope[y] * (s.hot - (d + {m})));
    }
  }

  lemma ColdIsCold(c: Config, s: State, d: set<nat>, raised: set<nat>, news: set<nat>,
                   blocks: seq<NBlock>, elems: set<nat>, zero: nat, m: nat)
    requires Reheating(c, s, d, raised, news, blocks, elems, zero) && m < |blocks| && m !in d && !blocks[m].hot
    ensures m !in s.hot
  {
    hide SigmaCounted, HotRaised, ReleasedList;
    assert m !in HotOf(blocks);
  }

  // ----- the graph -----

  class NBlockGraph {
    ghost const c: Config
    const interferes: seq<seq<nat>>
    const weight: real
    const freeList: PriorityQueue<nat>
    var blocks: seq<NBlock>
    var open: seq<OpenList>
    var numSigmaZero: nat
    var done: bool

    /** The parts that never change fit together. */
    ghost predicate Fixed()
    {
      && c.Valid() && weight == c.boundWeight
      && |interferes| == |c.scope|
      && forall b: nat :: b < |interferes| ==> Ascending(interferes[b], c.scope[b])
    }

    /** The free list is a heap for the current keys. */
    ghost predicate Queue()
      reads this`open, freeList, freeList.heap
    {
      && freeList.Valid() && freeList.OutIsOut() && freeList.HeapOrdered(Before(open))
      && forall b :: b in freeList.Elems ==> b < |open|
    }

    ghost predicate Shape()
      reads this, freeList, freeList.heap
    {
      && Fixed() && Queue()
      && |blocks| == |open| == |c.scope|
      && forall b: nat :: b < |open| ==> Published(c, open[b])
    }

    /** What the counters stand for; the bound and the threads are not kept here. */
    ghost function View(): State
      reads this, freeList
    {
      State(InuseOf(blocks), HotOf(blocks), freeList.Elems, NodesOf(open), 0, done, map[])
    }

    ghost predicate Valid()
      reads this, freeList, freeList.heap
    {
      && Shape()
      && Exact(c, blocks, numSigmaZero)
      && Quiet(c, InuseOf(blocks), HotOf(blocks))
      && ListedAreFree(c, View())
    }

    predicate IsFree(b: nat)
      requires b < |blocks| && b < |open|
      reads this
    {
      !blocks[b].inuse && blocks[b].sigma == 0 && blocks[b].sigmaHot == 0 && open[b].nodes != {}
    }

    /** Only the initial state is open, in its own block, and that block is free. */
    constructor (ghost cfg: Config, arrays: seq<seq<nat>>, boundWeight: real, init: nat, initial: Node, best: nat)
      requires cfg.Valid() && boundWeight == cfg.boundWeight && |arrays| == |cfg.scope|
      requires forall b: nat :: b < |arrays| ==> Ascending(arrays[b], cfg.scope[b])
      requires init < |arrays| && best == cfg.FPrimeOf(initial)
      ensures Valid() && c == cfg && interferes == arrays && fresh(freeList) && fresh(freeList.heap)
      ensures InuseOf(blocks) == {} && HotOf(blocks) == {} && !done
      ensures freeList.Elems == {init}
      ensures open == OneOpen(|arrays|, init, initial, best)
    {
      c := cfg;
      interferes := arrays;
      weight := boundWeight;
      blocks := NewBlocks(|arrays|);
      open := OneOpen(|arrays|, init, initial, best);
      numSigmaZero := |arrays|;
      done := false;
      freeList := new PriorityQueue<nat>();
      new;
      StartCounts(c, blocks, open, init, initial, best);
      StartPublished(c, |arrays|, init, initial);
      hide *;
      StartShape();
      List(init);
      ListKeeps(init);
    }

    lemma StartShape()
      requires Fixed() && freeList.Valid() && freeList.OutIsOut() && freeList.Elems == {}
      requires |blocks| == |open| == |c.scope|
      requires forall b: nat :: b < |open| ==> Published(c, open[b])
      ensures Shape() && |blocks| == |open|
    {
    }

    lemma ListKeeps(init: nat)
      requires Shape() && Exact(c, blocks, numSigmaZero) && Quiet(c, InuseOf(blocks), HotOf(blocks))
      requires freeList.Elems == {init} && c.Free(InuseOf(blocks), HotOf(blocks), NodesOf(open), init)
      ensures Valid()
    {
    }

    method List(b: nat)
      requires Shape() && b < |blocks| && b !in freeList.Elems
      modifies freeList, freeList.heap
      ensures Shape() && freeList.Elems == old(freeList.Elems) + {b}
      ensures freeList.heap == old(freeList.heap) || fresh(freeList.heap)
    {
      BeforeIsStrictWeakOrder(open);
      hide StrictWeakOrder, Before, Config.Valid, Inverse, Published;
      freeList.Add(Before(open), b);
    }

    method Unlist(b: nat)
      requires Shape() && b in freeList.Elems
      modifies freeList, freeList.heap
      ensures Shape() && freeList.Elems == old(freeList.Elems) - {b}
      ensures freeList.heap == old(freeList.heap)
    {
      BeforeIsStrictWeakOrder(open);
      assert 0 <= freeList.IndexOf(b) < freeList.fill && freeList.heap[freeList.IndexOf(b)] == b;
      hide StrictWeakOrder, Before, Config.Valid, Inverse, Published;
      freeList.Remove(Before(open), freeList.IndexOf(b));
    }

    /** Raises sigma in the scope of the block just taken. */
    method RaiseScopeSigmas(n: nat)
      requires Shape() && n < |blocks| && numSigmaZero == |ZeroOf(blocks)|
      requires forall b :: b in freeList.Elems ==> Idle(blocks[b]) && open[b].nodes != {}
      modifies this`blocks, this`numSigmaZero, freeList, freeList.heap
      ensures Shape() && numSigmaZero == |ZeroOf(blocks)|
      ensures Raised(old(blocks), blocks, c.scope[n])
      ensures freeList.Elems == old(freeList.Elems) - c.scope[n]
      ensures freeList.heap == old(freeList.heap) || fresh(freeList.heap)
    {
      hide Config.Valid, Queue, Ascending, Published;
      for i := 0 to |interferes[n]|
        invariant Shape() && numSigmaZero == |ZeroOf(blocks)|
        invariant Raised(old(blocks), blocks, Elements(interferes[n][..i]))
        invariant freeList.Elems == old(freeList.Elems) - Elements(interferes[n][..i])
        invariant freeList.heap == old(freeList.heap) || fresh(freeList.heap)
      {
        var m := interferes[n][i];
        ScopeSlot(c, interferes, n, i);
        ghost var d := Elements(interferes[n][..i]);
        RaisedMore(old(blocks), blocks, d, m);
        ZeroUpdated(blocks, m, blocks[m].(sigma := blocks[m].sigma + 1));
        if blocks[m].sigma == 0 {
          if IsFree(m) && freeList.IndexOf(m) != -1 {
            ListedIndex(m);
            Unlist(m);
          } else {
            ListedIndex(m);
          }
          numSigmaZero := numSigmaZero - 1;
        }
        blocks := blocks[m := blocks[m].(sigma := blocks[m].sigma + 1)];
      }
      assert interferes[n][..|interferes[n]|] == interferes[n];
      ScopeWhole(c, interferes, n);
    }

    /** One round of the loop of `SetCold`. */
    method LowerSigmaHot(x: nat) returns (freed: bool)
      requires Shape() && x < |blocks| && 0 < blocks[x].sigmaHot && x !in freeList.Elems
      modifies this`blocks, freeList, freeList.heap
      ensures Shape() && blocks == old(blocks)[x := old(blocks)[x].(sigmaHot := old(blocks)[x].sigmaHot - 1)]
      ensures freed <==> Idle(blocks[x]) && open[x].nodes != {}
      ensures freeList.Elems == old(freeList.Elems) + if freed then {x} else {}
      ensures freeList.heap == old(freeList.heap) || fresh(freeList.heap)
    {
      hide Config.Valid, Queue, Ascending, Published;
      blocks := blocks[x := blocks[x].(sigmaHot := blocks[x].sigmaHot - 1)];
      freed := IsFree(x);
      if freed {
        List(x);
      }
    }

    /** Makes a block cold; the blocks of its scope that become free are listed. */
    method SetCold(m: nat) returns (broadcast: bool)
      requires Shape() && m < |blocks|
      requires forall b :: b in c.scope[m] ==> b < |blocks| && 0 < blocks[b].sigmaHot
      requires forall b :: b in freeList.Elems ==> b < |blocks| && blocks[b].sigmaHot == 0
      modifies this`blocks, freeList, freeList.heap
      ensures Shape() && Cooled(old(blocks), blocks, m, c.scope[m])
      ensures freeList.Elems == old(freeList.Elems) + IdleIn(blocks, open, c.scope[m])
      ensures freeList.heap == old(freeList.heap) || fresh(freeList.heap)
      ensures broadcast <==> IdleIn(blocks, open, c.scope[m]) != {}
    {
      hide Config.Valid, Queue, Ascending, Published, Idle, IdleIn, Cooled;
      broadcast := false;
      ghost var was := blocks;
      StartCold(blocks, open, m, interferes[m]);
      blocks := blocks[m := blocks[m].(hot := false)];
      for i := 0 to |interferes[m]|
        invariant Shape() && Cooled(was, blocks, m, Elements(interferes[m][..i]))
        invariant freeList.Elems == old(freeList.Elems) + IdleIn(blocks, open, Elements(interferes[m][..i]))
        invariant freeList.heap == old(freeList.heap) || fresh(freeList.heap)
        invariant broadcast <==> IdleIn(blocks, open, Elements(interferes[m][..i])) != {}
      {
        var x := interferes[m][i];
        ScopeSlot(c, interferes, m, i);
        ghost var d := Elements(interferes[m][..i]);
        CoolStep(was, blocks, open, m, d, x);
        var freed := LowerSigmaHot(x);
        broadcast := broadcast || freed;
      }
      ScopeWhole(c, interferes, m);
    }

    /** One round of the loop that lowers sigma in the scope of `n`, which held `s` before. */
    method LowerScopeSigma(m: nat, ghost s: State, ghost n: nat, ghost d: set<nat>) returns (broadcast: bool)
      requires Shape() && CanRelease(c, s, n) && n < |c.scope| && s.open == NodesOf(open)
      requires Releasing(c, s, n, d, blocks, freeList.Elems, numSigmaZero)
      requires m in c.scope[n] && m !in d && m < |blocks|
      modifies this`blocks, this`numSigmaZero, freeList, freeList.heap
      ensures Shape() && Releasing(c, s, n, d + {m}, blocks, freeList.Elems, numSigmaZero)
      ensures freeList.heap == old(freeList.heap) || fresh(freeList.heap)
      ensures old(freeList.Elems) <= freeList.Elems && (broadcast <==> freeList.Elems != old(freeList.Elems))
    {
      hide Config.Valid, Queue, Ascending, Published, CanRelease, Releasing, Cooled, IdleIn;
      ghost var was, elems, zero := blocks, freeList.Elems, numSigmaZero;
      LowerOne(c, s, n, d, blocks, elems, zero, m);
      if blocks[m].hot {
        BeforeCold(c, s, n, d, blocks, elems, zero, m);
      }
      ReleasingOpen(c, s, n, d, blocks, elems, zero, open);
      broadcast := false;
      blocks := blocks[m := blocks[m].(sigma := blocks[m].sigma - 1)];
      if blocks[m].sigma == 0 {
        if blocks[m].hot {
          assert blocks == was[m := was[m].(sigma := 0)];
          broadcast := SetCold(m);
          NewlyIdle(was, elems, blocks, open, c.scope[m]);
          LowerHot(c, s, n, d, was, elems, zero, m, blocks, open);
        }
        if IsFree(m) {
          List(m);
          broadcast := true;
        }
        numSigmaZero := numSigmaZero + 1;
        ghost var freed := elems + IdleIn(blocks, open, c.scope[m]) + (if Idle(blocks[m]) && s.open[m] != {} then {m} else {});
        assert was[m].hot ==> freeList.Elems == freed;
      }
    }

    /** Blocks whose counter was not zero were not listed. */
    lemma NewlyIdle(was: seq<NBlock>, elems: set<nat>, now: seq<NBlock>, lists: seq<OpenList>, d: set<nat>)
      requires forall b :: b in d ==> b < |was| && 0 < was[b].sigmaHot
      requires forall b :: b in elems ==> b < |was| && was[b].sigmaHot == 0
      ensures elems + IdleIn(now, lists, d) != elems <==> IdleIn(now, lists, d) != {}
    {
      var idle := IdleIn(now, lists, d);
      if b :| b in idle {
        assert b !in elems && b in elems + idle;
      }
    }

    /** The first part of a release: the block's own flag and its own place in the
        list; one waiting thread is signalled if the block is free at once. */
    method UnuseBlock(n: nat) returns (signal: bool)
      requires Valid() && n < |blocks| && blocks[n].inuse
      modifies this`blocks, freeList, freeList.heap
      ensures Shape() && CanRelease(c, old(View()), n) && old(View()).open == NodesOf(open)
      ensures Releasing(c, old(View()), n, {}, blocks, freeList.Elems, numSigmaZero)
      ensures freeList.Elems == (old(freeList.Elems) + if signal then {n} else {}) && n !in old(freeList.Elems)
      ensures signal <==> AtOnce(c, old(View()), n)
      ensures freeList.heap == old(freeList.heap) || fresh(freeList.heap)
    {
      hide Config.Valid, Queue, Ascending, Published, CanRelease, Releasing, Exact, Quiet, ListedAreFree;
      ViewCanRelease(n);
      FreeAtOnce(n);
      StartRelease(c, View(), n, blocks, open, numSigmaZero);
      NodesLength(open);
      blocks := blocks[n := blocks[n].(inuse := false)];
      signal := IsFree(n);
      if signal {
        List(n);
      }
    }

    lemma FreeAtOnce(n: nat)
      requires Valid() && n < |blocks| && blocks[n].inuse
      ensures AtOnce(c, View(), n) <==> Idle(blocks[n].(inuse := false)) && open[n].nodes != {}
    {
      hide Config.Valid, Queue, Published, Quiet, ListedAreFree;
      var s := View();
      NotOwnNeighbour(c, n);
      NodesLength(open);
      assert c.scope[n] * (s.inuse - {n}) == c.scope[n] * s.inuse;
      EmptyCard(c.scope[n] * s.inuse);
      EmptyCard(c.scope[n] * s.hot);
    }

    lemma CountsAre()
      requires Valid()
      ensures Counted(c, blocks, InuseOf(blocks), HotOf(blocks)) && |blocks| == |open| == |c.scope|
      ensures View().inuse == InuseOf(blocks) && View().hot == HotOf(blocks) && View().listed == freeList.Elems
      ensures View().open == NodesOf(open)
    {
    }

    /** The block's own flag falls and sigma in its scope. */
    method LowerScope(n: nat) returns (signal: bool, broadcast: bool)
      requires Valid() && n < |blocks| && blocks[n].inuse
      modifies this`blocks, this`numSigmaZero, freeList, freeList.heap
      ensures Valid() && View() == Release(c, old(View()), n) && CanRelease(c, old(View()), n)
      ensures freeList.heap == old(freeList.heap) || fresh(freeList.heap)
      ensures signal <==> AtOnce(c, old(View()), n)
      ensures broadcast <==> Later(c, old(View()), n) != {}
    {
      hide Config.Valid, Queue, Ascending, Published, CanRelease, Releasing, Elements, Exact, Quiet, ListedAreFree, AtOnce;
      ghost var s := View();
      broadcast := false;
      signal := UnuseBlock(n);
      ghost var elems := freeList.Elems;
      NoElements(interferes[n]);
      for i := 0 to |interferes[n]|
        invariant Shape()
        invariant Releasing(c, s, n, Elements(interferes[n][..i]), blocks, freeList.Elems, numSigmaZero)
        invariant freeList.heap == old(freeList.heap) || fresh(freeList.heap)
        invariant elems <= freeList.Elems && (broadcast <==> freeList.Elems != elems)
      {
        ScopeSlot(c, interferes, n, i);
        var b := LowerScopeSigma(interferes[n][i], s, n, Elements(interferes[n][..i]));
        broadcast := broadcast || b;
      }
      ScopeWhole(c, interferes, n);
      EndRelease(c, s, n, blocks, freeList.Elems, numSigmaZero);
      ReleaseIsValid(s, n);
      assert Later(c, s, n) == freeList.Elems - elems;
    }

    /** Gives block `n` back.  A single signal is sent if the block is free at once,
        a broadcast if and only if another block is listed. */
    method ReleaseBlock(n: nat) returns (signal: bool, broadcast: bool)
      requires Valid() && n < |blocks| && blocks[n].inuse
      modifies this`blocks, this`numSigmaZero, freeList, freeList.heap
      ensures Valid() && View() == Release(c, old(View()), n)
      ensures freeList.heap == old(freeList.heap) || fresh(freeList.heap)
      ensures signal <==> AtOnce(c, old(View()), n)
      ensures broadcast <==> Later(c, old(View()), n) != {}
      ensures |blocks| == |old(blocks)| == |open| == |c.scope|
      ensures forall m: nat :: m < |blocks| ==> (blocks[m].inuse <==> old(blocks)[m].inuse && m != n)
      ensures forall m: nat :: m < |blocks| ==>
                (blocks[m].hot <==> old(blocks)[m].hot && (m !in c.scope[n] || 1 < old(blocks)[m].sigma))
      ensures signal <==> open[n].nodes != {} && forall m :: m in c.scope[n] && m < |blocks| ==> !old(blocks)[m].hot
      ensures broadcast <==>
                exists m :: m in freeList.Elems && m !in old(freeList.Elems) && (m != n || !signal)
    {
      hide *;
      CountsAre();
      ghost var s, was := View(), blocks;
      signal, broadcast := LowerScope(n);
      CountsAre();
      ReleasedIs(s, was, n);
      LaterIs(c, s, n, signal);
    }

    lemma ReleasedIs(s: State, was: seq<NBlock>, n: nat)
      requires |blocks| == |open| == |c.scope| == |was| && n < |was| && CanRelease(c, s, n) && View() == Release(c, s, n)
      requires Counted(c, was, InuseOf(was), HotOf(was)) && s.inuse == InuseOf(was) && s.hot == HotOf(was)
      requires s.open == NodesOf(open)
      ensures forall m: nat :: m < |blocks| ==> (blocks[m].inuse <==> was[m].inuse && m != n)
      ensures forall m: nat :: m < |blocks| ==> (blocks[m].hot <==> was[m].hot && (m !in c.scope[n] || 1 < was[m].sigma))
      ensures AtOnce(c, s, n) <==> open[n].nodes != {} && forall m :: m in c.scope[n] && m < |blocks| ==> !was[m].hot
      ensures Release(c, s, n).listed == freeList.Elems
    {
      hide Counted, CanRelease, InuseOf, HotOf, Relist, AtOnce;
      ReleasedFlags(c, s, was, blocks, n);
      AtOnceMeans(c, s, was, open, n);
    }

    lemma ViewCanRelease(n: nat)
      requires Valid() && n < |blocks| && blocks[n].inuse
      ensures CanRelease(c, View(), n) && |c.scope| == |blocks|
    {
    }

    lemma ReleaseIsValid(s: State, n: nat)
      requires Shape() && Exact(c, blocks, numSigmaZero) && CanRelease(c, s, n)
      requires View() == Release(c, s, n)
      ensures Valid()
    {
      hide Config.Valid, Queue, Published, Exact;
      ReleaseQuiet(c, s, n);
    }

    method PopFront() returns (n: nat)
      requires Valid() && freeList.Elems != {}
      modifies freeList, freeList.heap
      ensures Shape() && n in old(freeList.Elems) && freeList.Elems == old(freeList.Elems) - {n}
      ensures |NodesOf(open)| == |c.scope| && c.InRange(old(freeList.Elems))
      ensures c.BestOf(NodesOf(open), n, old(freeList.Elems))
      ensures n < |open| && forall m :: m in old(freeList.Elems) ==>
                  && m < |open| && open[n].best <= open[m].best
                  && (open[n].best == open[m].best ==> open[m].frontG <= open[n].frontG)
      ensures freeList.heap == old(freeList.heap)
    {
      hide Config.Valid, Ascending, Published, Exact, Quiet, ListedAreFree, StrictWeakOrder, Before;
      ListedIdle();
      BeforeIsStrictWeakOrder(open);
      NodesLength(open);
      var r := freeList.Take(Before(open));
      n := r.value;
      FrontIsBest(c, open, old(freeList.Elems), n);
      FrontIsFirst(open, old(freeList.Elems), n);
    }

    /** Takes the front block of the free list. */
    method TakeBlock() returns (n: nat)
      requires Valid() && freeList.Elems != {}
      modifies this`blocks, this`numSigmaZero, freeList, freeList.heap
      ensures Valid() && n < |blocks| && View() == Acquire(c, old(View()), n)
      ensures |NodesOf(open)| == |c.scope| && c.InRange(old(freeList.Elems))
      ensures c.BestOf(NodesOf(open), n, old(freeList.Elems))
      ensures n < |open| && forall m :: m in old(freeList.Elems) ==>
                  && m < |open| && open[n].best <= open[m].best
                  && (open[n].best == open[m].best ==> open[m].frontG <= open[n].frontG)
      ensures freeList.heap == old(freeList.heap) || fresh(freeList.heap)
    {
      hide Config.Valid, Queue, Ascending, Published, Exact, Quiet, ListedAreFree, Raised, Config.BestOf, Config.InRange;
      ghost var s, was, zero := View(), blocks, numSigmaZero;
      ListedIdle();
      n := PopFront();
      UseKeepsZero(blocks, n);
      blocks := blocks[n := blocks[n].(inuse := true)];
      RaiseScopeSigmas(n);
      TakeIsValid(s, was, zero, n);
    }

    lemma ListedIdle()
      requires Valid()
      ensures forall b :: b in freeList.Elems ==>
        b < |blocks| && Idle(blocks[b]) && open[b].nodes != {} && PbnfScheduler.IsFree(c, View(), b)
      ensures numSigmaZero == |ZeroOf(blocks)|
      ensures Queue() && c.InRange(freeList.Elems)
    {
      forall b | b in freeList.Elems
        ensures b < |blocks| && Idle(blocks[b]) && open[b].nodes != {} && PbnfScheduler.IsFree(c, View(), b)
      {
        IdleIsFree(c, blocks, open, b);
      }
    }

    lemma TakeIsValid(s: State, was: seq<NBlock>, zero: nat, n: nat)
      requires Shape() && numSigmaZero == |ZeroOf(blocks)|
      requires Exact(c, was, zero) && n < |was|
      requires s == State(InuseOf(was), HotOf(was), s.listed, NodesOf(open), 0, done, map[])
      requires Quiet(c, s.inuse, s.hot) && ListedAreFree(c, s) && n in s.listed
      requires Raised(was[n := was[n].(inuse := true)], blocks, c.scope[n])
      requires freeList.Elems == s.listed - {n} - c.scope[n]
      ensures Valid() && View() == Acquire(c, s, n)
    {
      hide Config.Valid, Queue, Published, Raised, Counted;
      assert PbnfScheduler.IsFree(c, s, n);
      assert !was[n].inuse;
      RaisedIsExact(c, was, blocks, n);
      AcquireQuiet(c, s, n);
      AcquireList(c, s, n);
    }

    /** The test that ends the search, on exact counters. */
    lemma ZeroTest()
      requires Valid()
      ensures numSigmaZero == |blocks| <==> AllSigmaZero(c, View())
      ensures numSigmaZero == |blocks| <==> forall b: nat :: b < |blocks| ==> blocks[b].sigma == 0
      ensures freeList.fill == 0 <==> freeList.Elems == {}
    {
      AllZeroCounted(c, blocks);
      AllZeroIff(blocks);
      if freeList.Elems != {} {
        var b :| b in freeList.Elems;
        assert 0 <= freeList.IndexOf(b) < freeList.fill;
      }
      if freeList.fill > 0 {
        assert freeList.heap[..freeList.fill][0] in freeList.Elems;
      }
    }

    /** The pruning test on the front block's published value. */
    lemma PruneTest(n: nat, bound: nat)
      requires Valid() && n in freeList.Elems
      ensures n < |open| && (open[n].best as real >= bound as real * weight <==> c.Hopeless(open[n].nodes, bound))
    {
      hide Config.Valid, Queue, Published, Exact, Quiet, ListedAreFree, Config.Hopeless;
      ListedIdle();
      BestDecides(c, open[n], bound);
    }

    /** Takes every block off the free list. */
    method PruneFreeList()
      requires Valid()
      modifies freeList
      ensures Valid() && View() == old(View()).(listed := {}) && freeList.Elems == {} && fresh(freeList.heap)
    {
      hide Config.Valid, Ascending, Published, Exact, Quiet, StrictWeakOrder, Before;
      freeList.Reset();
    }

    lemma FrontOfList()
      requires Valid() && freeList.fill > 0
      ensures freeList.heap[0] in freeList.Elems && freeList.heap[0] < |open|
      ensures c.InRange(freeList.Elems) && |NodesOf(open)| == |open| && NodesOf(open)[freeList.heap[0]] == open[freeList.heap[0]].nodes
      ensures c.BestOf(NodesOf(open), freeList.heap[0], freeList.Elems)
      ensures forall m :: m in freeList.Elems ==> m < |open| && open[freeList.heap[0]].best <= open[m].best
    {
      ListedIdle();
      BeforeIsStrictWeakOrder(open);
      NodesLength(open);
      hide StrictWeakOrder, Before, Published, Config.BestOf;
      freeList.FrontIsMinimum(Before(open));
      FrontIsBest(c, open, freeList.Elems, freeList.heap[0]);
      FrontIsFirst(open, freeList.Elems, freeList.heap[0]);
    }

    lemma DoneKeepsList(s: State)
      ensures ListedAreFree(c, s) <==> ListedAreFree(c, s.(done := true))
      ensures ListedAreFree(c, s) <==> ListedAreFree(c, s.(done := false))
    {
    }

    lemma QueueInBounds()
      requires Valid()
      ensures freeList.fill <= freeList.heap.Length
      ensures freeList.fill == 0 <==> freeList.Elems == {}
    {
      if freeList.Elems != {} {
        var b :| b in freeList.Elems;
        assert 0 <= freeList.IndexOf(b) < freeList.fill;
      }
      if freeList.fill > 0 {
        assert freeList.heap[..freeList.fill][0] in freeList.Elems;
      }
    }

    /** The start of the loop of `next_nblock` when no block is listed. */
    method EndOrWait(bound: nat) returns (o: Outcome, broadcast: bool)
      requires Valid() && freeList.Elems == {}
      modifies this`done
      ensures SetsDone(old(done), done, broadcast)
      ensures Valid() && StartOver(c, old(View()).(bound := bound), View().(bound := bound), o)
      ensures !o.Take? && (o == Over <==> done)
      ensures done <==> old(done) || forall b: nat :: b < |blocks| ==> blocks[b].sigma == 0
    {
      hide Config.Valid, Queue, Ascending, Published, Exact, Quiet, ListedAreFree, AllSigmaZero, InuseOf, HotOf, NodesOf;
      ZeroTest();
      QueueInBounds();
      BoundIrrelevant(View(), bound);
      DoneKeepsList(View());
      if numSigmaZero == |blocks| && freeList.fill == 0 {
        done := true;
        return Over, true;
      }
      return if done then Over else Wait, false;
    }

    /** The end of the search is broadcast, and nothing else is. */
    static predicate SetsDone(was: bool, now: bool, broadcast: bool) {
      (now && !was ==> broadcast) && (broadcast ==> now)
    }

    lemma BoundLast(s: State, n: nat, bound: nat)
      ensures Acquire(c, s, n).(bound := bound) == Acquire(c, s.(bound := bound), n)
    {
    }

    lemma BoundIrrelevant(s: State, bound: nat)
      ensures AllSigmaZero(c, s) <==> AllSigmaZero(c, s.(bound := bound))
    {
    }

    /** The loop of `next_nblock`; a woken thread enters it at the wait, past the
        test for the end of the search. */
    method Choose(bound: nat, woken: bool) returns (o: Outcome, broadcast: bool)
      requires Valid()
      modifies this`blocks, this`numSigmaZero, this`done, freeList, freeList.heap
      ensures Valid() && SetsDone(old(done), done, broadcast)
      ensures WellFormed(c, old(View()).(bound := bound))
      ensures var s := old(View()).(bound := bound); var s' := View().(bound := bound);
              if woken then PickAgain(c, s, s', o) else Pick(c, s, s', o)
      ensures (o == Over <==> done) && (old(done) ==> done)
      ensures done && !old(done) ==> forall b: nat :: b < |blocks| ==> blocks[b].sigma == 0
      ensures o.Take? ==> o.block < |open| && open[o.block].best as real < bound as real * weight
      ensures forall m :: o.Take? && m in old(freeList.Elems) ==>
                  && m < |open| && o.block < |open| && open[o.block].best <= open[m].best
                  && (open[o.block].best == open[m].best ==> open[m].frontG <= open[o.block].frontG)
      ensures !o.Take? && !old(done) ==>
                forall m :: m in old(freeList.Elems) ==> m < |open| && open[m].best as real >= bound as real * weight
      ensures woken && (old(freeList.Elems) == {} || old(done)) ==> View() == old(View()) && o == if old(done) then Over else Wait
      ensures done && !old(done) ==> broadcast
      ensures freeList.heap == old(freeList.heap) || fresh(freeList.heap)
    {
      hide Valid, View, StartOver, TakeFront, WellFormed, Config.BestOf, Config.Hopeless;
      ViewWellFormed(bound);
      QueueInBounds();
      ViewParts();
      if freeList.fill == 0 && !woken {
        o, broadcast := EndOrWait(bound);
        return;
      }
      if done {
        return Over, false;
      }
      if freeList.fill == 0 {
        return Wait, false;
      }
      o, broadcast := TakeOrPrune(bound);
    }

    lemma ViewParts()
      ensures View().listed == freeList.Elems && View().done == done && View().open == NodesOf(open) && View().bound == 0
    {
    }

    /** The free list is not empty: its front block is taken unless it is hopeless. */
    method TakeOrPrune(bound: nat) returns (o: Outcome, broadcast: bool)
      requires Valid() && freeList.fill > 0 && !done && WellFormed(c, View().(bound := bound))
      requires freeList.fill <= freeList.heap.Length
      modifies this`blocks, this`numSigmaZero, this`done, freeList, freeList.heap
      ensures Valid() && SetsDone(old(done), done, broadcast)
      ensures exists n :: TakeFront(c, old(View()).(bound := bound), View().(bound := bound), o, n)
      ensures (o == Over <==> done) && (old(done) ==> done)
      ensures done && !old(done) ==> forall b: nat :: b < |blocks| ==> blocks[b].sigma == 0
      ensures o.Take? ==> o.block < |open| && open[o.block].best as real < bound as real * weight
      ensures forall m :: o.Take? && m in old(freeList.Elems) ==>
                  && m < |open| && o.block < |open| && open[o.block].best <= open[m].best
                  && (open[o.block].best == open[m].best ==> open[m].frontG <= open[o.block].frontG)
      ensures !o.Take? ==>
                forall m :: m in old(freeList.Elems) ==> m < |open| && open[m].best as real >= bound as real * weight
      ensures freeList.heap == old(freeList.heap) || fresh(freeList.heap)
    {
      hide Valid, View, StartOver, Acquire, WellFormed, Config.BestOf, Config.Hopeless;
      FrontOfList();
      ViewParts();
      var front := freeList.heap[0];
      PruneTest(front, bound);
      if open[front].best as real >= bound as real * weight {
        PruneFreeList();
        o, broadcast := EndOrWait(bound);
        assert TakeFront(c, old(View()).(bound := bound), View().(bound := bound), o, front);
      } else {
        ghost var listed := freeList.Elems;
        var n := TakeBlock();
        o, broadcast := Take(n), false;
        SameBest(c, NodesOf(open), front, n, listed, bound);
        BoundLast(old(View()), n, bound);
        assert TakeFront(c, old(View()).(bound := bound), View().(bound := bound), o, n);
      }
    }

    lemma ViewWellFormed(bound: nat)
      requires Valid()
      ensures WellFormed(c, View().(bound := bound))
    {
      ListedIdle();
    }

    /** Gives the finished block back, if there is one, and asks for the next;
        when the lock is busy a thread whose block is not empty keeps it. */
    method NextNBlock(finished: Option<nat>, lockFree: bool, bound: nat) returns (o: Outcome, signal: bool, broadcast: bool)
      requires Valid()
      requires finished.Some? ==> finished.value < |blocks| && blocks[finished.value].inuse
      modifies this`blocks, this`numSigmaZero, this`done, freeList, freeList.heap
      ensures Valid()
      ensures finished.Some? && old(open)[finished.value].nodes != {} && !lockFree ==>
              o == Take(finished.value) && View() == old(View()) && !signal && !broadcast
      ensures !(finished.Some? && old(open)[finished.value].nodes != {} && !lockFree) ==>
              var s := (if finished.Some? then Release(c, old(View()), finished.value) else old(View())).(bound := bound);
              && WellFormed(c, s) && Pick(c, s, View().(bound := bound), o)
              && (signal <==> finished.Some? && AtOnce(c, old(View()), finished.value))
              && (finished.Some? && Later(c, old(View()), finished.value) != {} ==> broadcast)
              && (done && !old(done) ==> broadcast)
              && (broadcast ==> done || (finished.Some? && Later(c, old(View()), finished.value) != {}))
              && (o == Over <==> done) && (old(done) ==> done)
              && (done && !old(done) ==> forall b: nat :: b < |blocks| ==> blocks[b].sigma == 0)
              && (o.Take? ==> o.block < |open| && open[o.block].best as real < bound as real * weight)
              && (forall m :: o.Take? && m in s.listed ==>
                    && m < |open| && o.block < |open| && open[o.block].best <= open[m].best
                    && (open[o.block].best == open[m].best ==> open[m].frontG <= open[o.block].frontG))
              && (o == Wait ==> forall m :: m in s.listed ==> m < |open| && open[m].best as real >= bound as real * weight)
      ensures freeList.heap == old(freeList.heap) || fresh(freeList.heap)
    {
      hide Config.Valid, Queue, Ascending, Published, Exact, Quiet, ListedAreFree, Pick, AtOnce, Later;
      signal, broadcast := false, false;
      if finished.Some? && open[finished.value].nodes != {} && !lockFree {
        return Take(finished.value), false, false;
      }
      if finished.Some? {
        signal, broadcast := ReleaseBlock(finished.value);
      }
      var over;
      o, over := Choose(bound, false);
      broadcast := broadcast || over;
    }

    /** Asks again after having been woken. */
    method Resume(bound: nat) returns (o: Outcome, broadcast: bool)
      requires Valid()
      modifies this`blocks, this`numSigmaZero, this`done, freeList, freeList.heap
      ensures Valid() && SetsDone(old(done), done, broadcast)
      ensures var s := old(View()).(bound := bound);
              WellFormed(c, s) && PickAgain(c, s, View().(bound := bound), o)
      ensures (o == Over <==> done) && (old(done) ==> done)
      ensures done && !old(done) ==> forall b: nat :: b < |blocks| ==> blocks[b].sigma == 0
      ensures o.Take? ==> o.block < |open| && open[o.block].best as real < bound as real * weight
      ensures forall m :: o.Take? && m in old(freeList.Elems) ==>
                  && m < |open| && o.block < |open| && open[o.block].best <= open[m].best
                  && (open[o.block].best == open[m].best ==> open[m].frontG <= open[o.block].frontG)
      ensures o == Wait ==>
                forall m :: m in old(freeList.Elems) ==> m < |open| && open[m].best as real >= bound as real * weight
      ensures old(freeList.Elems) == {} || old(done) ==> View() == old(View()) && o == if old(done) then Over else Wait
      ensures done && !old(done) ==> broadcast
      ensures freeList.heap == old(freeList.heap) || fresh(freeList.heap)
    {
      hide Config.Valid, Queue, Ascending, Published, Exact, Quiet, ListedAreFree, PickAgain;
      o, broadcast := Choose(bound, true);
    }

    /** One round of the loop of `SetHot` that turns to the block `m` of the
        scope of `b`; `d` has been treated. */
    method HeatScopeBlock(m: nat, ghost s: State, ghost b: nat, ghost d: set<nat>) returns (broadcast: bool)
      requires Shape() && CanReheat(c, s) && s.open == NodesOf(open)
      requires Reheating(c, s, d, d, {b}, blocks, freeList.Elems, numSigmaZero)
      requires m !in d && m < |blocks| && m != b
      modifies this`blocks, freeList, freeList.heap
      ensures Shape() && Reheating(c, s, d + {m}, d + {m}, {b}, blocks, freeList.Elems, numSigmaZero)
      ensures freeList.heap == old(freeList.heap) || fresh(freeList.heap)
      ensures broadcast || freeList.Elems <= old(freeList.Elems)
      ensures m < |c.scope| && (broadcast <==> m in s.hot && FreedBy(c, s, d, m) != {})
    {
      hide Config.Valid, Queue, Ascending, Published, CanReheat, Reheating, Cooled, IdleIn, FreedBy;
      ghost var was, elems, zero := blocks, freeList.Elems, numSigmaZero;
      BeforeHeat(c, s, d, b, was, elems, zero, m, open);
      broadcast := false;
      ListedIndex(m);
      if IsFree(m) && freeList.IndexOf(m) != -1 {
        Unlist(m);
      }
      if blocks[m].hot {
        broadcast := SetCold(m);
        CoolHot(c, s, d, d, {b}, was, elems, zero, m, blocks, open);
        FreedAre(c, s, d, {b}, blocks, elems + IdleIn(blocks, open, c.scope[m]), zero, m, open);
      } else {
        ColdIsCold(c, s, d, d, {b}, was, elems, zero, m);
        SkipCold(c, s, d, d, {b}, was, elems, zero, m);
      }
      ghost var before := if was[m].hot then elems + IdleIn(blocks, open, c.scope[m]) else elems;
      assert freeList.Elems == before - {m};
      RaiseHot(c, s, d + {m}, d, {b}, blocks, before, zero, m);
      blocks := blocks[m := blocks[m].(sigmaHot := blocks[m].sigmaHot + 1)];
    }

    /** Asks for block `b`; `val` is its best value, read before the lock was tried.
        A broadcast is sent if and only if one of the blocks made cold on the way
        frees another, even if that is taken off the list again. */
    method SetHot(b: nat, val: nat, lockFree: bool) returns (ok: bool, broadcast: bool)
      requires Valid() && b < |blocks|
      modifies this`blocks, freeList, freeList.heap
      ensures Valid() && ok == lockFree
      ensures broadcast || View().listed <= old(View()).listed
      ensures broadcast <==> lockFree && Heatable(c, old(View()), b) && Preferred(old(blocks), open, c.scope[b], val)
                             && FreesInPassing(c, old(View()), interferes[b], |interferes[b]|)
      ensures View() == if lockFree && Heatable(c, old(View()), b) && Preferred(old(blocks), open, c.scope[b], val)
                        then Heat(c, old(View()), b) else old(View())
      ensures |blocks| == |old(blocks)| == |open| == |c.scope|
      ensures lockFree && !old(blocks)[b].hot && 0 < old(blocks)[b].sigma ==>
                (blocks[b].hot <==>
                   forall m :: m in c.scope[b] && m < |open| && old(blocks)[m].hot ==> val <= open[m].best)
      ensures !lockFree || old(blocks)[b].hot || old(blocks)[b].sigma == 0 ==> View() == old(View())
      ensures blocks[b].hot && !old(blocks)[b].hot ==>
                forall m: nat :: m < |blocks| ==>
                  (blocks[m].hot <==> m == b || (old(blocks)[m].hot && m !in c.scope[b]))
      ensures forall m: nat :: m < |blocks| && old(blocks)[m].hot && !blocks[m].hot ==>
                lockFree && m in c.scope[b] && val <= open[m].best
      ensures freeList.heap == old(freeList.heap) || fresh(freeList.heap)
    {
      hide Config.Valid, Queue, Ascending, Published, Exact, Quiet, ListedAreFree, CanReheat, Reheating, Heatable, Heat;
      hide FreesInPassing, HotOf;
      broadcast := false;
      if !lockFree {
        return false, false;
      }
      ok := true;
      HeatTest(b);
      if blocks[b].hot || blocks[b].sigma == 0 {
        return;
      }
      var wanted := NoBetterHot(b, val);
      if !wanted {
        return;
      }
      ghost var s, was := View(), blocks;
      broadcast := HeatBlock(b);
      HeatedFlags(c, s, was, blocks, b);
    }

    lemma HeatTest(b: nat)
      requires Valid() && b < |blocks|
      ensures Heatable(c, View(), b) <==> !blocks[b].hot && 0 < blocks[b].sigma
      ensures b < |c.scope|
    {
      hide Config.Valid, Queue, Published, Quiet, ListedAreFree;
      Disjoint(c.scope[b], InuseOf(blocks));
      assert c.scope[b] * InuseOf(blocks) == {} <==> |c.scope[b] * InuseOf(blocks)| == 0;
      assert blocks[b].sigma == |c.scope[b] * InuseOf(blocks)|;
    }

    /** Looks for a hot block of the scope that is better than `val`. */
    method NoBetterHot(b: nat, val: nat) returns (wanted: bool)
      requires Shape() && b < |blocks|
      ensures wanted <==> Preferred(blocks, open, c.scope[b], val)
    {
      hide Config.Valid, Queue, Ascending, Published;
      for i := 0 to |interferes[b]|
        invariant Preferred(blocks, open, Elements(interferes[b][..i]), val)
      {
        var m := interferes[b][i];
        ScopeSlot(c, interferes, b, i);
        if blocks[m].hot && open[m].best < val {
          return false;
        }
      }
      ScopeWhole(c, interferes, b);
      return true;
    }

    method HeatBlock(b: nat) returns (broadcast: bool)
      requires Valid() && b < |blocks| && Heatable(c, View(), b)
      modifies this`blocks, freeList, freeList.heap
      ensures Valid() && View() == Heat(c, old(View()), b)
      ensures freeList.heap == old(freeList.heap) || fresh(freeList.heap)
      ensures broadcast || View().listed <= old(View()).listed
      ensures broadcast <==> FreesInPassing(c, old(View()), interferes[b], |interferes[b]|)
    {
      hide Config.Valid, Queue, Ascending, Published, Exact, Quiet, ListedAreFree, CanReheat, Reheating, Heatable, Heat;
      hide FreesInPassing, FreedBy;
      ghost var s := View();
      ReheatStarts();
      FlagHot(c, s, blocks, numSigmaZero, b);
      NoElements(interferes[b]);
      blocks := blocks[b := blocks[b].(hot := true)];
      broadcast := false;
      FreesNothing(c, s, interferes[b]);
      for i := 0 to |interferes[b]|
        invariant Shape() && NodesOf(open) == s.open
        invariant Reheating(c, s, Elements(interferes[b][..i]), Elements(interferes[b][..i]), {b},
                            blocks, freeList.Elems, numSigmaZero)
        invariant freeList.heap == old(freeList.heap) || fresh(freeList.heap)
        invariant broadcast || freeList.Elems <= s.listed
        invariant broadcast <==> FreesInPassing(c, s, interferes[b], i)
      {
        ScopeSlot(c, interferes, b, i);
        FreesMore(c, s, interferes[b], i);
        var more := HeatScopeBlock(interferes[b][i], s, b, Elements(interferes[b][..i]));
        broadcast := broadcast || more;
      }
      ScopeWhole(c, interferes, b);
      HeatIsValid(s, b);
    }

    lemma ReheatStarts()
      requires Valid()
      ensures |blocks| == |c.scope| && NodesOf(open) == View().open
      ensures CanReheat(c, View()) && Reheating(c, View(), {}, {}, {}, blocks, freeList.Elems, numSigmaZero)
    {
      hide Config.Valid, Queue, Published, Quiet, ListedAreFree, Exact, Reheating;
      ListedIdle();
      StartReheat(c, View(), blocks, open, numSigmaZero);
    }

    lemma HeatIsValid(s: State, b: nat)
      requires Shape() && CanReheat(c, s) && b < |blocks| && Heatable(c, s, b)
      requires Reheating(c, s, c.scope[b], c.scope[b], {b}, blocks, freeList.Elems, numSigmaZero)
      requires s == State(s.inuse, s.hot, s.listed, NodesOf(open), 0, done, map[])
      ensures Valid() && View() == Heat(c, s, b)
    {
      hide Config.Valid, Queue, Published, Exact;
      EndReheat(c, s, c.scope[b], c.scope[b], {b}, blocks, freeList.Elems, numSigmaZero);
      HeatQuiet(c, s, b);
    }

    /** Keeps block `b` although others want it: every hot block of its scope goes
        cold, with a broadcast if and only if a block becomes listed. */
    method WontRelease(b: nat, lockFree: bool) returns (broadcast: bool)
      requires Valid() && b < |blocks|
      modifies this`blocks, freeList, freeList.heap
      ensures Valid()
      ensures View() == if lockFree || old(blocks)[b].sigmaHot == 0 then Cool(c, old(View()), b) else old(View())
      ensures freeList.heap == old(freeList.heap) || fresh(freeList.heap)
      ensures broadcast <==> View().listed != old(View()).listed
      ensures |blocks| == |old(blocks)| == |c.scope|
      ensures lockFree || old(blocks)[b].sigmaHot == 0 ==>
                forall m: nat :: m < |blocks| ==> (blocks[m].hot <==> old(blocks)[m].hot && m !in c.scope[b])
    {
      hide Config.Valid, Queue, Ascending, Published, Exact, Quiet, ListedAreFree, CanReheat, Reheating, Cool, HotOf;
      broadcast := false;
      ghost var was := blocks;
      if blocks[b].sigmaHot == 0 {
        NothingHot(b);
        CooledScope(c, View(), was, blocks, b);
        return;
      }
      if !lockFree {
        return;
      }
      ghost var s := View();
      ReheatStarts();
      NoElements(interferes[b]);
      for i := 0 to |interferes[b]|
        invariant Shape() && NodesOf(open) == s.open
        invariant Reheating(c, s, Elements(interferes[b][..i]), {}, {}, blocks, freeList.Elems, numSigmaZero)
        invariant freeList.heap == old(freeList.heap) || fresh(freeList.heap)
        invariant s.listed <= freeList.Elems && (broadcast <==> freeList.Elems != s.listed)
      {
        ScopeSlot(c, interferes, b, i);
        var more := CoolScopeBlock(interferes[b][i], s, Elements(interferes[b][..i]));
        broadcast := broadcast || more;
      }
      ScopeWhole(c, interferes, b);
      CoolIsValid(s, b);
      CooledScope(c, s, was, blocks, b);
    }

    /** One round of the loop of `WontRelease`. */
    method CoolScopeBlock(m: nat, ghost s: State, ghost d: set<nat>) returns (broadcast: bool)
      requires Shape() && CanReheat(c, s) && s.open == NodesOf(open)
      requires Reheating(c, s, d, {}, {}, blocks, freeList.Elems, numSigmaZero)
      requires m !in d && m < |blocks|
      modifies this`blocks, freeList, freeList.heap
      ensures Shape() && Reheating(c, s, d + {m}, {}, {}, blocks, freeList.Elems, numSigmaZero)
      ensures freeList.heap == old(freeList.heap) || fresh(freeList.heap)
      ensures old(freeList.Elems) <= freeList.Elems && (broadcast <==> freeList.Elems != old(freeList.Elems))
    {
      hide Config.Valid, Queue, Ascending, Published, CanReheat, Reheating, Cooled, IdleIn;
      ghost var was, elems, zero := blocks, freeList.Elems, numSigmaZero;
      BeforeSetCold(c, s, d, {}, {}, was, elems, zero, m);
      broadcast := false;
      if blocks[m].hot {
        broadcast := SetCold(m);
        NewlyIdle(was, elems, blocks, open, c.scope[m]);
        CoolHot(c, s, d, {}, {}, was, elems, zero, m, blocks, open);
      } else {
        SkipCold(c, s, d, {}, {}, was, elems, zero, m);
      }
    }

    lemma CoolIsValid(s: State, b: nat)
      requires Shape() && CanReheat(c, s) && b < |blocks|
      requires Reheating(c, s, c.scope[b], {}, {}, blocks, freeList.Elems, numSigmaZero)
      requires s == State(s.inuse, s.hot, s.listed, NodesOf(open), 0, done, map[])
      ensures Valid() && View() == Cool(c, s, b)
    {
      hide Config.Valid, Queue, Published, Exact;
      EndReheat(c, s, c.scope[b], {}, {}, blocks, freeList.Elems, numSigmaZero);
      assert s.hot - c.scope[b] + {} == s.hot - c.scope[b];
      CoolQuiet(c, s, b);
    }

    /** Returning early when nothing is hot is what cooling would come to. */
    lemma NothingHot(b: nat)
      requires Valid() && b < |blocks| && blocks[b].sigmaHot == 0
      ensures View() == Cool(c, View(), b)
    {
      hide Config.Valid, Queue, Published, Quiet;
      Disjoint(c.scope[b], HotOf(blocks));
      assert blocks[b].sigmaHot == |c.scope[b] * HotOf(blocks)|;
      assert HotOf(blocks) - c.scope[b] == HotOf(blocks);
      ListedIdle();
      RelistSame(c, View());
    }

    /** The thread that holds `n` changes the open list of a block `m` that it may touch:
        such a block is not listed, so no key of the free list changes. */
    method SetOpen(n: nat, m: nat, o: OpenList)
      requires Valid() && n < |blocks| && blocks[n].inuse && m in c.touched[n] && Published(c, o)
      modifies this`open
      ensures m < |open| && Valid() && open == old(open)[m := o]
      ensures SearchChanges(c, old(View()), View(), n)
    {
      hide Config.Valid, Ascending, Published, Exact, Quiet, Before, ListedAreFree, NodesOf, PbnfScheduler.IsFree;
      TouchedIsUnlisted(n, m);
      NodesUpdated(open, m, o);
      ListedIdle();
      open := open[m := o];
      KeysFrozen(old(open), m, o);
      ListedStayFree(old(View()), m, o.nodes);
      assert View() == old(View()).(open := View().open);
    }

    lemma TouchedIsUnlisted(n: nat, m: nat)
      requires Valid() && n < |blocks| && blocks[n].inuse && m in c.touched[n]
      ensures m < |open| == |c.touched| && m !in freeList.Elems && n < |c.touched| && |NodesOf(open)| == |open|
      ensures !PbnfScheduler.IsFree(c, View(), m)
    {
      hide Queue, Published, Exact, Quiet;
      assert n in View().inuse;
      assert m == n || m in c.scope[n];
      if m != n { NotFreeBeside(c, View(), n, m); }
    }

    lemma ListedStayFree(s: State, m: nat, nodes: set<Node>)
      requires ListedAreFree(c, s) && m < |s.open| && m !in s.listed
      ensures ListedAreFree(c, s.(open := s.open[m := nodes]))
    {
    }

    lemma KeysFrozen(was: seq<OpenList>, m: nat, o: OpenList)
      requires m < |was| == |c.scope| && open == was[m := o]
      ensures forall a: nat, b: nat :: a < |was| && b < |was| && a != m && b != m ==> Before(open)(a, b) == Before(was)(a, b)
    {
    }

    lemma ListedIndex(b: nat)
      requires Shape()
      ensures freeList.IndexOf(b) != -1 <==> b in freeList.Elems
    {
    }
  }

  function NewBlocks(n: nat): seq<NBlock> {
    seq(n, b => NBlock(0, 0, false, false))
  }

  /** The initial node is in its block's open list, and no other node is open. */
  function OneOpen(n: nat, init: nat, initial: Node, best: nat): seq<OpenList> {
    seq(n, b => if b == init then OpenList({initial}, best, initial.g) else OpenList({}, FP_INFINITY, 0))
  }

  lemma StartPublished(c: Config, n: nat, init: nat, x: Node)
    ensures forall b: nat :: b < n ==> Published(c, OneOpen(n, init, x, c.FPrimeOf(x))[b])
  {
  }

  lemma StartCounts(c: Config, blocks: seq<NBlock>, open: seq<OpenList>, init: nat, x: Node, best: nat)
    requires blocks == NewBlocks(|c.scope|) && open == OneOpen(|c.scope|, init, x, best) && init < |c.scope|
    ensures InuseOf(blocks) == {} && HotOf(blocks) == {} && Exact(c, blocks, |blocks|)
    ensures Quiet(c, InuseOf(blocks), HotOf(blocks))
    ensures c.Free(InuseOf(blocks), HotOf(blocks), NodesOf(open), init)
  {
    assert InuseOf(blocks) == {} && HotOf(blocks) == {};
    AllZero(blocks);
  }

  lemma {:induction false} AllZero(blocks: seq<NBlock>)
    requires forall b: nat :: b < |blocks| ==> blocks[b].sigma == 0
    ensures |ZeroOf(blocks)| == |blocks|
  {
    if blocks != [] {
      var k := |blocks| - 1;
      AllZero(blocks[..k]);
      assert ZeroOf(blocks) == ZeroOf(blocks[..k]) + {k};
    }
  }

  lemma StartCold(blocks: seq<NBlock>, open: seq<OpenList>, m: nat, s: seq<nat>)
    requires m < |blocks|
    ensures var now := blocks[m := blocks[m].(hot := false)];
            Cooled(blocks, now, m, Elements(s[..0])) && IdleIn(now, open, Elements(s[..0])) == {}
  {
  }

  lemma CoolStep(was: seq<NBlock>, before: seq<NBlock>, open: seq<OpenList>, m: nat, d: set<nat>, x: nat)
    requires Cooled(was, before, m, d) && x < |before| == |open| && x !in d && 0 < was[x].sigmaHot
    ensures 0 < before[x].sigmaHot && x !in IdleIn(before, open, d)
    ensures var b := before[x].(sigmaHot := before[x].sigmaHot - 1);
            var after := before[x := b];
            && Cooled(was, after, m, d + {x})
            && IdleIn(after, open, d + {x}) ==
               IdleIn(before, open, d) + if Idle(b) && open[x].nodes != {} then {x} else {}
  {
    CooledMore(was, before, m, d, x);
    IdleInMore(before, before[x := before[x].(sigmaHot := before[x].sigmaHot - 1)], open, d, x);
  }

  lemma ScopeSlot(c: Config, interferes: seq<seq<nat>>, n: nat, i: nat)
    requires c.Valid() && n < |interferes| == |c.scope| && Ascending(interferes[n], c.scope[n]) && i < |interferes[n]|
    ensures interferes[n][i] < |c.scope| && interferes[n][i] in c.scope[n] && interferes[n][i] != n
    ensures interferes[n][i] !in Elements(interferes[n][..i])
    ensures Elements(interferes[n][..i + 1]) == Elements(interferes[n][..i]) + {interferes[n][i]}
    ensures Elements(interferes[n][..i]) <= c.scope[n]
  {
    assert interferes[n][i] in Elements(interferes[n]);
    assert interferes[n][..i + 1] == interferes[n][..i] + [interferes[n][i]];
    ElementsPush(interferes[n][..i], interferes[n][i]);
    Symmetric(c, interferes[n][i], n);
  }

  lemma UseKeepsZero(blocks: seq<NBlock>, n: nat)
    requires n < |blocks|
    ensures ZeroOf(blocks[n := blocks[n].(inuse := true)]) == ZeroOf(blocks)
    ensures forall b: nat :: b < |blocks| && b != n ==> blocks[n := blocks[n].(inuse := true)][b] == blocks[b]
  {
  }

  lemma AcquireList(c: Config, s: State, n: nat)
    requires c.Valid() && WellFormed(c, s) && ListedAreFree(c, s) && n in s.listed
    ensures s.listed - {n} - c.scope[n] == Acquire(c, s, n).listed
    ensures ListedAreFree(c, Acquire(c, s, n))
  {
    hide Config.Valid;
    forall b | b in s.listed ensures PbnfScheduler.IsFree(c, s, b) && (b in c.scope[n] <==> n in c.scope[b]) {
      if b in c.scope[n] { Neighbour(c, b, n); }
      if n in c.scope[b] { Neighbour(c, n, b); }
    }
  }

  /** A minimum of the free list's order has a best value that is minimal. */
  lemma FrontIsBest(c: Config, open: seq<OpenList>, listed: set<nat>, n: nat)
    requires |open| == |c.scope| && c.InRange(listed) && n in listed && open[n].nodes != {}
    requires forall b: nat :: b < |open| ==> Published(c, open[b])
    requires forall m :: m in listed ==> !Before(open)(m, n)
    ensures |NodesOf(open)| == |open| && c.BestOf(NodesOf(open), n, listed)
  {
    assert Published(c, open[n]);
    forall m | m in listed ensures c.NoWorse(open[n].nodes, open[m].nodes) {
      assert Published(c, open[m]);
      assert !Before(open)(m, n);
      var x :| x in open[n].nodes && c.FPrimeOf(x) == open[n].best;
    }
  }

  /** What the free list's order means: the least best value, and among equal ones the greatest g in front. */
  lemma FrontIsFirst(open: seq<OpenList>, listed: set<nat>, n: nat)
    requires n in listed && forall m :: m in listed ==> m < |open| && open[m].nodes != {}
    requires forall m :: m in listed ==> !Before(open)(m, n)
    ensures forall m :: m in listed ==>
              && m < |open| && open[n].best <= open[m].best
              && (open[n].best == open[m].best ==> open[m].frontG <= open[n].frontG)
  {
    forall m | m in listed
      ensures open[n].best <= open[m].best && (open[n].best == open[m].best ==> open[m].frontG <= open[n].frontG)
    {
      assert !Before(open)(m, n);
    }
  }

  /** Two front candidates of one list are hopeless together. */
  lemma SameBest(c: Config, open: seq<set<Node>>, a: nat, b: nat, listed: set<nat>, bound: nat)
    requires |open| == |c.scope| && c.InRange(listed) && c.BestOf(open, a, listed) && c.BestOf(open, b, listed)
    requires !c.Hopeless(open[a], bound)
    ensures !c.Hopeless(open[b], bound)
  {
    hide Config.Hopeless, Config.NoWorse;
    if c.Hopeless(open[b], bound) {
      WorseIsHopeless(c, open[b], open[a], bound);
    }
  }

  /** The published best value tells whether any node can beat the bound. */
  lemma BestDecides(c: Config, o: OpenList, bound: nat)
    requires Published(c, o) && o.nodes != {}
    ensures o.best as real >= bound as real * c.boundWeight <==> c.Hopeless(o.nodes, bound)
  {
    var limit := bound as real * c.boundWeight;
    var least :| least in o.nodes && c.FPrimeOf(least) == o.best;
    forall x | x in o.nodes && o.best as real >= limit ensures c.FPrimeOf(x) as real >= limit {
      assert o.best <= c.FPrimeOf(x);
    }
  }

  lemma AllZeroCounted(c: Config, blocks: seq<NBlock>)
    requires |blocks| == |c.scope| && Counted(c, blocks, InuseOf(blocks), HotOf(blocks))
    ensures |ZeroOf(blocks)| == |blocks| <==> forall b: nat :: b < |c.scope| ==> c.scope[b] !! InuseOf(blocks)
  {
    hide InuseOf, HotOf, ZeroOf;
    ZeroIsClear(c, blocks, InuseOf(blocks), HotOf(blocks));
    hide Counted;
    AllZeroIff(blocks);
  }

  lemma ZeroIsClear(c: Config, blocks: seq<NBlock>, inuse: set<nat>, hot: set<nat>)
    requires |blocks| == |c.scope| && Counted(c, blocks, inuse, hot)
    ensures forall b: nat :: b < |blocks| ==> (blocks[b].sigma == 0 <==> c.scope[b] !! inuse)
  {
    forall b: nat | b < |blocks| ensures blocks[b].sigma == 0 <==> c.scope[b] !! inuse {
      Disjoint(c.scope[b], inuse);
    }
  }

  lemma {:induction false} AllZeroIff(blocks: seq<NBlock>)
    ensures |ZeroOf(blocks)| <= |blocks|
    ensures |ZeroOf(blocks)| == |blocks| <==> forall b: nat :: b < |blocks| ==> blocks[b].sigma == 0
  {
    if blocks != [] {
      var k := |blocks| - 1;
      AllZeroIff(blocks[..k]);
      assert ZeroOf(blocks) == ZeroOf(blocks[..k]) + if blocks[k].sigma == 0 then {k} else {};
      assert forall b: nat :: b < k ==> blocks[..k][b] == blocks[b];
    }
  }

  lemma NoElements(s: seq<nat>)
    ensures Elements(s[..0]) == {}
  {
  }

  lemma ReleasingOpen(c: Config, s: State, n: nat, d: set<nat>, blocks: seq<NBlock>, elems: set<nat>, zero: nat, open: seq<OpenList>)
    requires Releasing(c, s, n, d, blocks, elems, zero) && s.open == NodesOf(open)
    ensures |open| == |blocks| == |s.open| && forall b: nat :: b < |open| ==> s.open[b] == open[b].nodes
    ensures forall b :: b in elems ==> b < |blocks| && blocks[b].sigmaHot == 0
  {
  }

  lemma ScopeWhole(c: Config, interferes: seq<seq<nat>>, n: nat)
    requires n < |interferes| == |c.scope| && Ascending(interferes[n], c.scope[n])
    ensures Elements(interferes[n][..|interferes[n]|]) == c.scope[n]
  {
    assert interferes[n][..|interferes[n]|] == interferes[n];
  }
}
