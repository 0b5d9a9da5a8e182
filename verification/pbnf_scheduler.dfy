/**
 * The nblock scheduler as a state machine over sets of blocks.
 *
 * Each critical section of the scheduler's mutex is one step.  The counters of
 * the program (sigma, sigma_hot, the number of blocks with sigma zero) do not
 * occur here: what they count is what this machine is about.  The class
 * `NBlockGraph` keeps the counters and refines the operations below.
 */
module PbnfScheduler {
  import opened FixedPoint

  /** A search node as far as the scheduler can see it. */
  datatype Node = Node(id: nat, g: nat, h: nat)

  /** Where a thread is with respect to the scheduler. */
  datatype Phase =
    | Outside              // has not asked for a block yet
    | Holding(block: nat)  // searches a block
    | Asleep               // waits on the condition variable, not signalled
    | Ready                // was signalled and is about to look at the free list again
    | Exited               // was told that the search is over

  /** `weight` is the heuristic's fixed-point weight, `boundWeight` the factor
      that the free list is pruned with. */
  datatype Config = Config(scope: seq<set<nat>>, touched: seq<set<nat>>, weight: nat, boundWeight: real) {

    ghost predicate Valid() {
      && |touched| == |scope|
      && (forall a: nat, b: nat :: a < |scope| && b < |scope| && a in scope[b] ==> a != b && b in scope[a])
      && (forall b: nat :: b < |scope| ==> InRange(scope[b]) && InRange(touched[b]) && scope[b] != {})
      && (forall b: nat :: b < |scope| ==> touched[b] <= scope[b] + {b})
      && (forall a: nat, b: nat :: a < |scope| && b < |scope| && a != b && touched[a] * touched[b] != {} ==> a in scope[b])
      && FP_ONE <= weight
      && boundWeight * (FP_ONE as real) >= weight as real
    }

    ghost predicate InRange(s: set<nat>) {
      forall b :: b in s ==> b < |scope|
    }

    function FPrimeOf(x: Node): nat { FPrime(weight, x.g, x.h) }

    /** What the free list is pruned for: nothing in the block can beat the bound. */
    ghost predicate Hopeless(open: set<Node>, bound: nat) {
      forall x :: x in open ==> FPrimeOf(x) as real >= bound as real * boundWeight
    }

    /** For every node of `other` there is one in `best` that is not worse. */
    ghost predicate NoWorse(best: set<Node>, other: set<Node>) {
      forall y :: y in other ==> exists x :: x in best && FPrimeOf(x) <= FPrimeOf(y)
    }

    /** The best published value of the block is not worse than that of any other in `s`. */
    ghost predicate BestOf(open: seq<set<Node>>, n: nat, s: set<nat>)
      requires |open| == |scope| && InRange(s)
    {
      && n in s
      && forall m :: m in s ==> NoWorse(open[n], open[m])
    }

    ghost predicate Free(inuse: set<nat>, hot: set<nat>, open: seq<set<Node>>, b: nat) {
      && b < |scope| == |open|
      && b !in inuse
      && scope[b] !! inuse
      && scope[b] !! hot
      && open[b] != {}
    }
  }

  datatype State = State(
    inuse: set<nat>,
    hot: set<nat>,
    listed: set<nat>,
    open: seq<set<Node>>,
    bound: nat,
    done: bool,
    phase: map<nat, Phase>)

  ghost predicate WellFormed(c: Config, s: State) {
    && |s.open| == |c.scope|
    && c.InRange(s.inuse) && c.InRange(s.hot) && c.InRange(s.listed)
  }

  ghost predicate IsFree(c: Config, s: State, b: nat) {
    c.Free(s.inuse, s.hot, s.open, b)
  }

  /** The free list after blocks were taken, released, heated or cooled: what
      became free is added, what stopped being free is removed, and a free
      block that was pruned earlier stays away. */
  ghost function Relist(c: Config, s: State, inuse: set<nat>, hot: set<nat>): set<nat> {
    set b: nat | b < |c.scope| && c.Free(inuse, hot, s.open, b) && (b in s.listed || !IsFree(c, s, b))
  }

  ghost function Rearranged(c: Config, s: State, inuse: set<nat>, hot: set<nat>): State {
    s.(inuse := inuse, hot := hot, listed := Relist(c, s, inuse, hot))
  }

  /** A hot block stays hot as long as a block of its scope is in use. */
  ghost function StillHot(c: Config, hot: set<nat>, inuse: set<nat>): set<nat> {
    set b | b in hot && b < |c.scope| && c.scope[b] * inuse != {}
  }

  ghost function Acquire(c: Config, s: State, n: nat): State {
    Rearranged(c, s, s.inuse + {n}, s.hot)
  }

  ghost function Release(c: Config, s: State, n: nat): State {
    Rearranged(c, s, s.inuse - {n}, StillHot(c, s.hot, s.inuse - {n}))
  }

  ghost function Heat(c: Config, s: State, b: nat): State
    requires b < |c.scope|
  {
    Rearranged(c, s, s.inuse, s.hot - c.scope[b] + {b})
  }

  ghost function Cool(c: Config, s: State, b: nat): State
    requires b < |c.scope|
  {
    Rearranged(c, s, s.inuse, s.hot - c.scope[b])
  }

  ghost predicate AllSigmaZero(c: Config, s: State) {
    forall b: nat :: b < |c.scope| ==> c.scope[b] !! s.inuse
  }

  ghost function WakeAll(phase: map<nat, Phase>): map<nat, Phase> {
    map t | t in phase :: if phase[t].Asleep? then Ready else phase[t]
  }

  /** What `next_nblock` comes to: a block, the end of the search, or a wait. */
  datatype Outcome = Take(block: nat) | Over | Wait

  /** The loop of `next_nblock` starts over with an empty free list. */
  ghost predicate StartOver(c: Config, s: State, s': State, o: Outcome) {
    if AllSigmaZero(c, s) then s' == s.(done := true) && o == Over
    else s' == s && o == if s.done then Over else Wait
  }

  /** The front block `n` is taken, or the whole list is pruned. */
  ghost predicate TakeFront(c: Config, s: State, s': State, o: Outcome, n: nat)
    requires WellFormed(c, s)
  {
    && c.BestOf(s.open, n, s.listed)
    && if c.Hopeless(s.open[n], s.bound) then StartOver(c, s.(listed := {}), s', o)
       else s' == Acquire(c, s, n) && o == Take(n)
  }

  /** The rest of `next_nblock`, once the finished block has been released. */
  ghost predicate Pick(c: Config, s: State, s': State, o: Outcome)
    requires WellFormed(c, s)
  {
    if s.listed == {} then StartOver(c, s, s', o)
    else if s.done then s' == s && o == Over
    else exists n :: TakeFront(c, s, s', o, n)
  }

  /** The rest of `next_nblock`, once a waiting thread has been woken. */
  ghost predicate PickAgain(c: Config, s: State, s': State, o: Outcome)
    requires WellFormed(c, s)
  {
    if s.done then s' == s && o == Over
    else if s.listed == {} then s' == s && o == Wait
    else exists n :: TakeFront(c, s, s', o, n)
  }

  /** Setting the done flag wakes everybody; thread `t` goes where the outcome sends it. */
  ghost function Settle(s: State, m: State, t: nat, o: Outcome): State {
    var phase := if m.done && !s.done then WakeAll(s.phase) else s.phase;
    m.(phase := phase[t := match o case Take(n) => Holding(n) case Over => Exited case Wait => Asleep])
  }

  ghost predicate Picks(c: Config, s: State, s': State, t: nat)
    requires WellFormed(c, s)
  {
    exists m, o :: Pick(c, s, m, o) && s' == Settle(s, m, t, o)
  }

  ghost predicate Resumes(c: Config, s: State, s': State, t: nat)
    requires WellFormed(c, s)
  {
    exists m, o :: PickAgain(c, s, m, o) && s' == Settle(s, m, t, o)
  }

  datatype Step =
    | First(t: nat)            // next_nblock(NULL)
    | Next(t: nat, u: nat)     // next_nblock(finished); a signal goes to `u`
    | Spurious(t: nat)         // a wake-up without a signal
    | Resume(t: nat)           // a woken thread tests the free list
    | Search(t: nat)           // a thread changes open lists of the blocks it may touch
    | LowerBound(bound: nat)   // a better solution is published
    | MakeHot(t: nat, b: nat, broadcast: bool)
    | MakeCold(t: nat)

  ghost predicate Holds(s: State, t: nat) { t in s.phase && s.phase[t].Holding? }

  // ----- signals -----

  /** The finished block is free as soon as it is not in use: it is listed and one waiting thread is signalled. */
  ghost predicate AtOnce(c: Config, s: State, n: nat) {
    c.Free(s.inuse - {n}, s.hot, s.open, n)
  }

  /** What else the release lists: all waiting threads are signalled if there is any such block. */
  ghost function Later(c: Config, s: State, n: nat): set<nat> {
    Release(c, s, n).listed - s.listed - if AtOnce(c, s, n) then {n} else {}
  }

  ghost predicate SomeAsleep(phase: map<nat, Phase>) {
    exists u :: u in phase && phase[u].Asleep?
  }

  ghost function Signalled(phase: map<nat, Phase>, u: nat): map<nat, Phase> {
    if u in phase && phase[u].Asleep? then phase[u := Ready] else phase
  }

  /** The state in which thread `t` has given its block back and has sent the
      signals; a single one goes to `u`. */
  ghost function Released(c: Config, s: State, t: nat, u: nat): State
    requires Holds(s, t)
  {
    var n := s.phase[t].block;
    var phase := if AtOnce(c, s, n) then Signalled(s.phase[t := Outside], u) else s.phase[t := Outside];
    Release(c, s, n).(phase := if Later(c, s, n) != {} then WakeAll(phase) else phase)
  }

  /** The new state `m` is announced to the waiting threads, or not. */
  ghost function Announced(m: State, broadcast: bool): State {
    m.(phase := if broadcast then WakeAll(m.phase) else m.phase)
  }

  ghost predicate StepTo(c: Config, s: State, s': State, step: Step)
    requires WellFormed(c, s)
  {
    && (step.First? ==> step.t in s.phase && s.phase[step.t].Outside? && Picks(c, s, s', step.t))
    && (step.Next? ==> Holds(s, step.t) && WellFormed(c, Released(c, s, step.t, step.u)) &&
                       (AtOnce(c, s, s.phase[step.t].block) && SomeAsleep(s.phase) ==>
                          step.u in s.phase && s.phase[step.u].Asleep?) &&
                       Picks(c, Released(c, s, step.t, step.u), s', step.t))
    && (step.Spurious? ==> step.t in s.phase && s.phase[step.t].Asleep? &&
                           s' == s.(phase := s.phase[step.t := Ready]))
    && (step.Resume? ==> step.t in s.phase && s.phase[step.t].Ready? && Resumes(c, s, s', step.t))
    && (step.Search? ==> Holds(s, step.t) && SearchChanges(c, s, s', s.phase[step.t].block))
    && (step.LowerBound? ==> step.bound < s.bound && s' == s.(bound := step.bound))
    && (step.MakeHot? ==> Holds(s, step.t) && step.b < |c.scope| && step.b !in s.hot &&
                          c.scope[step.b] * s.inuse != {} &&
                          (step.broadcast || Heat(c, s, step.b).listed <= s.listed) &&
                          s' == Announced(Heat(c, s, step.b), step.broadcast))
    && (step.MakeCold? ==> Holds(s, step.t) && s.phase[step.t].block < |c.scope| &&
                           var m := Cool(c, s, s.phase[step.t].block);
                           s' == Announced(m, m.listed != s.listed))
  }

  ghost predicate CanStep(c: Config, s: State, s': State) {
    WellFormed(c, s) && exists step :: StepTo(c, s, s', step)
  }

  ghost function TheStep(c: Config, s: State, s': State): (step: Step)
    requires CanStep(c, s, s')
    ensures StepTo(c, s, s', step)
  {
    var step :| StepTo(c, s, s', step); step
  }

  /** Searching block `n` changes only the open lists of blocks it touches. */
  ghost predicate SearchChanges(c: Config, s: State, s': State, n: nat) {
    && n < |c.touched| == |s.open| == |s'.open|
    && s' == s.(open := s'.open)
    && forall b: nat :: b < |s.open| && b !in c.touched[n] ==> s'.open[b] == s.open[b]
  }

  ghost predicate Initial(c: Config, s: State) {
    && WellFormed(c, s)
    && s.inuse == {} && s.hot == {} && !s.done
    && (exists init: nat :: init < |s.open| && s.open[init] != {} && s.listed == {init}
          && forall b: nat :: b < |s.open| && b != init ==> s.open[b] == {})
    && s.phase != map[]
    && forall t :: t in s.phase ==> s.phase[t].Outside?
  }

  /** A block's holder: blocks in use and threads that hold them correspond one to one. */
  ghost predicate HeldOnce(s: State) {
    && (forall t :: t in s.phase && s.phase[t].Holding? ==> s.phase[t].block in s.inuse)
    && (forall b :: b in s.inuse ==> exists t :: t in s.phase && s.phase[t] == Holding(b))
    && (forall t, u :: t in s.phase && u in s.phase && t != u && s.phase[t].Holding? ==> s.phase[t] != s.phase[u])
  }

  /** Until the search is over some block is in use, except before the first
      thread asks; once it is over nobody sleeps. */
  ghost predicate Awake(s: State) {
    if s.done then forall t :: t in s.phase ==> !s.phase[t].Asleep?
    else s.inuse == {} ==> s.listed != {} && s.phase != map[] && forall t :: t in s.phase ==> s.phase[t].Outside?
  }

  /** No wake-up is lost: while a block is listed nobody waits without having been signalled. */
  ghost predicate NoneMissed(s: State) {
    s.listed != {} ==> !SomeAsleep(s.phase)
  }

  ghost predicate Quiet(c: Config, inuse: set<nat>, hot: set<nat>) {
    && (forall b :: b in inuse ==> b < |c.scope| && c.scope[b] !! inuse)
    && (forall b :: b in hot ==> b < |c.scope| && c.scope[b] !! hot && c.scope[b] * inuse != {})
  }

  ghost predicate ListedAreFree(c: Config, s: State) {
    forall b :: b in s.listed ==> IsFree(c, s, b)
  }

  ghost predicate UnlistedAreHopeless(c: Config, s: State)
    requires |s.open| == |c.scope|
  {
    forall b: nat :: b < |c.scope| && IsFree(c, s, b) && b !in s.listed ==> c.Hopeless(s.open[b], s.bound)
  }

  ghost predicate Inv(c: Config, s: State) {
    && WellFormed(c, s)
    && Quiet(c, s.inuse, s.hot)
    && ListedAreFree(c, s)
    && UnlistedAreHopeless(c, s)
    && HeldOnce(s)
    && Awake(s)
    && NoneMissed(s)
    && (s.done ==> s.inuse == {} && s.hot == {} && s.listed == {})
  }

  lemma InitialInv(c: Config, s: State)
    requires c.Valid() && Initial(c, s)
    ensures Inv(c, s)
  {
  }

  lemma RearrangedInv(c: Config, s: State, inuse: set<nat>, hot: set<nat>)
    requires c.Valid() && WellFormed(c, s) && ListedAreFree(c, s) && UnlistedAreHopeless(c, s)
    requires c.InRange(inuse) && c.InRange(hot)
    ensures var s' := Rearranged(c, s, inuse, hot);
            WellFormed(c, s') && ListedAreFree(c, s') && UnlistedAreHopeless(c, s')
  {
  }

  lemma Symmetric(c: Config, a: nat, b: nat)
    requires c.Valid() && a < |c.scope| && b < |c.scope|
    ensures a in c.scope[b] <==> b in c.scope[a]
  {
  }

  /** A free block may be taken: no block of its scope is in use or hot. */
  lemma AcquireQuiet(c: Config, s: State, n: nat)
    requires c.Valid() && WellFormed(c, s) && Quiet(c, s.inuse, s.hot) && IsFree(c, s, n)
    ensures Quiet(c, s.inuse + {n}, s.hot)
  {
    forall b | b in s.inuse ensures c.scope[b] !! s.inuse + {n} {
      Symmetric(c, n, b);
    }
    forall b | b in s.hot ensures c.scope[b] * (s.inuse + {n}) != {} {
      var x :| x in c.scope[b] * s.inuse;
      assert x in c.scope[b] * (s.inuse + {n});
    }
  }

  lemma ReleaseQuiet(c: Config, s: State, n: nat)
    requires c.Valid() && WellFormed(c, s) && Quiet(c, s.inuse, s.hot)
    ensures Quiet(c, s.inuse - {n}, StillHot(c, s.hot, s.inuse - {n}))
  {
  }

  lemma HeatQuiet(c: Config, s: State, b: nat)
    requires c.Valid() && WellFormed(c, s) && Quiet(c, s.inuse, s.hot)
    requires b < |c.scope| && c.scope[b] * s.inuse != {}
    ensures Quiet(c, s.inuse, s.hot - c.scope[b] + {b})
  {
    forall a | a in s.hot - c.scope[b] ensures b !in c.scope[a] {
    }
  }

  /** When every sigma is zero no block is in use, because every block interferes
      with another, and so none is hot. */
  lemma NothingInUse(c: Config, s: State)
    requires c.Valid() && WellFormed(c, s) && Quiet(c, s.inuse, s.hot) && AllSigmaZero(c, s)
    ensures s.inuse == {} && s.hot == {}
  {
    if s.inuse != {} {
      var b :| b in s.inuse;
      var x :| x in c.scope[b];
      Symmetric(c, b, x);
    }
  }

  ghost predicate AtMostOne(listed: set<nat>) {
    forall a, b :: a in listed && b in listed ==> a == b
  }

  /** What holds between releasing a block and the end of `next_nblock`: the
      thread `t` is awake and holds nothing. */
  ghost predicate Between(c: Config, s: State, t: nat) {
    && WellFormed(c, s)
    && Quiet(c, s.inuse, s.hot)
    && ListedAreFree(c, s)
    && UnlistedAreHopeless(c, s)
    && HeldOnce(s)
    && t in s.phase && (s.phase[t].Outside? || s.phase[t].Ready?)
    && (SomeAsleep(s.phase) ==> AtMostOne(s.listed))
    && (s.done ==> s.inuse == {} && s.hot == {} && s.listed == {} && Awake(s))
  }

  lemma StartOverInv(c: Config, s: State, m: State, t: nat, o: Outcome)
    requires c.Valid() && Between(c, s, t) && s.listed == {} && StartOver(c, s, m, o)
    ensures Inv(c, Settle(s, m, t, o))
  {
    if AllSigmaZero(c, s) {
      NothingInUse(c, s);
    } else {
      HeldKept(s, Settle(s, m, t, o), t);
    }
  }

  /** Changing the phase of a thread that holds nothing to another that holds nothing. */
  lemma HeldKept(s: State, s': State, t: nat)
    requires HeldOnce(s) && t in s.phase && !s.phase[t].Holding?
    requires s'.inuse == s.inuse && s'.phase.Keys == s.phase.Keys && !s'.phase[t].Holding?
    requires forall u :: u in s.phase && u != t ==> s'.phase[u] == s.phase[u]
    ensures HeldOnce(s')
  {
    forall b | b in s'.inuse ensures exists u :: u in s'.phase && s'.phase[u] == Holding(b) {
      var u :| u in s.phase && s.phase[u] == Holding(b);
      assert s'.phase[u] == Holding(b);
    }
  }

  /** Phases may change as long as holders keep their blocks and nobody else gets one. */
  lemma HoldersKept(s: State, s': State)
    requires HeldOnce(s) && s'.inuse == s.inuse && s'.phase.Keys == s.phase.Keys
    requires forall u :: u in s.phase ==> if s.phase[u].Holding? then s'.phase[u] == s.phase[u] else !s'.phase[u].Holding?
    ensures HeldOnce(s')
  {
    forall b | b in s'.inuse ensures exists u :: u in s'.phase && s'.phase[u] == Holding(b) {
      var u :| u in s.phase && s.phase[u] == Holding(b);
      assert s'.phase[u] == Holding(b);
    }
  }

  /** Taking a listed block lists nothing. */
  lemma AcquireUnlists(c: Config, s: State, n: nat)
    requires WellFormed(c, s)
    ensures Acquire(c, s, n).listed <= s.listed - {n}
  {
    forall b | b in Acquire(c, s, n).listed ensures b in s.listed && b != n {
      assert c.Free(s.inuse + {n}, s.hot, s.open, b);
      assert IsFree(c, s, b);
    }
  }

  lemma WorseIsHopeless(c: Config, best: set<Node>, other: set<Node>, bound: nat)
    requires c.Hopeless(best, bound) && c.NoWorse(best, other)
    ensures c.Hopeless(other, bound)
  {
    forall y | y in other ensures c.FPrimeOf(y) as real >= bound as real * c.boundWeight {
      var x :| x in best && c.FPrimeOf(x) <= c.FPrimeOf(y);
    }
  }

  /** If the front block is hopeless, all listed blocks are. */
  lemma PruneBetween(c: Config, s: State, t: nat, n: nat)
    requires c.Valid() && Between(c, s, t) && !s.done
    requires c.BestOf(s.open, n, s.listed) && c.Hopeless(s.open[n], s.bound)
    ensures Between(c, s.(listed := {}), t)
  {
    hide Config.Hopeless;
    var p := s.(listed := {});
    forall b: nat | b < |c.scope| && IsFree(c, p, b) ensures c.Hopeless(p.open[b], p.bound) {
      assert IsFree(c, s, b);
      if b in s.listed {
        WorseIsHopeless(c, s.open[n], s.open[b], s.bound);
      }
    }
  }

  lemma TakeHeld(s: State, s': State, t: nat, n: nat)
    requires HeldOnce(s) && t in s.phase && !s.phase[t].Holding? && n !in s.inuse
    requires s'.inuse == s.inuse + {n} && s'.phase == s.phase[t := Holding(n)]
    ensures HeldOnce(s')
  {
    assert s'.phase[t] == Holding(n);
    forall b | b in s'.inuse ensures exists u :: u in s'.phase && s'.phase[u] == Holding(b) {
      if b != n {
        var u :| u in s.phase && s.phase[u] == Holding(b);
        assert s'.phase[u] == Holding(b);
      }
    }
  }

  lemma TakeFrontInv(c: Config, s: State, m: State, t: nat, o: Outcome, n: nat)
    requires c.Valid() && Between(c, s, t) && !s.done && TakeFront(c, s, m, o, n)
    ensures Inv(c, Settle(s, m, t, o))
  {
    if c.Hopeless(s.open[n], s.bound) {
      PruneBetween(c, s, t, n);
      StartOverInv(c, s.(listed := {}), m, t, o);
    } else {
      assert IsFree(c, s, n);
      AcquireQuiet(c, s, n);
      RearrangedInv(c, s, s.inuse + {n}, s.hot);
      AcquireUnlists(c, s, n);
      TakeHeld(s, Settle(s, m, t, o), t, n);
    }
  }

  lemma PickInv(c: Config, s: State, m: State, t: nat, o: Outcome)
    requires c.Valid() && Between(c, s, t) && Pick(c, s, m, o)
    ensures Inv(c, Settle(s, m, t, o))
  {
    hide Config.Valid, StartOver, TakeFront, HeldOnce, ListedAreFree, UnlistedAreHopeless, Quiet, Inv, Settle;
    if s.listed == {} {
      StartOverInv(c, s, m, t, o);
    } else {
      var n :| TakeFront(c, s, m, o, n);
      TakeFrontInv(c, s, m, t, o, n);
    }
  }

  lemma PicksInv(c: Config, s: State, s': State, t: nat)
    requires c.Valid() && Between(c, s, t) && Picks(c, s, s', t)
    ensures Inv(c, s')
  {
    var m, o :| Pick(c, s, m, o) && s' == Settle(s, m, t, o);
    PickInv(c, s, m, t, o);
  }

  lemma ResumesInv(c: Config, s: State, s': State, t: nat)
    requires c.Valid() && Inv(c, s) && t in s.phase && s.phase[t].Ready? && Resumes(c, s, s', t)
    ensures Inv(c, s')
  {
    var m, o :| PickAgain(c, s, m, o) && s' == Settle(s, m, t, o);
    if s.done || s.listed == {} {
      HeldKept(s, s', t);
    } else {
      var n :| TakeFront(c, s, m, o, n);
      TakeFrontInv(c, s, m, t, o, n);
    }
  }

  /** The release without the signals. */
  ghost function Unannounced(c: Config, s: State, t: nat): State
    requires Holds(s, t)
  {
    Release(c, s, s.phase[t].block).(phase := s.phase[t := Outside])
  }

  lemma ReleaseHeld(c: Config, s: State, t: nat)
    requires HeldOnce(s) && Holds(s, t)
    ensures HeldOnce(Unannounced(c, s, t))
  {
    hide Relist;
    var q := Unannounced(c, s, t);
    forall b | b in q.inuse ensures exists u :: u in q.phase && q.phase[u] == Holding(b) {
      var u :| u in s.phase && s.phase[u] == Holding(b);
      assert q.phase[u] == Holding(b);
    }
  }

  lemma ReleaseBetween(c: Config, s: State, t: nat, u: nat)
    requires c.Valid() && Inv(c, s) && Holds(s, t)
    ensures Between(c, Released(c, s, t, u), t)
  {
    var n := s.phase[t].block;
    assert n in s.inuse;
    var r := Released(c, s, t, u);
    ReleaseQuiet(c, s, n);
    RearrangedInv(c, s, s.inuse - {n}, StillHot(c, s.hot, s.inuse - {n}));
    ReleaseHeld(c, s, t);
    hide Config.Valid, Quiet, UnlistedAreHopeless, ListedAreFree, Config.Free, Relist, AtOnce, Later, HeldOnce, StillHot;
    SignalsKeepHolders(c, s, t, u);
    SignalsReach(c, s, t, u);
    SameAfterSignals(c, s, t, u);
  }

  lemma SignalsKeepHolders(c: Config, s: State, t: nat, u: nat)
    requires Holds(s, t) && HeldOnce(Unannounced(c, s, t))
    ensures HeldOnce(Released(c, s, t, u))
    ensures t in Released(c, s, t, u).phase && Released(c, s, t, u).phase[t].Outside?
  {
    hide Relist, AtOnce, Later, HeldOnce, StillHot;
    HoldersKept(Unannounced(c, s, t), Released(c, s, t, u));
  }

  /** Who still sleeps after the signals slept before, and nothing but the finished block was listed. */
  lemma SignalsReach(c: Config, s: State, t: nat, u: nat)
    requires Holds(s, t) && NoneMissed(s)
    ensures var r := Released(c, s, t, u); SomeAsleep(r.phase) ==> AtMostOne(r.listed)
  {
    hide Relist, AtOnce, StillHot;
    var r, n := Released(c, s, t, u), s.phase[t].block;
    if SomeAsleep(r.phase) {
      var v :| v in r.phase && r.phase[v].Asleep?;
      assert v in s.phase && s.phase[v].Asleep?;
      assert s.listed == {} && Later(c, s, n) == {};
      assert forall b :: b in r.listed && b != n ==> b in Later(c, s, n);
    }
  }

  /** Signals change phases only. */
  lemma SameAfterSignals(c: Config, s: State, t: nat, u: nat)
    requires Holds(s, t) && WellFormed(c, s)
    ensures var q, r := Unannounced(c, s, t), Released(c, s, t, u);
            && r == q.(phase := r.phase)
            && (WellFormed(c, q) <==> WellFormed(c, r)) && (ListedAreFree(c, q) <==> ListedAreFree(c, r))
            && (|q.open| == |c.scope| ==> (UnlistedAreHopeless(c, q) <==> UnlistedAreHopeless(c, r)))
  {
    hide Relist, AtOnce, Later, StillHot;
  }

  /** No listed block, and no free one, is among those that a searching thread touches. */
  lemma SearchTouchesNoFreeBlock(c: Config, s: State, n: nat, b: nat)
    requires c.Valid() && WellFormed(c, s) && n in s.inuse && IsFree(c, s, b)
    ensures b !in c.touched[n]
  {
    Symmetric(c, n, b);
  }

  lemma SearchInv(c: Config, s: State, s': State, t: nat)
    requires c.Valid() && Inv(c, s) && Holds(s, t) && SearchChanges(c, s, s', s.phase[t].block)
    ensures Inv(c, s')
  {
    var n := s.phase[t].block;
    assert n in s.inuse;
    forall b: nat | b < |c.scope| && (IsFree(c, s, b) || IsFree(c, s', b)) ensures s'.open[b] == s.open[b] {
      Symmetric(c, n, b);
    }
  }

  lemma LowerBoundInv(c: Config, s: State, bound: nat)
    requires c.Valid() && Inv(c, s) && bound < s.bound
    ensures Inv(c, s.(bound := bound))
  {
    hide Config.Hopeless;
    forall b: nat | b < |c.scope| && IsFree(c, s, b) && b !in s.listed ensures c.Hopeless(s.open[b], bound) {
      StillHopeless(c, s.open[b], s.bound, bound);
    }
  }

  lemma StillHopeless(c: Config, open: set<Node>, was: nat, bound: nat)
    requires c.Valid() && c.Hopeless(open, was) && bound < was
    ensures c.Hopeless(open, bound)
  {
    assert bound as real * c.boundWeight <= was as real * c.boundWeight by {
      SmallerProduct(bound as real, was as real, c.boundWeight);
    }
  }

  lemma SmallerProduct(a: real, b: real, k: real)
    requires a <= b && k >= 0.0
    ensures a * k <= b * k
  {
  }

  lemma SpuriousInv(c: Config, s: State, s': State, t: nat)
    requires c.Valid() && Inv(c, s) && t in s.phase && s.phase[t].Asleep? && s' == s.(phase := s.phase[t := Ready])
    ensures Inv(c, s')
  {
    hide Config.Valid, Quiet, UnlistedAreHopeless, HeldOnce;
    HeldKept(s, s', t);
    assert UnlistedAreHopeless(c, s') by { SamePhaseless(c, s, s'); }
  }

  /** What does not depend on the phases. */
  lemma SamePhaseless(c: Config, s: State, s': State)
    requires s' == s.(phase := s'.phase) && |s.open| == |c.scope|
    ensures UnlistedAreHopeless(c, s) <==> UnlistedAreHopeless(c, s')
    ensures ListedAreFree(c, s) <==> ListedAreFree(c, s')
  {
  }

  lemma HeatInv(c: Config, s: State, s': State, b: nat, broadcast: bool)
    requires c.Valid() && Inv(c, s) && b < |c.scope| && c.scope[b] * s.inuse != {}
    requires broadcast || Heat(c, s, b).listed <= s.listed
    requires s' == Announced(Heat(c, s, b), broadcast)
    ensures Inv(c, s')
  {
    var m := Heat(c, s, b);
    HeatQuiet(c, s, b);
    RearrangedInv(c, s, s.inuse, s.hot - c.scope[b] + {b});
    hide Config.Valid, Config.Free, Config.Hopeless, Quiet, UnlistedAreHopeless, ListedAreFree, Relist, HeldOnce;
    AnnouncedInv(c, s, m, broadcast);
  }

  lemma CoolInv(c: Config, s: State, s': State, n: nat)
    requires c.Valid() && Inv(c, s) && n < |c.scope| && n in s.inuse && s' == Announced(Cool(c, s, n), Cool(c, s, n).listed != s.listed)
    ensures Inv(c, s')
  {
    var m := Cool(c, s, n);
    RearrangedInv(c, s, s.inuse, s.hot - c.scope[n]);
    assert Quiet(c, m.inuse, m.hot);
    hide Config.Valid, Config.Free, Config.Hopeless, Quiet, UnlistedAreHopeless, ListedAreFree, Relist, HeldOnce;
    AnnouncedInv(c, s, m, m.listed != s.listed);
  }

  /** Blocks were rearranged, with a broadcast if any became listed. */
  lemma AnnouncedInv(c: Config, s: State, m: State, broadcast: bool)
    requires Inv(c, s) && m == s.(hot := m.hot, listed := m.listed) && WellFormed(c, m)
    requires Quiet(c, m.inuse, m.hot) && ListedAreFree(c, m) && UnlistedAreHopeless(c, m)
    requires s.inuse != {} && (broadcast || m.listed <= s.listed)
    ensures Inv(c, Announced(m, broadcast))
  {
    hide Quiet, UnlistedAreHopeless, ListedAreFree, HeldOnce;
    var s' := Announced(m, broadcast);
    HoldersKept(s, s');
    SamePhaseless(c, m, s');
  }

  /** Every step of every thread keeps the invariant. */
  lemma StepInv(c: Config, s: State, s': State, step: Step)
    requires c.Valid() && Inv(c, s) && StepTo(c, s, s', step)
    ensures Inv(c, s')
  {
    match step
    case First(t) => PicksInv(c, s, s', t);
    case Next(t, u) =>
      ReleaseBetween(c, s, t, u);
      PicksInv(c, Released(c, s, t, u), s', t);
    case Spurious(t) => SpuriousInv(c, s, s', t);
    case Resume(t) => ResumesInv(c, s, s', t);
    case Search(t) => SearchInv(c, s, s', t);
    case LowerBound(bound) => LowerBoundInv(c, s, bound);
    case MakeHot(t, b, broadcast) => HeatInv(c, s, s', b, broadcast);
    case MakeCold(t) =>
      assert s.phase[t].block in s.inuse;
      CoolInv(c, s, s', s.phase[t].block);
  }
}
