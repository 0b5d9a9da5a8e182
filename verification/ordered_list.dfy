/**
 * The non-blocking ordered list (Harris's algorithm) as a state machine whose
 * steps are the loads and compare-and-swaps of the program.
 *
 * Nodes are named by their numbers and never reused: the reference counts of
 * the free list keep a node alive as long as a thread knows it.  Values are
 * compared through a key; two values have the same key when they compare equal.
 */
module OrderedLists {

  const HEAD: nat := 0
  const TAIL: nat := 1

  /** `next` and `marked` are one word of memory. */
  datatype Node = Node(key: int, next: nat, marked: bool, inserted: bool)

  datatype Op =
    | Find(k: int)
    | Insert(k: int, node: nat)
    | Remove(k: int)
    | Cleanup(k: int)   // the search that a removal ends with

  /** The left node of a search with the successor it had when it was read, and
      the marked nodes passed since.  `absent` remembers whether the key was
      absent when that successor was read. */
  datatype Left = NoLeft | Left(l: nat, ln: nat, seg: seq<nat>, absent: bool)

  datatype Pc =
    | Start(op: Op)                                                     // about to load the head's link
    | Walk(op: Op, left: Left, t: nat, tn: nat, tm: bool, absent: bool) // has loaded the link of `t`
    | Found(op: Op, l: nat, ln: nat, seg: seq<nat>, right: nat, absent: bool)
    | Recheck(op: Op, l: nat, right: nat, absent: bool)                 // has unlinked what was between
    | Done(op: Op, l: nat, right: nat, absent: bool, present: bool)     // the search has returned
    | Linked(op: Op, l: nat, right: nat)                                // the new node points to `right`
    | Marking(op: Op, l: nat, right: nat, n: nat)                       // about to mark `right`
    | Unlinking(op: Op, l: nat, right: nat, n: nat)                     // has marked `right`

  /** `chain` is an auxiliary variable: the nodes from the head to the tail. */
  datatype State = State(nodes: seq<Node>, threads: map<nat, Pc>, chain: seq<nat>)

  /** The order of the list; the head comes first and the tail last. */
  predicate Before(nodes: seq<Node>, a: nat, b: nat)
    requires a < |nodes| && b < |nodes|
  {
    a != TAIL && b != HEAD && (a == HEAD || b == TAIL || nodes[a].key < nodes[b].key)
  }

  predicate Below(nodes: seq<Node>, a: nat, k: int) {
    a < |nodes| && (a == HEAD || (a != TAIL && nodes[a].key < k))
  }

  predicate Above(nodes: seq<Node>, a: nat, k: int) {
    a < |nodes| && (a == TAIL || (a != HEAD && k < nodes[a].key))
  }

  predicate HasKey(nodes: seq<Node>, a: nat, k: int) {
    a < |nodes| && a != HEAD && a != TAIL && nodes[a].key == k
  }

  ghost predicate Alive(nodes: seq<Node>, n: nat) {
    n < |nodes| && n != HEAD && n != TAIL && nodes[n].inserted && !nodes[n].marked
  }

  /** The set that the list stands for. */
  ghost function Keys(nodes: seq<Node>): set<int> {
    set n: nat | n < |nodes| && Alive(nodes, n) :: nodes[n].key
  }

  function SetNext(nodes: seq<Node>, n: nat, next: nat): seq<Node>
    requires n < |nodes|
  {
    nodes[n := nodes[n].(next := next)]
  }

  // ----- the steps -----

  datatype Step =
    | Begin(t: nat, op: Op)
    | LoadHead(t: nat)
    | Advance(t: nat)
    | Judge(t: nat)
    | Unlink(t: nat)
    | Check(t: nat)
    | Finish(t: nat)
    | LinkNew(t: nat)
    | InsertCas(t: nat)
    | LoadNext(t: nat)
    | MarkCas(t: nat)
    | UnlinkOne(t: nat)

  ghost function Put(s: State, t: nat, pc: Pc): State { s.(threads := s.threads[t := pc]) }

  ghost function End(s: State, t: nat): State { s.(threads := s.threads - {t}) }

  ghost predicate StepTo(s: State, s': State, step: Step) {
    if step.Begin? then step.t !in s.threads && BeginStep(s, s', step.t, step.op)
    else step.t in s.threads && ThreadStep(s, s', step, s.threads[step.t])
  }

  ghost predicate ThreadStep(s: State, s': State, step: Step, pc: Pc) {
    match step
    case Begin(_, _) => false
    case LoadHead(t) => pc.Start? && LoadHeadStep(s, s', t, pc.op)
    case Advance(t) => pc.Walk? && AdvanceStep(s, s', t, pc)
    case Judge(t) => pc.Found? && pc.ln == pc.right && CheckStep(s, s', t, pc.op, pc.l, pc.right, pc.absent)
    case Unlink(t) => pc.Found? && pc.ln != pc.right && UnlinkStep(s, s', t, pc)
    case Check(t) => pc.Recheck? && CheckStep(s, s', t, pc.op, pc.l, pc.right, pc.absent)
    case Finish(t) => pc.Done? && Returns(s.nodes, pc) && s' == End(s, t)
    case LinkNew(t) => pc.Done? && pc.op.Insert? && !Returns(s.nodes, pc) && LinkNewStep(s, s', t, pc)
    case InsertCas(t) => pc.Linked? && pc.op.Insert? && InsertStep(s, s', t, pc)
    case LoadNext(t) => pc.Done? && pc.op.Remove? && !Returns(s.nodes, pc) && LoadNextStep(s, s', t, pc)
    case MarkCas(t) => pc.Marking? && MarkStep(s, s', t, pc)
    case UnlinkOne(t) => pc.Unlinking? && UnlinkOneStep(s, s', t, pc)
  }

  /** An insertion starts by taking a new node. */
  ghost predicate BeginStep(s: State, s': State, t: nat, op: Op) {
    && !op.Cleanup?
    && (op.Insert? ==> op.node == |s.nodes|)
    && s' == Put(if op.Insert? then s.(nodes := s.nodes + [Node(op.k, TAIL, false, false)]) else s, t, Start(op))
  }

  ghost predicate LoadHeadStep(s: State, s': State, t: nat, op: Op) {
    && HEAD < |s.nodes|
    && s' == Put(s, t, Walk(op, NoLeft, HEAD, s.nodes[HEAD].next, s.nodes[HEAD].marked, op.k !in Keys(s.nodes)))
  }

  /** The left node after node `t` with the link (tn, tm) has been passed. */
  function Passed(left: Left, t: nat, tn: nat, tm: bool, absent: bool): Left {
    if !tm then Left(t, tn, [], absent)
    else if left.NoLeft? then NoLeft
    else left.(seg := left.seg + [t])
  }

  /** One round of the loop of `search`. */
  ghost predicate AdvanceStep(s: State, s': State, t: nat, pc: Pc)
    requires pc.Walk?
  {
    && pc.tn < |s.nodes|
    && var left := Passed(pc.left, pc.t, pc.tn, pc.tm, pc.absent);
       var x := s.nodes[pc.tn];
       if pc.tn != TAIL && (x.marked || Below(s.nodes, pc.tn, pc.op.k)) then
         s' == Put(s, t, Walk(pc.op, left, pc.tn, x.next, x.marked, pc.op.k !in Keys(s.nodes)))
       else left.Left? && s' == Put(s, t, Found(pc.op, left.l, left.ln, left.seg, pc.tn, left.absent))
  }

  /** The right node must not be marked. */
  ghost predicate CheckStep(s: State, s': State, t: nat, op: Op, l: nat, right: nat, absent: bool) {
    && right < |s.nodes|
    && s' == Put(s, t, if right != TAIL && s.nodes[right].marked then Start(op)
                       else Done(op, l, right, absent, op.k in Keys(s.nodes)))
  }

  /** A compare-and-swap of the unmarked link of `n` from `was` to `next`. */
  predicate CasHits(nodes: seq<Node>, n: nat, was: nat)
    requires n < |nodes|
  {
    nodes[n].next == was && !nodes[n].marked
  }

  /** The chain without what lies between `a` and `b`. */
  ghost function Cut(chain: seq<nat>, a: nat, b: nat): seq<nat> {
    if a in chain && b in chain && Index(chain, a) < Index(chain, b)
    then chain[..Index(chain, a) + 1] + chain[Index(chain, b)..] else chain
  }

  ghost function Index(chain: seq<nat>, a: nat): (i: nat)
    requires a in chain
    ensures i < |chain| && chain[i] == a
  {
    var i: nat :| i < |chain| && chain[i] == a; i
  }

  ghost predicate UnlinkStep(s: State, s': State, t: nat, pc: Pc)
    requires pc.Found?
  {
    && pc.l < |s.nodes|
    && s' == if !CasHits(s.nodes, pc.l, pc.ln) then Put(s, t, Start(pc.op))
             else Put(s.(nodes := SetNext(s.nodes, pc.l, pc.right), chain := Cut(s.chain, pc.l, pc.right)),
                      t, Recheck(pc.op, pc.l, pc.right, pc.op.k !in Keys(s.nodes)))
  }

  /** Whether the operation ends with what its search found. */
  predicate Returns(nodes: seq<Node>, pc: Pc)
    requires pc.Done?
  {
    match pc.op
    case Find(_) => true
    case Cleanup(_) => true
    case Insert(k, _) => HasKey(nodes, pc.right, k)
    case Remove(k) => !HasKey(nodes, pc.right, k)
  }

  ghost predicate LinkNewStep(s: State, s': State, t: nat, pc: Pc)
    requires pc.Done? && pc.op.Insert?
  {
    && pc.op.node < |s.nodes|
    && s' == Put(s.(nodes := SetNext(s.nodes, pc.op.node, pc.right)), t, Linked(pc.op, pc.l, pc.right))
  }

  ghost function InsertAfter(chain: seq<nat>, a: nat, n: nat): seq<nat> {
    if a in chain then chain[..Index(chain, a) + 1] + [n] + chain[Index(chain, a) + 1..] else chain
  }

  ghost predicate InsertStep(s: State, s': State, t: nat, pc: Pc)
    requires pc.Linked? && pc.op.Insert?
  {
    && pc.l < |s.nodes| && pc.op.node < |s.nodes|
    && s' == if !CasHits(s.nodes, pc.l, pc.right) then Put(s, t, Start(pc.op))
             else End(s.(nodes := SetNext(s.nodes, pc.l, pc.op.node)[pc.op.node := s.nodes[pc.op.node].(inserted := true)],
                         chain := InsertAfter(s.chain, pc.l, pc.op.node)), t)
  }

  ghost predicate LoadNextStep(s: State, s': State, t: nat, pc: Pc)
    requires pc.Done?
  {
    && pc.right < |s.nodes|
    && s' == Put(s, t, if s.nodes[pc.right].marked then Start(pc.op)
                       else Marking(pc.op, pc.l, pc.right, s.nodes[pc.right].next))
  }

  ghost predicate MarkStep(s: State, s': State, t: nat, pc: Pc)
    requires pc.Marking?
  {
    && pc.right < |s.nodes|
    && s' == if !CasHits(s.nodes, pc.right, pc.n) then Put(s, t, Start(pc.op))
             else Put(s.(nodes := s.nodes[pc.right := s.nodes[pc.right].(marked := true)]),
                      t, Unlinking(pc.op, pc.l, pc.right, pc.n))
  }

  ghost predicate UnlinkOneStep(s: State, s': State, t: nat, pc: Pc)
    requires pc.Unlinking?
  {
    && pc.l < |s.nodes|
    && s' == if !CasHits(s.nodes, pc.l, pc.right) then Put(s, t, Start(Cleanup(pc.op.k)))
             else End(s.(nodes := SetNext(s.nodes, pc.l, pc.n), chain := Cut(s.chain, pc.l, pc.n)), t)
  }

  // ----- the invariant -----

  ghost predicate NodeOk(nodes: seq<Node>, n: nat)
    requires n < |nodes|
  {
    && nodes[n].next < |nodes|
    && (n == HEAD || n == TAIL ==> nodes[n].inserted && !nodes[n].marked)
    && (nodes[n].inserted && n != TAIL ==> nodes[nodes[n].next].inserted && Before(nodes, n, nodes[n].next))
  }

  ghost predicate NodesOk(nodes: seq<Node>) {
    2 <= |nodes| && forall n: nat :: n < |nodes| ==> NodeOk(nodes, n)
  }

  ghost predicate Follows(nodes: seq<Node>, chain: seq<nat>, i: nat)
    requires i < |chain|
  {
    && In(nodes, chain[i])
    && (i + 1 < |chain| ==> chain[i] != TAIL && nodes[chain[i]].next == chain[i + 1])
  }

  /** The chain from the head is strictly sorted, reaches the tail, and misses no unmarked node. */
  ghost predicate ChainOk(nodes: seq<Node>, chain: seq<nat>)
    requires NodesOk(nodes)
  {
    && 2 <= |chain| && chain[0] == HEAD && chain[|chain| - 1] == TAIL
    && (forall i: nat :: i < |chain| ==> chain[i] < |nodes|)
    && (forall i: nat :: i < |chain| ==> Follows(nodes, chain, i))
    && (forall n: nat :: n < |nodes| && nodes[n].inserted && !nodes[n].marked ==> n in chain)
  }

  ghost predicate In(nodes: seq<Node>, n: nat) { n < |nodes| && nodes[n].inserted }

  /** From `a` over the marked nodes of `seg` to `b`. */
  ghost predicate MarkedPath(nodes: seq<Node>, a: nat, seg: seq<nat>, b: nat) {
    && (if seg == [] then a == b else seg[0] == a)
    && forall i: nat :: i < |seg| ==> PathAt(nodes, seg, b, i)
  }

  ghost predicate PathAt(nodes: seq<Node>, seg: seq<nat>, b: nat, i: nat)
    requires i < |seg|
  {
    && In(nodes, seg[i]) && nodes[seg[i]].marked
    && nodes[seg[i]].next == if i + 1 < |seg| then seg[i + 1] else b
  }

  ghost predicate LeftOk(nodes: seq<Node>, k: int, l: nat, ln: nat, seg: seq<nat>, b: nat, absent: bool) {
    && In(nodes, l) && In(nodes, ln) && In(nodes, b)
    && Below(nodes, l, k) && MarkedPath(nodes, ln, seg, b)
    && (Above(nodes, ln, k) ==> absent)
  }

  ghost predicate Positioned(nodes: seq<Node>, k: int, l: nat, right: nat, absent: bool) {
    && In(nodes, l) && In(nodes, right) && Below(nodes, l, k)
    && (HasKey(nodes, right, k) || Above(nodes, right, k))
    && (Above(nodes, right, k) ==> absent)
  }

  ghost predicate OpOk(nodes: seq<Node>, op: Op) {
    op.Insert? ==>
      op.node < |nodes| && !nodes[op.node].inserted && !nodes[op.node].marked && nodes[op.node].key == op.k
  }

  ghost predicate PcOk(nodes: seq<Node>, pc: Pc) {
    && OpOk(nodes, pc.op)
    && match pc
       case Start(_) => true
       case Walk(op, left, t, tn, tm, absent) =>
         && In(nodes, t) && t != TAIL && In(nodes, tn) && Before(nodes, t, tn)
         && (tm ==> nodes[t].marked && nodes[t].next == tn)
         && (!tm ==> Below(nodes, t, op.k) && (Above(nodes, tn, op.k) ==> absent))
         && (if left.NoLeft? then t == HEAD && !tm
             else LeftOk(nodes, op.k, left.l, left.ln, left.seg, t, left.absent))
       case Found(op, l, ln, seg, right, absent) =>
         && LeftOk(nodes, op.k, l, ln, seg, right, absent)
         && (HasKey(nodes, right, op.k) || Above(nodes, right, op.k))
       case Recheck(op, l, right, absent) => Positioned(nodes, op.k, l, right, absent)
       case Done(op, l, right, absent, present) =>
         Positioned(nodes, op.k, l, right, absent) && (HasKey(nodes, right, op.k) ==> present)
       case Linked(op, l, right) =>
         && op.Insert? && Positioned(nodes, op.k, l, right, true)
         && Above(nodes, right, op.k) && nodes[op.node].next == right
       case Marking(op, l, right, n) =>
         op.Remove? && Positioned(nodes, op.k, l, right, true) && HasKey(nodes, right, op.k)
       case Unlinking(op, l, right, n) =>
         && op.Remove? && Positioned(nodes, op.k, l, right, true) && HasKey(nodes, right, op.k)
         && nodes[right].marked && nodes[right].next == n
  }

  /** No two insertions work on the same new node. */
  ghost predicate Private(threads: map<nat, Pc>) {
    forall t, u :: t in threads && u in threads && t != u && threads[t].op.Insert? && threads[u].op.Insert? ==>
      threads[t].op.node != threads[u].op.node
  }

  ghost predicate Inv(s: State) {
    && NodesOk(s.nodes) && ChainOk(s.nodes, s.chain)
    && (forall t :: t in s.threads ==> PcOk(s.nodes, s.threads[t]))
    && Private(s.threads)
  }

  // ----- what the threads rely on is never undone -----

  /** Keys, insertions, marks and the links of marked nodes are permanent, and new
      nodes other than `mine` stay as they are. */
  ghost predicate Grows(nodes: seq<Node>, nodes': seq<Node>, mine: nat) {
    && |nodes| <= |nodes'|
    && forall n: nat :: n < |nodes| ==>
         && nodes'[n].key == nodes[n].key
         && (nodes[n].inserted ==> nodes'[n].inserted)
         && (nodes[n].inserted && nodes[n].marked ==> nodes'[n].marked && nodes'[n].next == nodes[n].next)
         && (!nodes[n].inserted && n != mine ==> nodes'[n] == nodes[n])
  }

  lemma PcStable(nodes: seq<Node>, nodes': seq<Node>, mine: nat, pc: Pc)
    requires PcOk(nodes, pc) && Grows(nodes, nodes', mine)
    requires pc.op.Insert? ==> pc.op.node != mine
    ensures PcOk(nodes', pc)
  {
    if pc.Found? {
      LeftStable(nodes, nodes', mine, pc.op.k, pc.l, pc.ln, pc.seg, pc.right, pc.absent);
    } else if pc.Walk? && pc.left.Left? {
      LeftStable(nodes, nodes', mine, pc.op.k, pc.left.l, pc.left.ln, pc.left.seg, pc.t, pc.left.absent);
    }
    hide LeftOk;
  }

  lemma LeftStable(nodes: seq<Node>, nodes': seq<Node>, mine: nat, k: int, l: nat, ln: nat, seg: seq<nat>, b: nat, absent: bool)
    requires LeftOk(nodes, k, l, ln, seg, b, absent) && Grows(nodes, nodes', mine)
    ensures LeftOk(nodes', k, l, ln, seg, b, absent)
    ensures b < |nodes| <= |nodes'| && nodes'[b].key == nodes[b].key
  {
    forall i: nat | i < |seg| ensures PathAt(nodes', seg, b, i) {
      assert PathAt(nodes, seg, b, i);
    }
  }

  lemma ThreadsStable(s: State, s': State, t: nat, mine: nat)
    requires forall u :: u in s.threads ==> PcOk(s.nodes, s.threads[u])
    requires Grows(s.nodes, s'.nodes, mine)
    requires forall u :: u in s'.threads && u != t ==> u in s.threads && s'.threads[u] == s.threads[u]
    requires forall u :: u in s.threads && u != t && s.threads[u].op.Insert? ==> s.threads[u].op.node != mine
    requires t in s'.threads ==> PcOk(s'.nodes, s'.threads[t])
    ensures forall u :: u in s'.threads ==> PcOk(s'.nodes, s'.threads[u])
  {
    forall u | u in s'.threads ensures PcOk(s'.nodes, s'.threads[u]) {
      if u != t {
        PcStable(s.nodes, s'.nodes, mine, s.threads[u]);
      }
    }
  }

  // ----- the chain -----

  /** Neighbours are in order, and so the whole chain is. */
  lemma {:induction false} ChainSorted(nodes: seq<Node>, chain: seq<nat>, i: nat, j: nat)
    requires NodesOk(nodes) && ChainOk(nodes, chain) && i < j < |chain|
    ensures Before(nodes, chain[i], chain[j])
    decreases j - i
  {
    assert Follows(nodes, chain, j - 1) && NodeOk(nodes, chain[j - 1]);
    if i + 1 < j {
      ChainSorted(nodes, chain, i, j - 1);
    }
  }

  lemma IndexOf(nodes: seq<Node>, chain: seq<nat>, i: nat)
    requires NodesOk(nodes) && ChainOk(nodes, chain) && i < |chain|
    ensures chain[i] in chain && Index(chain, chain[i]) == i
  {
    var j := Index(chain, chain[i]);
    if j < i { ChainSorted(nodes, chain, j, i); }
    if i < j { ChainSorted(nodes, chain, i, j); }
  }

  /** From a node of the chain the marked path runs along the chain. */
  lemma {:induction false} PathOnChain(nodes: seq<Node>, chain: seq<nat>, i: nat, a: nat, seg: seq<nat>, b: nat)
    requires NodesOk(nodes) && ChainOk(nodes, chain) && i < |chain| && chain[i] == a && MarkedPath(nodes, a, seg, b)
    ensures i + |seg| < |chain| && chain[i + |seg|] == b
    ensures forall k: nat :: k < |seg| ==> chain[i + k] == seg[k]
    decreases |seg|
  {
    if seg != [] {
      var rest := seg[1..];
      assert PathAt(nodes, seg, b, 0) && NodeOk(nodes, TAIL) && Follows(nodes, chain, i);
      forall k: nat | k < |rest| ensures PathAt(nodes, rest, b, k) {
        assert PathAt(nodes, seg, b, k + 1);
      }
      PathOnChain(nodes, chain, i + 1, chain[i + 1], rest, b);
      forall k: nat | k < |seg| ensures chain[i + k] == seg[k] {
        if k > 0 { assert chain[(i + 1) + (k - 1)] == rest[k - 1]; }
      }
    }
  }

  /** No key lies between two neighbours, nor between two nodes with only marked ones between them. */
  lemma AbsentBetween(nodes: seq<Node>, chain: seq<nat>, i: nat, j: nat, k: int)
    requires NodesOk(nodes) && ChainOk(nodes, chain) && i < j < |chain|
    requires Below(nodes, chain[i], k) && Above(nodes, chain[j], k)
    requires forall m: nat :: i < m < j ==> nodes[chain[m]].marked
    ensures k !in Keys(nodes)
  {
    if k in Keys(nodes) {
      var n: nat :| n < |nodes| && Alive(nodes, n) && nodes[n].key == k;
      var m: nat :| m < |chain| && chain[m] == n;
      if m < i { ChainSorted(nodes, chain, m, i); }
      if j < m { ChainSorted(nodes, chain, j, m); }
    }
  }

  /** A key that is present has exactly one unmarked node. */
  lemma AliveIsUnique(nodes: seq<Node>, chain: seq<nat>, a: nat, b: nat)
    requires NodesOk(nodes) && ChainOk(nodes, chain) && Alive(nodes, a) && Alive(nodes, b)
    requires nodes[a].key == nodes[b].key
    ensures a == b
  {
    var i: nat :| i < |chain| && chain[i] == a;
    var j: nat :| j < |chain| && chain[j] == b;
    if i < j { ChainSorted(nodes, chain, i, j); }
    if j < i { ChainSorted(nodes, chain, j, i); }
  }

  lemma KeysKept(nodes: seq<Node>, nodes': seq<Node>)
    requires |nodes| == |nodes'| && forall n: nat :: Alive(nodes, n) <==> Alive(nodes', n)
    requires forall n: nat :: Alive(nodes, n) ==> nodes[n].key == nodes'[n].key
    ensures Keys(nodes) == Keys(nodes')
  {
    forall k ensures k in Keys(nodes) <==> k in Keys(nodes') {
      if k in Keys(nodes) {
        var n: nat :| n < |nodes| && Alive(nodes, n) && nodes[n].key == k;
        assert Alive(nodes', n) && nodes'[n].key == k;
      }
      if k in Keys(nodes') {
        var n: nat :| n < |nodes'| && Alive(nodes', n) && nodes'[n].key == k;
        assert Alive(nodes, n) && nodes[n].key == k;
      }
    }
  }

  /** Cutting out the marked nodes between the positions `i` and `j`. */
  lemma CutKeeps(nodes: seq<Node>, chain: seq<nat>, i: nat, j: nat)
    requires NodesOk(nodes) && ChainOk(nodes, chain) && i < j < |chain|
    requires forall m: nat :: i < m < j ==> nodes[chain[m]].marked
    ensures var nodes' := SetNext(nodes, chain[i], chain[j]);
            var chain' := chain[..i + 1] + chain[j..];
            && NodesOk(nodes') && ChainOk(nodes', chain') && Keys(nodes') == Keys(nodes)
            && Cut(chain, chain[i], chain[j]) == chain'
  {
    var nodes' := SetNext(nodes, chain[i], chain[j]);
    var chain' := chain[..i + 1] + chain[j..];
    ChainSorted(nodes, chain, i, j);
    assert Follows(nodes, chain, j);
    forall m: nat | m < |nodes'| ensures NodeOk(nodes', m) { assert NodeOk(nodes, m); }
    IndexOf(nodes, chain, i);
    IndexOf(nodes, chain, j);
    CutChain(nodes, chain, i, j);
    KeysKept(nodes, nodes');
  }

  lemma CutChain(nodes: seq<Node>, chain: seq<nat>, i: nat, j: nat)
    requires NodesOk(nodes) && ChainOk(nodes, chain) && i < j < |chain|
    requires NodesOk(SetNext(nodes, chain[i], chain[j]))
    requires forall m: nat :: i < m < j ==> nodes[chain[m]].marked
    ensures ChainOk(SetNext(nodes, chain[i], chain[j]), chain[..i + 1] + chain[j..])
  {
    var nodes' := SetNext(nodes, chain[i], chain[j]);
    var chain' := chain[..i + 1] + chain[j..];
    var d := j - i - 1;
    forall m: nat | m < |chain'| ensures chain'[m] == chain[if m <= i then m else m + d] {
    }
    forall m: nat | m < |chain'| ensures Follows(nodes', chain', m) {
      var x := if m <= i then m else m + d;
      assert Follows(nodes, chain, x);
      if m < i { ChainSorted(nodes, chain, m, i); }
      if m > i { ChainSorted(nodes, chain, i, x); }
    }
    forall n: nat | n < |nodes'| && nodes'[n].inserted && !nodes'[n].marked ensures n in chain' {
      assert nodes[n].inserted && !nodes[n].marked;
      var m: nat :| m < |chain| && chain[m] == n;
      assert chain'[if m <= i then m else m - d] == n;
    }
  }

  /** Putting a new node behind position `i`. */
  lemma InsertKeeps(nodes: seq<Node>, chain: seq<nat>, i: nat, n: nat)
    requires NodesOk(nodes) && ChainOk(nodes, chain) && i + 1 < |chain|
    requires n < |nodes| && !nodes[n].inserted && nodes[n].next == chain[i + 1] && !nodes[n].marked
    requires Below(nodes, chain[i], nodes[n].key) && Above(nodes, chain[i + 1], nodes[n].key)
    ensures var nodes' := SetNext(nodes, chain[i], n)[n := nodes[n].(inserted := true)];
            var chain' := chain[..i + 1] + [n] + chain[i + 1..];
            && NodesOk(nodes') && ChainOk(nodes', chain') && InsertAfter(chain, chain[i], n) == chain'
            && Keys(nodes') == Keys(nodes) + {nodes[n].key} && nodes[n].key !in Keys(nodes)
  {
    var nodes' := SetNext(nodes, chain[i], n)[n := nodes[n].(inserted := true)];
    assert Follows(nodes, chain, i) && Follows(nodes, chain, i + 1) && NodeOk(nodes, n);
    assert Before(nodes, chain[i], n) && Before(nodes, n, chain[i + 1]);
    forall m: nat | m < |nodes'| ensures NodeOk(nodes', m) { assert NodeOk(nodes, m); }
    IndexOf(nodes, chain, i);
    InsertChain(nodes, chain, i, n);
    AbsentBetween(nodes, chain, i, i + 1, nodes[n].key);
    InsertKeys(nodes, nodes', n);
  }

  lemma InsertKeys(nodes: seq<Node>, nodes': seq<Node>, n: nat)
    requires n < |nodes| && n != HEAD && n != TAIL && !nodes[n].inserted && Alive(nodes', n)
    requires forall m: nat :: m != n ==> (Alive(nodes, m) <==> Alive(nodes', m))
    requires |nodes| == |nodes'| && forall m: nat :: m < |nodes| ==> nodes[m].key == nodes'[m].key
    ensures Keys(nodes') == Keys(nodes) + {nodes[n].key}
  {
    forall k ensures k in Keys(nodes') <==> k in Keys(nodes) || k == nodes[n].key {
      if k in Keys(nodes) {
        var m: nat :| m < |nodes| && Alive(nodes, m) && nodes[m].key == k;
        assert Alive(nodes', m) && nodes'[m].key == k;
      }
      if k in Keys(nodes') {
        var m: nat :| m < |nodes'| && Alive(nodes', m) && nodes'[m].key == k;
        assert m != n ==> Alive(nodes, m);
      }
    }
  }

  lemma InsertChain(nodes: seq<Node>, chain: seq<nat>, i: nat, n: nat)
    requires NodesOk(nodes) && ChainOk(nodes, chain) && i + 1 < |chain|
    requires n < |nodes| && !nodes[n].inserted && nodes[n].next == chain[i + 1]
    requires Before(nodes, chain[i], n) && Before(nodes, n, chain[i + 1])
    requires NodesOk(SetNext(nodes, chain[i], n)[n := nodes[n].(inserted := true)])
    ensures ChainOk(SetNext(nodes, chain[i], n)[n := nodes[n].(inserted := true)], chain[..i + 1] + [n] + chain[i + 1..])
  {
    var nodes' := SetNext(nodes, chain[i], n)[n := nodes[n].(inserted := true)];
    var chain' := chain[..i + 1] + [n] + chain[i + 1..];
    forall m: nat | m < |chain'| ensures Follows(nodes', chain', m) {
      assert Follows(nodes, chain, if m <= i then m else m - 1);
      if m < i { ChainSorted(nodes, chain, m, i); }
      if m > i + 1 { ChainSorted(nodes, chain, i, m - 1); }
    }
    forall m: nat | m < |nodes'| && nodes'[m].inserted && !nodes'[m].marked ensures m in chain' {
      if m != n {
        var x: nat :| x < |chain| && chain[x] == m;
        assert chain'[if x <= i then x else x + 1] == m;
      } else {
        assert chain'[i + 1] == n;
      }
    }
  }

  /** Marking a node takes its key out of the set. */
  lemma MarkKeeps(nodes: seq<Node>, chain: seq<nat>, n: nat)
    requires NodesOk(nodes) && ChainOk(nodes, chain) && Alive(nodes, n)
    ensures var nodes' := nodes[n := nodes[n].(marked := true)];
            NodesOk(nodes') && ChainOk(nodes', chain) && Keys(nodes') == Keys(nodes) - {nodes[n].key}
    ensures nodes[n].key in Keys(nodes)
  {
    var nodes' := nodes[n := nodes[n].(marked := true)];
    forall m: nat | m < |nodes'| ensures NodeOk(nodes', m) { assert NodeOk(nodes, m); }
    forall m: nat | m < |chain| ensures Follows(nodes', chain, m) { assert Follows(nodes, chain, m); }
    assert ChainOk(nodes', chain);
    forall k ensures k in Keys(nodes') <==> k in Keys(nodes) && k != nodes[n].key {
      if k in Keys(nodes) && k != nodes[n].key {
        var m: nat :| m < |nodes| && Alive(nodes, m) && nodes[m].key == k;
        assert Alive(nodes', m) && nodes'[m].key == k;
      }
      if k in Keys(nodes') {
        var m: nat :| m < |nodes'| && Alive(nodes', m) && nodes'[m].key == k;
        assert Alive(nodes, m);
        if k == nodes[n].key { AliveIsUnique(nodes, chain, m, n); }
      }
    }
  }

  // ----- every step keeps the invariant -----

  lemma BeginInv(s: State, s': State, t: nat, op: Op)
    requires Inv(s) && t !in s.threads && BeginStep(s, s', t, op)
    ensures Inv(s') && Keys(s'.nodes) == Keys(s.nodes)
  {
    forall m: nat | m < |s.nodes| ensures NodeOk(s'.nodes, m) { assert NodeOk(s.nodes, m); }
    forall m: nat | m < |s.chain| ensures Follows(s'.nodes, s.chain, m) { assert Follows(s.nodes, s.chain, m); }
    forall n: nat | Alive(s'.nodes, n) ensures Alive(s.nodes, n) { }
    ThreadsStable(s, s', t, |s.nodes|);
    BeginKeys(s.nodes, op.k);
  }

  lemma BeginKeys(nodes: seq<Node>, k: int)
    ensures Keys(nodes + [Node(k, TAIL, false, false)]) == Keys(nodes)
  {
    var nodes' := nodes + [Node(k, TAIL, false, false)];
    forall x ensures x in Keys(nodes) <==> x in Keys(nodes') {
      if x in Keys(nodes) {
        var n: nat :| n < |nodes| && Alive(nodes, n) && nodes[n].key == x;
        assert Alive(nodes', n) && nodes'[n].key == x;
      }
      if x in Keys(nodes') {
        var n: nat :| n < |nodes'| && Alive(nodes', n) && nodes'[n].key == x;
        assert Alive(nodes, n);
      }
    }
  }

  /** A thread moves on without writing. */
  lemma ReadInv(s: State, s': State, t: nat, pc: Pc)
    requires Inv(s) && t in s.threads && s' == Put(s, t, pc) && PcOk(s.nodes, pc)
    requires pc.op == s.threads[t].op || pc.op.Cleanup?
    ensures Inv(s')
  {
    hide PcOk, NodesOk, ChainOk;
  }

  /** An unmarked node of the list lies on the chain, before its successor. */
  lemma OnChain(nodes: seq<Node>, chain: seq<nat>, n: nat) returns (i: nat)
    requires NodesOk(nodes) && ChainOk(nodes, chain) && In(nodes, n) && !nodes[n].marked && n != TAIL
    ensures i + 1 < |chain| && chain[i] == n && chain[i + 1] == nodes[n].next && Index(chain, n) == i
  {
    i :| 0 <= i < |chain| && chain[i] == n;
    assert Follows(nodes, chain, i);
    IndexOf(nodes, chain, i);
  }

  /** If a key lies between an unmarked node and its successor it is absent. */
  lemma GapIsAbsent(nodes: seq<Node>, chain: seq<nat>, n: nat, k: int)
    requires NodesOk(nodes) && ChainOk(nodes, chain) && In(nodes, n) && !nodes[n].marked
    requires Below(nodes, n, k) && Above(nodes, nodes[n].next, k)
    ensures k !in Keys(nodes)
  {
    assert NodeOk(nodes, TAIL);
    var i := OnChain(nodes, chain, n);
    AbsentBetween(nodes, chain, i, i + 1, k);
  }

  /** What holds of a thread that has loaded the link of the node `t`. */
  lemma LoadedOk(nodes: seq<Node>, chain: seq<nat>, op: Op, left: Left, t: nat)
    requires NodesOk(nodes) && ChainOk(nodes, chain) && OpOk(nodes, op) && In(nodes, t) && t != TAIL
    requires nodes[t].marked || Below(nodes, t, op.k)
    requires if left.NoLeft? then t == HEAD else LeftOk(nodes, op.k, left.l, left.ln, left.seg, t, left.absent)
    ensures PcOk(nodes, Walk(op, left, t, nodes[t].next, nodes[t].marked, op.k !in Keys(nodes)))
  {
    assert NodeOk(nodes, t) && NodeOk(nodes, HEAD);
    if !nodes[t].marked && Above(nodes, nodes[t].next, op.k) {
      GapIsAbsent(nodes, chain, t, op.k);
    }
  }

  lemma LoadHeadInv(s: State, s': State, t: nat)
    requires Inv(s) && t in s.threads && StepTo(s, s', LoadHead(t))
    ensures Inv(s')
  {
    var op := s.threads[t].op;
    assert PcOk(s.nodes, s.threads[t]);
    assert NodeOk(s.nodes, HEAD);
    LoadedOk(s.nodes, s.chain, op, NoLeft, HEAD);
    ReadInv(s, s', t, s'.threads[t]);
  }

  /** Passing a node extends the marked path or starts a new one. */
  lemma PassedOk(nodes: seq<Node>, pc: Pc)
    requires NodesOk(nodes) && pc.Walk? && PcOk(nodes, pc)
    ensures var left := Passed(pc.left, pc.t, pc.tn, pc.tm, pc.absent);
            left.Left? && LeftOk(nodes, pc.op.k, left.l, left.ln, left.seg, pc.tn, left.absent)
  {
    if pc.tm {
      var seg := pc.left.seg + [pc.t];
      forall i: nat | i < |seg| ensures PathAt(nodes, seg, pc.tn, i) {
        if i < |pc.left.seg| { assert PathAt(nodes, pc.left.seg, pc.t, i); }
      }
    }
  }

  lemma AdvanceInv(s: State, s': State, t: nat)
    requires Inv(s) && StepTo(s, s', Advance(t))
    ensures Inv(s')
  {
    var pc := s.threads[t];
    assert PcOk(s.nodes, pc);
    PassedOk(s.nodes, pc);
    var left := Passed(pc.left, pc.t, pc.tn, pc.tm, pc.absent);
    assert NodeOk(s.nodes, HEAD);
    hide LeftOk, NodesOk, ChainOk;
    if pc.tn != TAIL && (s.nodes[pc.tn].marked || Below(s.nodes, pc.tn, pc.op.k)) {
      LoadedOk(s.nodes, s.chain, pc.op, left, pc.tn);
    }
    ReadInv(s, s', t, s'.threads[t]);
  }

  lemma CheckInv(s: State, s': State, t: nat, op: Op, l: nat, right: nat, absent: bool)
    requires Inv(s) && t in s.threads && s.threads[t].op == op && CheckStep(s, s', t, op, l, right, absent)
    requires OpOk(s.nodes, op) && Positioned(s.nodes, op.k, l, right, absent)
    ensures Inv(s')
  {
    if HasKey(s.nodes, right, op.k) && !s.nodes[right].marked {
      assert Alive(s.nodes, right);
      assert s.nodes[right].key in Keys(s.nodes);
    }
    ReadInv(s, s', t, s'.threads[t]);
  }

  lemma JudgeInv(s: State, s': State, t: nat)
    requires Inv(s) && StepTo(s, s', Judge(t))
    ensures Inv(s')
  {
    var pc := s.threads[t];
    assert PcOk(s.nodes, pc);
    CheckInv(s, s', t, pc.op, pc.l, pc.right, pc.absent);
  }

  /** An unlinking swap that succeeds takes out marked nodes only. */
  lemma UnlinksMarked(nodes: seq<Node>, chain: seq<nat>, l: nat, ln: nat, seg: seq<nat>, right: nat) returns (i: nat, j: nat)
    requires NodesOk(nodes) && ChainOk(nodes, chain) && In(nodes, l) && l != TAIL
    requires CasHits(nodes, l, ln) && MarkedPath(nodes, ln, seg, right)
    ensures i < j < |chain| && chain[i] == l && chain[j] == right && chain[i + 1..j] == seg
    ensures forall m: nat :: i < m < j ==> nodes[chain[m]].marked
  {
    i := OnChain(nodes, chain, l);
    PathOnChain(nodes, chain, i + 1, ln, seg, right);
    j := i + 1 + |seg|;
    forall m: nat | i < m < j ensures nodes[chain[m]].marked && chain[m] == seg[m - i - 1] {
      assert PathAt(nodes, seg, right, m - i - 1);
      assert chain[(i + 1) + (m - i - 1)] == seg[m - i - 1];
    }
  }

  lemma SetNextGrows(nodes: seq<Node>, n: nat, next: nat, mine: nat)
    requires n < |nodes| && (if nodes[n].inserted then !nodes[n].marked else n == mine)
    ensures Grows(nodes, SetNext(nodes, n, next), mine)
  {
  }

  lemma UnlinkInv(s: State, s': State, t: nat)
    requires Inv(s) && StepTo(s, s', Unlink(t))
    ensures Inv(s') && Keys(s'.nodes) == Keys(s.nodes)
  {
    var pc := s.threads[t];
    assert PcOk(s.nodes, pc);
    hide NodesOk, ChainOk, MarkedPath, Cut, Grows;
    if !CasHits(s.nodes, pc.l, pc.ln) {
      ReadInv(s, s', t, Start(pc.op));
    } else {
      var i, j := UnlinksMarked(s.nodes, s.chain, pc.l, pc.ln, pc.seg, pc.right);
      CutKeeps(s.nodes, s.chain, i, j);
      SetNextGrows(s.nodes, pc.l, pc.right, |s.nodes|);
      if Above(s.nodes, pc.right, pc.op.k) {
        AbsentBetween(s.nodes, s.chain, i, j, pc.op.k);
      }
      PositionKept(s.nodes, s'.nodes, pc.op, pc.l, pc.right, pc.op.k !in Keys(s.nodes), |s.nodes|);
      hide Keys, Positioned;
      WriteInv(s, s', t, |s.nodes|);
    }
  }

  lemma PositionKept(nodes: seq<Node>, nodes': seq<Node>, op: Op, l: nat, right: nat, absent: bool, mine: nat)
    requires OpOk(nodes, op) && Positioned(nodes, op.k, l, right, absent) && Grows(nodes, nodes', mine)
    requires op.Insert? ==> op.node != mine
    ensures OpOk(nodes', op) && Positioned(nodes', op.k, l, right, absent)
  {
  }

  /** The threads' part of the invariant after thread `t` has written. */
  lemma WriteInv(s: State, s': State, t: nat, mine: nat)
    requires Inv(s) && t in s.threads && NodesOk(s'.nodes) && ChainOk(s'.nodes, s'.chain)
    requires forall u :: u in s'.threads && u != t ==> u in s.threads && s'.threads[u] == s.threads[u]
    requires t in s'.threads ==> PcOk(s'.nodes, s'.threads[t])
    requires t in s'.threads ==> s'.threads[t].op == s.threads[t].op || s'.threads[t].op.Cleanup?
    requires Grows(s.nodes, s'.nodes, mine)
    requires mine == |s.nodes| || (s.threads[t].op.Insert? && s.threads[t].op.node == mine)
    ensures Inv(s')
  {
    hide ChainOk, NodesOk, Grows;
    forall u | u in s.threads && u != t && s.threads[u].op.Insert? ensures s.threads[u].op.node != mine {
      assert PcOk(s.nodes, s.threads[u]);
    }
    ThreadsStable(s, s', t, mine);
  }

  lemma LinkNewInv(s: State, s': State, t: nat)
    requires Inv(s) && StepTo(s, s', LinkNew(t))
    ensures Inv(s') && Keys(s'.nodes) == Keys(s.nodes)
  {
    var pc := s.threads[t];
    assert PcOk(s.nodes, pc);
    var n := pc.op.node;
    forall m: nat | m < |s.nodes| ensures NodeOk(s'.nodes, m) { assert NodeOk(s.nodes, m); }
    forall m: nat | m < |s.chain| ensures Follows(s'.nodes, s.chain, m) { assert Follows(s.nodes, s.chain, m); }
    assert ChainOk(s'.nodes, s'.chain);
    hide NodesOk, ChainOk, Keys, Grows;
    KeysKept(s.nodes, s'.nodes);
    SetNextGrows(s.nodes, n, pc.right, n);
    WriteInv(s, s', t, n);
  }

  /** The swap that inserts: the key was absent, and now it is present. */
  lemma InsertInv(s: State, s': State, t: nat)
    requires Inv(s) && StepTo(s, s', InsertCas(t))
    ensures Inv(s')
    ensures var pc := s.threads[t];
            if t in s'.threads then Keys(s'.nodes) == Keys(s.nodes)
            else pc.op.k !in Keys(s.nodes) && Keys(s'.nodes) == Keys(s.nodes) + {pc.op.k}
  {
    var pc := s.threads[t];
    assert PcOk(s.nodes, pc);
    hide NodesOk, ChainOk, Grows, InsertAfter;
    if !CasHits(s.nodes, pc.l, pc.right) {
      ReadInv(s, s', t, Start(pc.op));
    } else {
      var i := OnChain(s.nodes, s.chain, pc.l);
      InsertKeeps(s.nodes, s.chain, i, pc.op.node);
      InsertGrows(s.nodes, pc.l, pc.op.node);
      hide Keys;
      WriteInv(s, s', t, pc.op.node);
    }
  }

  lemma InsertGrows(nodes: seq<Node>, l: nat, n: nat)
    requires l < |nodes| && n < |nodes| && nodes[l].inserted && !nodes[l].marked && !nodes[n].inserted
    ensures Grows(nodes, SetNext(nodes, l, n)[n := nodes[n].(inserted := true)], n)
  {
  }

  lemma LoadNextInv(s: State, s': State, t: nat)
    requires Inv(s) && StepTo(s, s', LoadNext(t))
    ensures Inv(s')
  {
    assert PcOk(s.nodes, s.threads[t]);
    ReadInv(s, s', t, s'.threads[t]);
  }

  /** The swap that marks: the key was present, and now it is absent. */
  lemma MarkInv(s: State, s': State, t: nat)
    requires Inv(s) && StepTo(s, s', MarkCas(t))
    ensures Inv(s')
    ensures var pc := s.threads[t];
            if s'.threads[t].Start? then Keys(s'.nodes) == Keys(s.nodes)
            else pc.op.k in Keys(s.nodes) && Keys(s'.nodes) == Keys(s.nodes) - {pc.op.k}
  {
    var pc := s.threads[t];
    assert PcOk(s.nodes, pc);
    hide NodesOk, ChainOk, Grows;
    if !CasHits(s.nodes, pc.right, pc.n) {
      ReadInv(s, s', t, Start(pc.op));
    } else {
      MarkKeeps(s.nodes, s.chain, pc.right);
      MarkGrows(s.nodes, pc.right);
      PositionKept(s.nodes, s'.nodes, pc.op, pc.l, pc.right, true, |s.nodes|);
      hide Keys;
      WriteInv(s, s', t, |s.nodes|);
    }
  }

  lemma MarkGrows(nodes: seq<Node>, n: nat)
    requires n < |nodes| && nodes[n].inserted
    ensures Grows(nodes, nodes[n := nodes[n].(marked := true)], |nodes|)
  {
  }

  lemma UnlinkOneInv(s: State, s': State, t: nat)
    requires Inv(s) && StepTo(s, s', UnlinkOne(t))
    ensures Inv(s') && Keys(s'.nodes) == Keys(s.nodes)
  {
    var pc := s.threads[t];
    assert PcOk(s.nodes, pc);
    hide NodesOk, ChainOk, Grows, Cut;
    if !CasHits(s.nodes, pc.l, pc.right) {
      ReadInv(s, s', t, Start(Cleanup(pc.op.k)));
    } else {
      assert MarkedPath(s.nodes, pc.right, [pc.right], pc.n);
      var i, j := UnlinksMarked(s.nodes, s.chain, pc.l, pc.right, [pc.right], pc.n);
      CutKeeps(s.nodes, s.chain, i, j);
      SetNextGrows(s.nodes, pc.l, pc.n, |s.nodes|);
      hide Keys, MarkedPath;
      WriteInv(s, s', t, |s.nodes|);
    }
  }

  lemma FinishInv(s: State, s': State, t: nat)
    requires Inv(s) && StepTo(s, s', Finish(t))
    ensures Inv(s')
  {
    hide NodesOk, ChainOk, PcOk;
  }

  /** Every step of every thread keeps the invariant. */
  lemma StepInv(s: State, s': State, step: Step)
    requires Inv(s) && StepTo(s, s', step)
    ensures Inv(s')
  {
    hide Inv, PcOk;
    match step
    case Begin(t, op) => BeginInv(s, s', t, op);
    case LoadHead(t) => LoadHeadInv(s, s', t);
    case Advance(t) => AdvanceInv(s, s', t);
    case Judge(t) => JudgeInv(s, s', t);
    case Unlink(t) => UnlinkInv(s, s', t);
    case Check(t) => RecheckInv(s, s', t);
    case Finish(t) => FinishInv(s, s', t);
    case LinkNew(t) => LinkNewInv(s, s', t);
    case InsertCas(t) => InsertInv(s, s', t);
    case LoadNext(t) => LoadNextInv(s, s', t);
    case MarkCas(t) => MarkInv(s, s', t);
    case UnlinkOne(t) => UnlinkOneInv(s, s', t);
  }

  lemma RecheckInv(s: State, s': State, t: nat)
    requires Inv(s) && StepTo(s, s', Check(t))
    ensures Inv(s')
  {
    var pc := s.threads[t];
    assert PcOk(s.nodes, pc);
    CheckInv(s, s', t, pc.op, pc.l, pc.right, pc.absent);
  }
}
