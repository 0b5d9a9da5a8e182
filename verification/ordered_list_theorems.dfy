/** What holds over every run of the non-blocking ordered list. */
module OrderedListTheorems {
  import opened OrderedLists

  /** An empty list: the head points to the tail. */
  ghost predicate Initial(s: State) {
    && s.nodes == [Node(0, TAIL, false, true), Node(0, TAIL, false, true)]
    && s.threads == map[] && s.chain == [HEAD, TAIL]
  }

  lemma InitialInv(s: State)
    requires Initial(s)
    ensures Inv(s) && Keys(s.nodes) == {}
  {
    assert s.nodes[0].inserted && s.nodes[1].inserted;
    assert HEAD in s.chain && TAIL in s.chain;
  }

  ghost predicate CanStep(s: State, s': State) { exists step :: StepTo(s, s', step) }

  ghost function TheStep(s: State, s': State): (step: Step)
    requires CanStep(s, s')
    ensures StepTo(s, s', step)
  {
    var step :| StepTo(s, s', step); step
  }

  /** A run: any interleaving of the threads' steps. */
  ghost predicate IsRun(tr: seq<State>) {
    tr != [] && Initial(tr[0]) && forall i: nat :: i + 1 < |tr| ==> CanStep(tr[i], tr[i + 1])
  }

  lemma {:induction false} RunKeepsInv(tr: seq<State>, i: nat)
    requires IsRun(tr) && i < |tr|
    ensures Inv(tr[i])
  {
    hide Inv, Initial, CanStep;
    if i == 0 {
      InitialInv(tr[0]);
    } else {
      RunKeepsInv(tr, i - 1);
      assert CanStep(tr[i - 1], tr[(i - 1) + 1]);
      StepInv(tr[i - 1], tr[i], TheStep(tr[i - 1], tr[i]));
    }
  }

  lemma RunSteps(tr: seq<State>, i: nat)
    requires IsRun(tr) && i + 1 < |tr|
    ensures CanStep(tr[i], tr[i + 1]) && Inv(tr[i]) && Inv(tr[i + 1])
  {
    RunKeepsInv(tr, i);
    RunKeepsInv(tr, i + 1);
  }

  /** In every reachable state the links from the head lead, in strictly ascending
      order, to the tail, and every unmarked node is on the way. */
  lemma ListIsSorted(tr: seq<State>, i: nat, a: nat, b: nat)
    requires IsRun(tr) && i < |tr| && a < b < |tr[i].chain|
    ensures var s := tr[i];
            && s.chain[0] == HEAD && s.chain[|s.chain| - 1] == TAIL
            && s.chain[a] < |s.nodes| && s.chain[b] < |s.nodes| && Before(s.nodes, s.chain[a], s.chain[b])
            && (b == a + 1 ==> s.nodes[s.chain[a]].next == s.chain[b])
            && forall n :: Alive(s.nodes, n) ==> n in s.chain
  {
    RunKeepsInv(tr, i);
    var s := tr[i];
    assert Follows(s.nodes, s.chain, a);
    ChainSorted(s.nodes, s.chain, a, b);
  }

  ghost predicate Inserts(s: State, s': State, step: Step, k: int) {
    && step.InsertCas? && step.t in s.threads && s.threads[step.t].op.Insert?
    && s.threads[step.t].op.k == k && step.t !in s'.threads
  }

  ghost predicate Marks(s: State, s': State, step: Step, k: int) {
    && step.MarkCas? && step.t in s.threads && step.t in s'.threads
    && s.threads[step.t].op.k == k && s'.threads[step.t].Unlinking?
  }

  /** The set changes at two kinds of step only: a successful inserting swap adds
      a key that was absent, a successful marking swap removes one that was present. */
  lemma SetChanges(s: State, s': State, step: Step)
    requires Inv(s) && StepTo(s, s', step)
    ensures forall k :: Inserts(s, s', step, k) ==> k !in Keys(s.nodes) && Keys(s'.nodes) == Keys(s.nodes) + {k}
    ensures forall k :: Marks(s, s', step, k) ==> k in Keys(s.nodes) && Keys(s'.nodes) == Keys(s.nodes) - {k}
    ensures (forall k :: !Inserts(s, s', step, k) && !Marks(s, s', step, k)) ==> Keys(s'.nodes) == Keys(s.nodes)
  {
    hide Inv, Keys;
    match step
    case Begin(t, op) => BeginInv(s, s', t, op);
    case Unlink(t) => UnlinkInv(s, s', t);
    case LinkNew(t) => LinkNewInv(s, s', t);
    case InsertCas(t) =>
      InsertInv(s, s', t);
      assert t !in s'.threads ==> Inserts(s, s', step, s.threads[t].op.k);
    case MarkCas(t) =>
      MarkInv(s, s', t);
      assert s'.threads[t].Unlinking? ==> Marks(s, s', step, s.threads[t].op.k);
    case UnlinkOne(t) => UnlinkOneInv(s, s', t);
    case _ =>
  }

  /** A mark is never taken back, and a marked node's link never changes. */
  lemma StepKeepsMarks(s: State, s': State, step: Step, n: nat)
    requires Inv(s) && StepTo(s, s', step) && n < |s.nodes|
    ensures n < |s'.nodes| && s'.nodes[n].key == s.nodes[n].key
    ensures s.nodes[n].inserted ==> s'.nodes[n].inserted
    ensures s.nodes[n].inserted && s.nodes[n].marked ==> s'.nodes[n] == s.nodes[n]
  {
    hide NodesOk, ChainOk, Keys;
    if !step.Begin? {
      assert PcOk(s.nodes, s.threads[step.t]);
    }
  }

  lemma {:induction false} MarksArePermanent(tr: seq<State>, i: nat, j: nat, n: nat)
    requires IsRun(tr) && i <= j < |tr| && n < |tr[i].nodes| && tr[i].nodes[n].inserted
    ensures n < |tr[j].nodes| && tr[j].nodes[n].inserted && tr[j].nodes[n].key == tr[i].nodes[n].key
    ensures tr[i].nodes[n].marked ==> tr[j].nodes[n] == tr[i].nodes[n]
  {
    hide Inv, CanStep, Initial;
    if i < j {
      MarksArePermanent(tr, i, j - 1, n);
      RunSteps(tr, j - 1);
      StepKeepsMarks(tr[j - 1], tr[j], TheStep(tr[j - 1], tr[j]), n);
    }
  }

  /** Nodes leave the chain only when they are marked. */
  lemma OnlyMarkedLeave(s: State, s': State, step: Step, n: nat)
    requires Inv(s) && StepTo(s, s', step) && n in s.chain && n !in s'.chain
    ensures n < |s.nodes| && s.nodes[n].marked && (step.Unlink? || step.UnlinkOne?)
  {
    StepInv(s, s', step);
    hide Inv, PcOk, Keys;
    InvParts(s);
    InvParts(s');
    var i: nat :| i < |s.chain| && s.chain[i] == n;
    assert Follows(s.nodes, s.chain, i);
    StepKeepsMarks(s, s', step, n);
    if !step.Unlink? && !step.UnlinkOne? {
      KeepsChain(s, s', step, n);
    } else if !s.nodes[n].marked {
      UnlinkKeepsMark(s, s', step, n);
    }
  }

  lemma InvParts(s: State)
    requires Inv(s)
    ensures NodesOk(s.nodes) && ChainOk(s.nodes, s.chain)
    ensures forall t :: t in s.threads ==> PcOk(s.nodes, s.threads[t])
  {
  }

  lemma KeepsChain(s: State, s': State, step: Step, n: nat)
    requires StepTo(s, s', step) && n in s.chain && !step.Unlink? && !step.UnlinkOne?
    ensures n in s'.chain
  {
    if step.InsertCas? && s'.chain != s.chain {
      var l := s.threads[step.t].l;
      var x := Index(s.chain, l) + 1;
      assert s.chain == s.chain[..x] + s.chain[x..];
    }
  }

  lemma UnlinkKeepsMark(s: State, s': State, step: Step, n: nat)
    requires Inv(s') && (step.Unlink? || step.UnlinkOne?) && StepTo(s, s', step)
    requires n < |s.nodes| && !s.nodes[n].marked && s.nodes[n].inserted
    ensures n in s'.chain
  {
    hide PcOk, Keys, Cut, Private;
    assert n < |s'.nodes| && s'.nodes[n].inserted && !s'.nodes[n].marked;
  }

  /** The left node of a search is there, comes before the key, and is not the tail. */
  lemma LeftIsNode(tr: seq<State>, i: nat, t: nat)
    requires IsRun(tr) && i < |tr| && t in tr[i].threads
    requires var pc := tr[i].threads[t]; pc.Found? || pc.Recheck? || pc.Done? || pc.Linked? || pc.Unlinking?
    ensures var pc := tr[i].threads[t];
            pc.l < |tr[i].nodes| && pc.l != TAIL && tr[i].nodes[pc.l].inserted && Below(tr[i].nodes, pc.l, pc.op.k)
  {
    RunKeepsInv(tr, i);
    hide NodesOk, ChainOk;
    assert PcOk(tr[i].nodes, tr[i].threads[t]);
    HeadIsNotTail(tr[i].nodes, tr[i].threads[t].l, tr[i].threads[t].op.k);
  }

  lemma HeadIsNotTail(nodes: seq<Node>, l: nat, k: int)
    requires Below(nodes, l, k)
    ensures l != TAIL
  {
  }

  // ----- the answers of the operations -----

  /** The thread remembers a moment at which its key was absent. */
  predicate KnowsAbsent(pc: Pc) {
    match pc
    case Walk(_, left, _, _, _, absent) => absent || (left.Left? && left.absent)
    case Found(_, _, _, _, _, absent) => absent
    case Recheck(_, _, _, absent) => absent
    case Done(_, _, _, absent, _) => absent
    case _ => false
  }

  predicate KnowsPresent(pc: Pc) { pc.Done? && pc.present }

  /** Thread `t` is in one search for `k` from `i` to `j`. */
  ghost predicate Searches(tr: seq<State>, i: nat, j: nat, t: nat, op: Op) {
    && i <= j < |tr|
    && forall m: nat :: i <= m <= j ==> t in tr[m].threads && tr[m].threads[t].op == op
  }

  lemma KnowledgeStep(s: State, s': State, step: Step, t: nat)
    requires Inv(s) && StepTo(s, s', step) && t in s.threads && t in s'.threads && s.threads[t].op == s'.threads[t].op
    ensures KnowsAbsent(s'.threads[t]) ==> KnowsAbsent(s.threads[t]) || s.threads[t].op.k !in Keys(s.nodes)
    ensures KnowsPresent(s'.threads[t]) ==> KnowsPresent(s.threads[t]) || s.threads[t].op.k in Keys(s.nodes)
  {
    hide Inv, Keys, Cut, InsertAfter;
  }

  lemma {:induction false} KnowledgeIsTrue(tr: seq<State>, i: nat, j: nat, t: nat, op: Op)
    requires IsRun(tr) && Searches(tr, i, j, t, op) && tr[i].threads[t] == Start(op)
    ensures KnowsAbsent(tr[j].threads[t]) ==> exists m: nat :: i <= m <= j && op.k !in Keys(tr[m].nodes)
    ensures KnowsPresent(tr[j].threads[t]) ==> exists m: nat :: i <= m <= j && op.k in Keys(tr[m].nodes)
    decreases j
  {
    hide Inv, CanStep, Initial, Keys, KnowsAbsent, KnowsPresent;
    if i < j {
      KnowledgeIsTrue(tr, i, j - 1, t, op);
      RunSteps(tr, j - 1);
      KnowledgeStep(tr[j - 1], tr[j], TheStep(tr[j - 1], tr[j]), t);
    } else {
      NothingKnown(op);
    }
  }

  lemma NothingKnown(op: Op)
    ensures !KnowsAbsent(Start(op)) && !KnowsPresent(Start(op))
  {
  }

  /** Linearizability of the answers that change nothing: whatever an operation
      reports about its key (found or not found, already there, nothing to
      remove) was true of the list at some moment while the operation ran. */
  lemma AnswerWasTrue(tr: seq<State>, i: nat, j: nat, t: nat, op: Op)
    requires IsRun(tr) && Searches(tr, i, j, t, op) && tr[i].threads[t] == Start(op) && tr[j].threads[t].Done?
    ensures exists m: nat :: i <= m <= j &&
              (op.k in Keys(tr[m].nodes) <==> HasKey(tr[j].nodes, tr[j].threads[t].right, op.k))
  {
    RunKeepsInv(tr, j);
    KnowledgeIsTrue(tr, i, j, t, op);
    hide NodesOk, ChainOk, Keys, CanStep, Initial;
    assert PcOk(tr[j].nodes, tr[j].threads[t]);
  }
}
