/** What an operation on the non-blocking list does when nothing interrupts it, whatever other threads are in the middle of. */
module OrderedListService {
  import opened OrderedLists

  /** Thread `t` alone gets from `s` to `z` in `k` steps. */
  ghost predicate Reaches(s: State, z: State, t: nat, k: nat)
    decreases k
  {
    if k == 0 then z == s
    else exists m, e: Step :: e.t == t && StepTo(s, m, e) && Reaches(m, z, t, k - 1)
  }

  lemma Stepped(s: State, m: State, z: State, e: Step, k: nat)
    requires StepTo(s, m, e) && Reaches(m, z, e.t, k)
    ensures Reaches(s, z, e.t, k + 1)
  {
    hide StepTo;
  }

  lemma Nowhere(s: State, t: nat)
    ensures Reaches(s, s, t, 0)
  {
  }

  lemma {:induction false} Joined(s: State, y: State, z: State, t: nat, i: nat, j: nat)
    requires Reaches(s, y, t, i) && Reaches(y, z, t, j)
    ensures Reaches(s, z, t, i + j)
    decreases i
  {
    hide StepTo;
    if i > 0 {
      var m, e: Step :| e.t == t && StepTo(s, m, e) && Reaches(m, y, t, i - 1);
      Joined(m, y, z, t, i - 1, j);
      Stepped(s, m, z, e, i - 1 + j);
    }
  }

  // ----- searching -----

  /** What the thread has loaded is as it was, and the left node, if it is past it, still has its link. */
  ghost predicate Fresh(nodes: seq<Node>, pc: Pc) {
    && pc.Walk? && pc.t < |nodes| && nodes[pc.t].next == pc.tn && nodes[pc.t].marked == pc.tm
    && (pc.tm ==> pc.left.Left? && pc.left.l < |nodes| && CasHits(nodes, pc.left.l, pc.left.ln))
  }

  /** A search that has come to its end: the left node still has its link, and the right node is not marked. */
  ghost predicate Fixed(nodes: seq<Node>, l: nat, ln: nat, right: nat) {
    && l < |nodes| && CasHits(nodes, l, ln)
    && right < |nodes| && (right == TAIL || !nodes[right].marked)
  }

  lemma LoadsHead(s: State, t: nat, op: Op) returns (m: State)
    requires Inv(s) && t in s.threads && s.threads[t] == Start(op)
    ensures StepTo(s, m, LoadHead(t)) && Inv(m) && t in m.threads && m == s.(threads := s.threads[t := m.threads[t]])
    ensures Fresh(m.nodes, m.threads[t]) && m.threads[t].op == op && m.threads[t].t == HEAD && s.chain != [] && s.chain[0] == HEAD
  {
    m := Put(s, t, Walk(op, NoLeft, HEAD, s.nodes[HEAD].next, s.nodes[HEAD].marked, op.k !in Keys(s.nodes)));
    StepInv(s, m, LoadHead(t));
    assert NodeOk(s.nodes, HEAD);
  }

  lemma WalkFacts(s: State, t: nat, i: nat)
    requires Inv(s) && t in s.threads && s.threads[t].Walk? && i < |s.chain| && s.chain[i] == s.threads[t].t
    requires Fresh(s.nodes, s.threads[t])
    ensures i + 1 < |s.chain| && s.chain[i + 1] == s.threads[t].tn < |s.nodes|
  {
    assert PcOk(s.nodes, s.threads[t]) && Follows(s.nodes, s.chain, i);
  }

  lemma Advances(s: State, t: nat) returns (m: State)
    requires Inv(s) && t in s.threads && s.threads[t].Walk? && s.threads[t].tn < |s.nodes| && Fresh(s.nodes, s.threads[t])
    ensures StepTo(s, m, Advance(t)) && Inv(m) && t in m.threads && m == s.(threads := s.threads[t := m.threads[t]])
    ensures m.threads[t].op == s.threads[t].op
    ensures var pc, pc' := s.threads[t], m.threads[t];
            || (pc'.Walk? && Fresh(m.nodes, pc') && pc'.t == pc.tn)
            || (pc'.Found? && Fixed(m.nodes, pc'.l, pc'.ln, pc'.right))
  {
    var pc := s.threads[t];
    assert PcOk(s.nodes, pc);
    var left := Passed(pc.left, pc.t, pc.tn, pc.tm, pc.absent);
    var x := s.nodes[pc.tn];
    m := Put(s, t, if pc.tn != TAIL && (x.marked || Below(s.nodes, pc.tn, pc.op.k)) then
                     Walk(pc.op, left, pc.tn, x.next, x.marked, pc.op.k !in Keys(s.nodes))
                   else if left.Left? then Found(pc.op, left.l, left.ln, left.seg, pc.tn, left.absent)
                   else pc);
    StepInv(s, m, Advance(t));
  }

  /** The walk along the list comes to the right node. */
  lemma {:induction false} Walks(s: State, t: nat, i: nat) returns (z: State, k: nat)
    requires Inv(s) && t in s.threads && s.threads[t].Walk? && i < |s.chain| && s.chain[i] == s.threads[t].t
    requires Fresh(s.nodes, s.threads[t])
    ensures Reaches(s, z, t, k) && Inv(z) && t in z.threads && z == s.(threads := s.threads[t := z.threads[t]])
    ensures z.threads[t].Found? && z.threads[t].op == s.threads[t].op
    ensures Fixed(z.nodes, z.threads[t].l, z.threads[t].ln, z.threads[t].right)
    decreases |s.chain| - i
  {
    hide *;
    WalkFacts(s, t, i);
    var m := Advances(s, t);
    if m.threads[t].Walk? {
      z, k := Walks(m, t, i + 1);
      assert z.threads == s.threads[t := z.threads[t]];
    } else {
      z, k := m, 0;
      Nowhere(m, t);
    }
    Stepped(s, m, z, Advance(t), k);
    k := k + 1;
  }

  lemma Judges(s: State, t: nat) returns (m: State, e: Step)
    requires Inv(s) && t in s.threads
    requires var pc := s.threads[t]; (pc.Found? && pc.ln == pc.right) || pc.Recheck?
    requires var pc := s.threads[t]; Fixed(s.nodes, pc.l, pc.right, pc.right)
    ensures e.t == t && StepTo(s, m, e) && Inv(m) && t in m.threads && m == s.(threads := s.threads[t := m.threads[t]])
    ensures var pc, pc' := s.threads[t], m.threads[t]; pc'.Done? && pc'.op == pc.op && pc'.l == pc.l && pc'.right == pc.right
  {
    var pc := s.threads[t];
    e := if pc.Found? then Judge(t) else Check(t);
    m := Put(s, t, Done(pc.op, pc.l, pc.right, pc.absent, pc.op.k in Keys(s.nodes)));
    StepInv(s, m, e);
  }

  lemma Unlinks(s: State, t: nat) returns (m: State)
    requires Inv(s) && t in s.threads && s.threads[t].Found? && s.threads[t].ln != s.threads[t].right
    requires var pc := s.threads[t]; Fixed(s.nodes, pc.l, pc.ln, pc.right)
    ensures StepTo(s, m, Unlink(t)) && Inv(m) && t in m.threads && Keys(m.nodes) == Keys(s.nodes) && |m.nodes| == |s.nodes|
    ensures m.threads == s.threads[t := m.threads[t]]
    ensures var pc, pc' := s.threads[t], m.threads[t];
            && pc'.Recheck? && pc'.op == pc.op && pc'.l == pc.l && pc'.right == pc.right
            && Fixed(m.nodes, pc.l, pc.right, pc.right)
  {
    var pc := s.threads[t];
    assert PcOk(s.nodes, pc);
    LeftBefore(s, t);
    m := Put(s.(nodes := SetNext(s.nodes, pc.l, pc.right), chain := Cut(s.chain, pc.l, pc.right)),
             t, Recheck(pc.op, pc.l, pc.right, pc.op.k !in Keys(s.nodes)));
    hide Inv, PcOk, Keys, Cut;
    UnlinkInv(s, m, t);
  }

  lemma LeftBefore(s: State, t: nat)
    requires Inv(s) && t in s.threads && s.threads[t].Found?
    ensures s.threads[t].l != s.threads[t].right
  {
    var pc := s.threads[t];
    assert PcOk(s.nodes, pc);
  }

  /** At the end of a search that was alone, the list around the key is known. */
  lemma Answers(s: State, t: nat)
    requires Inv(s) && t in s.threads && s.threads[t].Done?
    requires Fixed(s.nodes, s.threads[t].l, s.threads[t].right, s.threads[t].right)
    ensures HasKey(s.nodes, s.threads[t].right, s.threads[t].op.k) <==> s.threads[t].op.k in Keys(s.nodes)
    ensures HasKey(s.nodes, s.threads[t].right, s.threads[t].op.k) ==> s.threads[t].right != TAIL
  {
    var pc := s.threads[t];
    assert PcOk(s.nodes, pc);
    if HasKey(s.nodes, pc.right, pc.op.k) {
      assert Alive(s.nodes, pc.right);
    } else {
      GapIsAbsent(s.nodes, s.chain, pc.l, pc.op.k);
    }
  }

  /** A search that is alone comes to an end, with neighbours between which the key belongs. */
  lemma Searches(s: State, t: nat, op: Op) returns (z: State, k: nat)
    requires Inv(s) && t in s.threads && s.threads[t] == Start(op)
    ensures Reaches(s, z, t, k) && Inv(z) && t in z.threads && z.threads == s.threads[t := z.threads[t]]
    ensures Keys(z.nodes) == Keys(s.nodes) && |z.nodes| == |s.nodes|
    ensures var pc := z.threads[t];
            && pc.Done? && pc.op == op && Fixed(z.nodes, pc.l, pc.right, pc.right)
            && (HasKey(z.nodes, pc.right, op.k) <==> op.k in Keys(s.nodes))
  {
    hide *;
    var a := LoadsHead(s, t, op);
    var b, i := Walks(a, t, 0);
    Stepped(s, a, b, LoadHead(t), i);
    var d, j := b, 0;
    if b.threads[t].ln != b.threads[t].right {
      d := Unlinks(b, t);
      Nowhere(d, t);
      Stepped(b, d, d, Unlink(t), 0);
      j := 1;
    } else {
      Nowhere(b, t);
    }
    Joined(s, b, d, t, i + 1, j);
    var e;
    z, e := Judges(d, t);
    Nowhere(z, t);
    Stepped(d, z, z, e, 0);
    Joined(s, d, z, t, i + 1 + j, 1);
    k := i + j + 2;
    assert z.threads == s.threads[t := z.threads[t]];
    Answers(z, t);
  }

  // ----- the operations -----

  lemma Begins(s: State, t: nat, op: Op) returns (m: State)
    requires Inv(s) && t !in s.threads && !op.Cleanup? && (op.Insert? ==> op.node == |s.nodes|)
    ensures StepTo(s, m, Begin(t, op)) && Inv(m) && t in m.threads && m.threads == s.threads[t := Start(op)]
    ensures Keys(m.nodes) == Keys(s.nodes) && (op.Insert? ==> op.node < |m.nodes|)
  {
    m := Put(if op.Insert? then s.(nodes := s.nodes + [Node(op.k, TAIL, false, false)]) else s, t, Start(op));
    hide Inv, Keys;
    BeginInv(s, m, t, op);
  }

  lemma Finishes(s: State, t: nat) returns (m: State)
    requires Inv(s) && t in s.threads && s.threads[t].Done?
    requires match s.threads[t].op case Find(_) => true case Cleanup(_) => true
             case Insert(k, _) => HasKey(s.nodes, s.threads[t].right, k)
             case Remove(k) => !HasKey(s.nodes, s.threads[t].right, k)
    ensures StepTo(s, m, Finish(t)) && Inv(m) && m == s.(threads := s.threads - {t})
  {
    m := s.(threads := s.threads - {t});
    StepInv(s, m, Finish(t));
  }

  /** A search for a key answers whether it is in the set: the thread comes to the end of its search with a right node
      that has the key if and only if the key is there. */
  lemma FindAnswers(s: State, t: nat, x: int) returns (z: State, k: nat)
    requires Inv(s) && t !in s.threads
    ensures Reaches(s, z, t, k) && Inv(z) && t in z.threads && z.threads == s.threads[t := z.threads[t]]
    ensures Keys(z.nodes) == Keys(s.nodes) && z.threads[t].Done?
    ensures HasKey(z.nodes, z.threads[t].right, x) <==> x in Keys(s.nodes)
  {
    hide *;
    var a := Begins(s, t, OrderedLists.Find(x));
    var i;
    z, i := Searches(a, t, OrderedLists.Find(x));
    Stepped(s, a, z, Begin(t, OrderedLists.Find(x)), i);
    k := i + 1;
    assert z.threads == s.threads[t := z.threads[t]];
  }

  lemma LinksNew(s: State, t: nat) returns (m: State)
    requires Inv(s) && t in s.threads && s.threads[t].Done? && s.threads[t].op.Insert?
    requires !HasKey(s.nodes, s.threads[t].right, s.threads[t].op.k)
    requires Fixed(s.nodes, s.threads[t].l, s.threads[t].right, s.threads[t].right)
    ensures StepTo(s, m, LinkNew(t)) && Inv(m) && Keys(m.nodes) == Keys(s.nodes)
    ensures var pc := s.threads[t]; m.threads == s.threads[t := Linked(pc.op, pc.l, pc.right)]
    ensures Fixed(m.nodes, s.threads[t].l, s.threads[t].right, s.threads[t].right)
  {
    var pc := s.threads[t];
    assert PcOk(s.nodes, pc);
    m := Put(s.(nodes := SetNext(s.nodes, pc.op.node, pc.right)), t, Linked(pc.op, pc.l, pc.right));
    hide Inv, PcOk, Keys;
    LinkNewInv(s, m, t);
  }

  lemma Inserts(s: State, t: nat) returns (m: State)
    requires Inv(s) && t in s.threads && s.threads[t].Linked?
    requires Fixed(s.nodes, s.threads[t].l, s.threads[t].right, s.threads[t].right)
    ensures StepTo(s, m, InsertCas(t)) && Inv(m) && m.threads == s.threads - {t}
    ensures s.threads[t].op.k !in Keys(s.nodes) && Keys(m.nodes) == Keys(s.nodes) + {s.threads[t].op.k}
  {
    var pc := s.threads[t];
    assert PcOk(s.nodes, pc);
    m := End(s.(nodes := SetNext(s.nodes, pc.l, pc.op.node)[pc.op.node := s.nodes[pc.op.node].(inserted := true)],
                chain := InsertAfter(s.chain, pc.l, pc.op.node)), t);
    hide Inv, PcOk, Keys, InsertAfter;
    InsertInv(s, m, t);
  }

  /** An insertion leaves the set with the key, whether it was there or not, and comes to an end. */
  lemma InsertAdds(s: State, t: nat, x: int) returns (z: State, k: nat)
    requires Inv(s) && t !in s.threads
    ensures Reaches(s, z, t, k) && Inv(z) && z.threads == s.threads
    ensures Keys(z.nodes) == Keys(s.nodes) + {x}
  {
    hide *;
    var op := Insert(x, |s.nodes|);
    var a := Begins(s, t, op);
    var b, i := Searches(a, t, op);
    Stepped(s, a, b, Begin(t, op), i);
    if x in Keys(s.nodes) {
      z := Finishes(b, t);
      Nowhere(z, t);
      Stepped(b, z, z, Finish(t), 0);
      Joined(s, b, z, t, i + 1, 1);
      k := i + 2;
      assert Keys(s.nodes) + {x} == Keys(s.nodes);
    } else {
      var d := LinksNew(b, t);
      z := Inserts(d, t);
      Nowhere(z, t);
      Stepped(d, z, z, InsertCas(t), 0);
      Stepped(b, d, z, LinkNew(t), 1);
      Joined(s, b, z, t, i + 1, 2);
      k := i + 3;
    }
    assert z.threads == s.threads;
  }

  lemma LoadsNext(s: State, t: nat) returns (m: State)
    requires Inv(s) && t in s.threads && s.threads[t].Done? && s.threads[t].op.Remove?
    requires HasKey(s.nodes, s.threads[t].right, s.threads[t].op.k)
    requires Fixed(s.nodes, s.threads[t].l, s.threads[t].right, s.threads[t].right) && s.threads[t].right != TAIL
    ensures StepTo(s, m, LoadNext(t)) && Inv(m) && s.threads[t].right < |s.nodes|
    ensures var pc := s.threads[t];
            m == s.(threads := s.threads[t := Marking(pc.op, pc.l, pc.right, s.nodes[pc.right].next)])
  {
    var pc := s.threads[t];
    m := s.(threads := s.threads[t := Marking(pc.op, pc.l, pc.right, s.nodes[pc.right].next)]);
    hide Inv, Keys;
    LoadNextInv(s, m, t);
  }

  lemma Marks(s: State, t: nat) returns (m: State)
    requires Inv(s) && t in s.threads && s.threads[t].Marking? && s.threads[t].right < |s.nodes|
    requires CasHits(s.nodes, s.threads[t].right, s.threads[t].n)
    requires Fixed(s.nodes, s.threads[t].l, s.threads[t].right, s.threads[t].right) && s.threads[t].l != s.threads[t].right
    ensures StepTo(s, m, MarkCas(t)) && Inv(m)
    ensures var pc := s.threads[t];
            && m.threads == s.threads[t := Unlinking(pc.op, pc.l, pc.right, pc.n)]
            && pc.op.k in Keys(s.nodes) && Keys(m.nodes) == Keys(s.nodes) - {pc.op.k}
            && pc.l < |m.nodes| && CasHits(m.nodes, pc.l, pc.right)
  {
    var pc := s.threads[t];
    m := Put(s.(nodes := s.nodes[pc.right := s.nodes[pc.right].(marked := true)]), t, Unlinking(pc.op, pc.l, pc.right, pc.n));
    hide Inv, Keys;
    MarkInv(s, m, t);
  }

  lemma UnlinksOne(s: State, t: nat) returns (m: State)
    requires Inv(s) && t in s.threads && s.threads[t].Unlinking? && s.threads[t].l < |s.nodes|
    requires CasHits(s.nodes, s.threads[t].l, s.threads[t].right)
    ensures StepTo(s, m, UnlinkOne(t)) && Inv(m) && m.threads == s.threads - {t} && Keys(m.nodes) == Keys(s.nodes)
    ensures s.threads[t].right !in m.chain
  {
    var pc := s.threads[t];
    assert PcOk(s.nodes, pc);
    m := End(s.(nodes := SetNext(s.nodes, pc.l, pc.n), chain := Cut(s.chain, pc.l, pc.n)), t);
    UnlinkOneInv(s, m, t);
    IsCut(s, m, t);
  }

  /** The marked node has left the chain. */
  lemma IsCut(s: State, m: State, t: nat)
    requires Inv(s) && t in s.threads && s.threads[t].Unlinking? && s.threads[t].l < |s.nodes|
    requires CasHits(s.nodes, s.threads[t].l, s.threads[t].right)
    requires m.chain == Cut(s.chain, s.threads[t].l, s.threads[t].n)
    ensures s.threads[t].right !in m.chain
  {
    var pc := s.threads[t];
    assert PcOk(s.nodes, pc);
    hide PcOk, Keys, Cut;
    var i, j := UnlinksMarked(s.nodes, s.chain, pc.l, pc.right, [pc.right], pc.n);
    assert s.chain[i + 1..j][0] == pc.right;
    IndexOf(s.nodes, s.chain, i);
    IndexOf(s.nodes, s.chain, j);
    CutIs(s.chain, i, j);
    forall x: nat | x < |m.chain| ensures m.chain[x] != pc.right {
      var y := if x <= i then x else x + (j - i - 1);
      assert m.chain[x] == s.chain[y] && y != i + 1;
      if s.chain[y] == pc.right {
        IndexOf(s.nodes, s.chain, y);
        IndexOf(s.nodes, s.chain, i + 1);
      }
    }
  }

  lemma CutIs(chain: seq<nat>, i: nat, j: nat)
    requires i < j < |chain| && Index(chain, chain[i]) == i && Index(chain, chain[j]) == j
    ensures Cut(chain, chain[i], chain[j]) == chain[..i + 1] + chain[j..]
  {
  }

  lemma RightIsNotLeft(s: State, t: nat)
    requires Inv(s) && t in s.threads && s.threads[t].Done? && s.threads[t].op.Remove?
    requires HasKey(s.nodes, s.threads[t].right, s.threads[t].op.k)
    ensures s.threads[t].l != s.threads[t].right && s.threads[t].right != TAIL
  {
    assert PcOk(s.nodes, s.threads[t]);
  }

  /** A removal leaves the set without the key, whether it was there or not, and comes to an end. */
  lemma RemoveDeletes(s: State, t: nat, x: int) returns (z: State, k: nat)
    requires Inv(s) && t !in s.threads
    ensures Reaches(s, z, t, k) && Inv(z) && z.threads == s.threads
    ensures Keys(z.nodes) == Keys(s.nodes) - {x}
  {
    hide *;
    var op := Remove(x);
    var a := Begins(s, t, op);
    var b, i := Searches(a, t, op);
    Stepped(s, a, b, Begin(t, op), i);
    if x !in Keys(s.nodes) {
      z := Finishes(b, t);
      Nowhere(z, t);
      Stepped(b, z, z, Finish(t), 0);
      Joined(s, b, z, t, i + 1, 1);
      k := i + 2;
      assert Keys(s.nodes) - {x} == Keys(s.nodes);
    } else {
      RightIsNotLeft(b, t);
      var d := LoadsNext(b, t);
      NextHits(b, t);
      var f := Marks(d, t);
      z := UnlinksOne(f, t);
      Nowhere(z, t);
      Stepped(f, z, z, UnlinkOne(t), 0);
      Stepped(d, f, z, MarkCas(t), 1);
      Stepped(b, d, z, LoadNext(t), 2);
      Joined(s, b, z, t, i + 1, 3);
      k := i + 4;
    }
    assert z.threads == s.threads;
  }

  lemma NextHits(s: State, t: nat)
    requires t in s.threads && s.threads[t].Done? && s.threads[t].right != TAIL
    requires Fixed(s.nodes, s.threads[t].l, s.threads[t].right, s.threads[t].right)
    ensures s.threads[t].right < |s.nodes| && CasHits(s.nodes, s.threads[t].right, s.nodes[s.threads[t].right].next)
  {
  }

  /** A thread is done only with an answer: its search has found what it reports, its swap has added its key, or its
      marked node has left the chain. */
  lemma LeavesWithAnswer(s: State, s': State, e: Step, t: nat)
    requires Inv(s) && StepTo(s, s', e) && t in s.threads && t !in s'.threads
    ensures e.t == t
    ensures var pc := s.threads[t];
            || (pc.Done? && match pc.op case Find(_) => true case Cleanup(_) => true
                            case Insert(k, _) => HasKey(s.nodes, pc.right, k)
                            case Remove(k) => !HasKey(s.nodes, pc.right, k))
            || (pc.Linked? && pc.op.Insert? && pc.op.k !in Keys(s.nodes) && Keys(s'.nodes) == Keys(s.nodes) + {pc.op.k})
            || (pc.Unlinking? && pc.right !in s'.chain)
  {
    hide Inv, Keys, Cut, InsertAfter;
    var pc := s.threads[t];
    match e
    case InsertCas(_) => InsertInv(s, s', t);
    case UnlinkOne(_) => IsCut(s, s', t);
    case _ =>
  }

  /** A thread whose node could not be unlinked by its own swap goes on to a search that does it. */
  lemma GoesOnCleaning(s: State, s': State, t: nat)
    requires Inv(s) && StepTo(s, s', UnlinkOne(t)) && t in s'.threads
    ensures t in s.threads && s'.threads[t] == Start(Cleanup(s.threads[t].op.k)) && s'.nodes == s.nodes
  {
  }
}
