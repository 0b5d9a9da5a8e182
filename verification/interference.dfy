/** The abstract graph of nblocks and the interference scope of each of them. */
module Interference {

  /** The numbered nblocks of a projection with their predecessor and successor lists. */
  datatype Projection = Projection(preds: seq<seq<nat>>, succs: seq<seq<nat>>) {

    ghost predicate InRange() {
      && |preds| == |succs|
      && (forall b, i :: 0 <= b < |preds| && 0 <= i < |preds[b]| ==> preds[b][i] < |preds|)
      && (forall b, i :: 0 <= b < |succs| && 0 <= i < |succs[b]| ==> succs[b][i] < |succs|)
    }

    /** Predecessors and successors are inverse relations. */
    ghost predicate Inverse()
      requires InRange()
    {
      forall a: nat, b: nat :: a < |preds| && b < |preds| ==> (a in preds[b] <==> b in succs[a])
    }

    /** The predecessors, the successors and the predecessors of the successors of `b`. */
    ghost function Scope(b: nat): set<nat>
      requires InRange() && b < |preds|
    {
      set a: nat | a < |preds| && a != b && InScope(a, b)
    }

    ghost predicate InScope(a: nat, b: nat)
      requires InRange() && b < |preds|
    {
      a in preds[b] || a in succs[b] || exists i: nat :: i < |succs[b]| && a in preds[succs[b][i]]
    }

    /** The blocks whose open and closed lists a thread that holds `b` uses. */
    ghost function Touched(b: nat): set<nat>
      requires InRange() && b < |preds|
    {
      {b} + set a: nat | a < |preds| && a in succs[b]
    }

    /** The number of array slots that the constructor of a block allocates:
        predecessors are not counted. */
    function Allocated(b: nat, k: nat): nat
      requires InRange() && b < |preds| && k <= |succs[b]|
    {
      if k == 0 then 0 else Allocated(b, k - 1) + 1 + |preds[succs[b][k - 1]]|
    }

    /** The slots suffice for the block's interference scope. */
    ghost predicate Fits(b: nat)
      requires InRange() && b < |preds|
    {
      |Scope(b)| <= Allocated(b, |succs[b]|)
    }
  }

  lemma ScopeSymmetric(p: Projection, a: nat, b: nat)
    requires p.InRange() && p.Inverse() && a < |p.preds| && b < |p.preds|
    ensures a in p.Scope(b) <==> b in p.Scope(a)
  {
    if a in p.Scope(b) { ScopeOneWay(p, a, b); }
    if b in p.Scope(a) { ScopeOneWay(p, b, a); }
  }

  lemma ScopeOneWay(p: Projection, a: nat, b: nat)
    requires p.InRange() && p.Inverse() && a < |p.preds| && b < |p.preds| && a in p.Scope(b)
    ensures b in p.Scope(a)
  {
    if a !in p.preds[b] && a !in p.succs[b] {
      var i: nat :| i < |p.succs[b]| && a in p.preds[p.succs[b][i]];
      var s := p.succs[b][i];
      assert s in p.succs[a] && b in p.preds[s];
      var k: nat :| k < |p.succs[a]| && p.succs[a][k] == s;
    }
  }

  /** Blocks that may reach a common block interfere. */
  lemma SharedBlockInterferes(p: Projection, a: nat, b: nat)
    requires p.InRange() && p.Inverse() && a < |p.preds| && b < |p.preds| && a != b
    requires p.Touched(a) * p.Touched(b) != {}
    ensures a in p.Scope(b)
  {
    var s :| s in p.Touched(a) && s in p.Touched(b);
    if s != a && s != b {
      var k: nat :| k < |p.succs[b]| && p.succs[b][k] == s;
      assert a in p.preds[p.succs[b][k]];
    }
  }

  /** Interference is exactly this: two blocks interfere if and only if some block's lists may be used from both. */
  lemma ScopeIsSharing(p: Projection, a: nat, b: nat)
    requires p.InRange() && p.Inverse() && a < |p.preds| && b < |p.preds|
    ensures a in p.Scope(b) <==> a != b && exists x: nat :: (x == a || x in p.succs[a]) && (x == b || x in p.succs[b])
  {
    if a in p.Scope(b) {
      if a !in p.succs[b] && a !in p.preds[b] {
        var i: nat :| i < |p.succs[b]| && a in p.preds[p.succs[b][i]];
        assert p.succs[b][i] in p.succs[a];
      }
    }
    if x: nat :| a != b && (x == a || x in p.succs[a]) && (x == b || x in p.succs[b]) {
      assert x in p.Touched(a) && x in p.Touched(b);
      SharedBlockInterferes(p, a, b);
    }
  }

  function Elements(s: seq<nat>): set<nat> { set x | x in s }

  lemma {:induction false} ElementsBound(s: seq<nat>)
    ensures |Elements(s)| <= |s|
  {
    if s != [] {
      var rest := s[..|s| - 1];
      ElementsBound(rest);
      assert s == rest + [s[|s| - 1]];
      assert Elements(s) == Elements(rest) + {s[|s| - 1]};
    }
  }

  ghost function Covered(p: Projection, b: nat, k: nat): set<nat>
    requires p.InRange() && b < |p.preds| && k <= |p.succs[b]|
  {
    if k == 0 then {} else
      Covered(p, b, k - 1) + {p.succs[b][k - 1]} + Elements(p.preds[p.succs[b][k - 1]])
  }

  lemma {:induction false} CoveredBound(p: Projection, b: nat, k: nat)
    requires p.InRange() && b < |p.preds| && k <= |p.succs[b]|
    ensures |Covered(p, b, k)| <= p.Allocated(b, k)
  {
    if k > 0 {
      CoveredBound(p, b, k - 1);
      var s := p.succs[b][k - 1];
      ElementsBound(p.preds[s]);
      UnionBound(Covered(p, b, k - 1), {s});
      UnionBound(Covered(p, b, k - 1) + {s}, Elements(p.preds[s]));
    }
  }

  lemma {:induction false} CoveredHolds(p: Projection, b: nat, k: nat, i: nat)
    requires p.InRange() && b < |p.preds| && i < k <= |p.succs[b]|
    ensures p.succs[b][i] in Covered(p, b, k) && Elements(p.preds[p.succs[b][i]]) <= Covered(p, b, k)
  {
    if i < k - 1 {
      CoveredHolds(p, b, k - 1, i);
    }
  }

  lemma UnionBound(a: set<nat>, b: set<nat>)
    ensures |a + b| <= |a| + |b|
  {
    assert a + b == a + (b - a);
    assert |b - a| <= |b| by { Smaller(b - a, b); }
  }

  lemma {:induction false} Smaller(a: set<nat>, b: set<nat>)
    requires a <= b
    ensures |a| <= |b|
    decreases |a|
  {
    if a != {} {
      var x :| x in a;
      Smaller(a - {x}, b - {x});
    }
  }

  /** The predecessors that no successor brings into the scope. */
  ghost function Extra(p: Projection, b: nat): set<nat>
    requires p.InRange() && b < |p.preds|
  {
    Elements(p.preds[b]) - Covered(p, b, |p.succs[b]|) - {b}
  }

  /** Exactly when the array suffices: the predecessors that are not counted must
      find room among the slots that were counted more than once. */
  lemma FitsIff(p: Projection, b: nat)
    requires p.InRange() && b < |p.preds|
    ensures p.Fits(b) <==>
            |Extra(p, b)| <= p.Allocated(b, |p.succs[b]|) - |Covered(p, b, |p.succs[b]|) - {b}|
  {
    var counted := Covered(p, b, |p.succs[b]|) - {b};
    CoveredIsScope(p, b, |p.succs[b]|);
    assert p.Scope(b) == Extra(p, b) + counted && Extra(p, b) !! counted;
  }

  /** A block without successors gets no slots: it fits only if nothing but itself leads to it. */
  lemma NoSuccessorsFits(p: Projection, b: nat)
    requires p.InRange() && b < |p.preds| && p.succs[b] == []
    ensures p.Fits(b) <==> forall a :: a in p.preds[b] ==> a == b
  {
    FitsIff(p, b);
    assert Extra(p, b) == Elements(p.preds[b]) - {b};
    assert p.Fits(b) <==> Extra(p, b) == {};
    assert forall a :: a in p.preds[b] <==> a in Elements(p.preds[b]);
    forall a | a in p.preds[b] && a != b ensures a in Extra(p, b) { }
  }

  /** Counting only successors suffices when every predecessor is also a successor. */
  lemma SymmetricGraphFits(p: Projection, b: nat)
    requires p.InRange() && b < |p.preds|
    requires forall a :: a in p.preds[b] ==> a in p.succs[b]
    ensures p.Fits(b)
  {
    var k := |p.succs[b]|;
    CoveredBound(p, b, k);
    CoveredIsScope(p, b, k);
    forall a | a in p.preds[b] ensures a in Covered(p, b, k) {
      var i: nat :| i < k && p.succs[b][i] == a;
      CoveredHolds(p, b, k, i);
    }
    Smaller(p.Scope(b), Covered(p, b, k));
  }

  /** A block with a predecessor and no successor overruns its array. */
  lemma OneWayGraphOverruns()
    ensures var p := Projection([[], [0]], [[1], []]);
            p.InRange() && p.Inverse() && p.Allocated(1, 0) == 0 && 0 in p.Scope(1) && !p.Fits(1)
  {
    var p := Projection([[], [0]], [[1], []]);
    assert 0 in p.preds[1];
    assert p.Scope(1) == {0};
  }

  /** The first loop of the constructor: collect the ids and count array slots. */
  method Collect(p: Projection, id: nat) returns (ids: set<nat>, slots: nat)
    requires p.InRange() && id < |p.preds|
    ensures slots == p.Allocated(id, |p.succs[id]|)
    ensures ids - {id} == p.Scope(id)
  {
    slots := 0;
    ids := Elements(p.preds[id]);
    for i := 0 to |p.succs[id]|
      invariant slots == p.Allocated(id, i)
      invariant ids == Elements(p.preds[id]) + Covered(p, id, i)
    {
      var s := p.succs[id][i];
      ids := ids + {s};
      slots := slots + 1;
      var spreds := p.preds[s];
      ids := ids + Elements(spreds);
      slots := slots + |spreds|;
    }
    CoveredIsScope(p, id, |p.succs[id]|);
  }

  lemma CoveredIsScope(p: Projection, b: nat, k: nat)
    requires p.InRange() && b < |p.preds| && k == |p.succs[b]|
    ensures Elements(p.preds[b]) + Covered(p, b, k) - {b} == p.Scope(b)
  {
    forall a | a in p.Scope(b) ensures a in Elements(p.preds[b]) + Covered(p, b, k) {
      if a in p.succs[b] {
        var i: nat :| i < k && p.succs[b][i] == a;
        CoveredHolds(p, b, k, i);
      } else if a !in p.preds[b] {
        var i: nat :| i < k && a in p.preds[p.succs[b][i]];
        CoveredHolds(p, b, k, i);
      }
    }
    forall a | a in Covered(p, b, k) ensures a < |p.preds| && p.InScope(a, b) {
      CoveredOnly(p, b, k, a);
    }
  }

  lemma {:induction false} CoveredOnly(p: Projection, b: nat, k: nat, a: nat)
    requires p.InRange() && b < |p.preds| && k <= |p.succs[b]| && a in Covered(p, b, k)
    ensures a < |p.preds| && p.InScope(a, b)
  {
    if a in Covered(p, b, k - 1) {
      CoveredOnly(p, b, k - 1, a);
    }
  }

  /** The second loop: every id but the block's own goes into the array, in
      ascending order; the ids are those below `n`. */
  method WriteScope(ids: set<nat>, id: nat, slots: nat, n: nat) returns (interferes: array<nat>, count: nat)
    requires |ids - {id}| <= slots && forall a :: a in ids ==> a < n
    ensures fresh(interferes) && count <= interferes.Length == slots
    ensures Ascending(interferes[..count], ids - {id})
  {
    ghost var scope := ids - {id};
    assert Below(scope, n) == scope;
    AscendingEmpty(scope);
    hide Ascending, Below;
    interferes := new nat[slots];
    count := 0;
    assert interferes[..0] == [];
    for k := 0 to n
      invariant count <= slots
      invariant Ascending(interferes[..count], Below(scope, k))
    {
      ghost var was := interferes[..count];
      if k in ids && k != id {
        AscendingPush(was, scope, k);
        interferes[count] := k;
        count := count + 1;
        assert interferes[..count] == was + [k];
      } else {
        BelowNext(scope, k);
      }
    }
  }

  /** `s` lists the elements of `ids` in ascending order, each of them once. */
  ghost predicate Ascending(s: seq<nat>, ids: set<nat>) {
    && |s| == |ids|
    && (forall i: nat, j: nat :: i < j < |s| ==> s[i] < s[j])
    && Elements(s) == ids
  }

  lemma AscendingEmpty(scope: set<nat>)
    ensures Ascending([], Below(scope, 0))
  {
    assert Below(scope, 0) == {};
  }

  lemma AscendingPush(s: seq<nat>, scope: set<nat>, k: nat)
    requires Ascending(s, Below(scope, k)) && k in scope
    ensures Ascending(s + [k], Below(scope, k + 1)) && |s| < |scope|
  {
    BelowNext(scope, k);
    Smaller(Below(scope, k + 1), scope);
    ElementsPush(s, k);
    assert forall i: nat :: i < |s| ==> s[i] in Elements(s);
  }

  /** The scope array that the constructor of a block builds. */
  method BuildScope(p: Projection, id: nat) returns (interferes: array<nat>, count: nat)
    requires p.InRange() && id < |p.preds| && p.Fits(id)
    ensures fresh(interferes) && count <= interferes.Length == p.Allocated(id, |p.succs[id]|)
    ensures Ascending(interferes[..count], p.Scope(id))
  {
    var ids, slots := Collect(p, id);
    assert forall a :: a in ids ==> a in p.Scope(id) || a == id;
    interferes, count := WriteScope(ids, id, slots, |p.preds|);
  }

  lemma ElementsPush(s: seq<nat>, x: nat)
    ensures Elements(s + [x]) == Elements(s) + {x}
  {
  }

  lemma BelowNext(s: set<nat>, k: nat)
    ensures Below(s, k + 1) <= s && k !in Below(s, k)
    ensures Below(s, k + 1) == if k in s then Below(s, k) + {k} else Below(s, k)
  {
  }

  ghost function Below(s: set<nat>, k: nat): set<nat> {
    set a | a in s && a < k
  }
}
