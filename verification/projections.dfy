/** Projections onto abstract blocks: neighbour lists, and the merging of blocks by division. */
module Projections {
  import opened Interference
  import PbnfTheorems
  import opened FixedPoint

  // ----- projections with one list of neighbours -----

  /** `n` blocks; a block's predecessors and successors are both its neighbours. */
  datatype Neighbourhood = Neighbourhood(n: nat, list: nat -> seq<nat>) {

    ghost predicate InRange() {
      forall b: nat, x: nat :: b < n && x in list(b) ==> x < n
    }

    ghost predicate Symmetric() {
      forall a: nat, b: nat :: a < n && b < n && b in list(a) ==> a in list(b)
    }

    /** Some other block is listed next to `b`. */
    ghost predicate HasNeighbour(b: nat) {
      exists x :: x in list(b) && x != b
    }

    function Lists(): Projection {
      var l := seq(n, (i: nat) => list(i));
      Projection(l, l)
    }

    /** A step between the blocks `a` and `b` stays inside or goes to a neighbour. */
    ghost predicate Covers(a: nat, b: nat) {
      a < n && b < n && (a == b || b in list(a))
    }
  }

  /** A symmetric neighbourhood is what the scheduler needs: inverse lists that fit into the array. */
  lemma SymmetricServes(nb: Neighbourhood)
    requires nb.InRange() && nb.Symmetric()
    ensures nb.Lists().InRange() && nb.Lists().Inverse()
    ensures forall b: nat :: b < nb.n ==> nb.Lists().Fits(b)
  {
    var p := nb.Lists();
    ListsAre(nb);
    forall b: nat | b < nb.n ensures p.Fits(b) {
      SymmetricGraphFits(p, b);
    }
  }

  lemma ListsAre(nb: Neighbourhood)
    requires nb.InRange()
    ensures var p := nb.Lists(); p.InRange() && |p.preds| == |p.succs| == nb.n
    ensures forall b: nat :: b < nb.n ==> nb.Lists().preds[b] == nb.Lists().succs[b] == nb.list(b)
  {
    var p := nb.Lists();
    forall b: nat, i: nat | b < nb.n && i < |p.preds[b]| ensures p.preds[b][i] < nb.n {
      assert p.preds[b][i] in nb.list(b);
    }
  }

  /** A block interferes with another one exactly if it has a neighbour other than itself. */
  lemma ScopeIffNeighbour(nb: Neighbourhood, b: nat)
    requires nb.InRange() && nb.Symmetric() && b < nb.n
    ensures nb.Lists().InRange()
    ensures nb.Lists().Scope(b) != {} <==> nb.HasNeighbour(b)
  {
    var p := nb.Lists();
    ListsAre(nb);
    if nb.HasNeighbour(b) {
      var x :| x in nb.list(b) && x != b;
      assert x in p.succs[b] && x < nb.n;
      assert x in p.Scope(b);
    }
    if p.Scope(b) != {} {
      var a :| a in p.Scope(b);
      if a !in nb.list(b) {
        var i: nat :| i < |p.succs[b]| && a in p.preds[p.succs[b][i]];
        var s := p.succs[b][i];
        assert s in nb.list(b);
        assert s != b;
      }
    }
  }

  /** Every theorem about the scheduler holds for such a projection. */
  lemma SchedulerAccepts(nb: Neighbourhood, weight: nat, boundWeight: real)
    requires nb.InRange() && nb.Symmetric()
    requires forall b: nat :: b < nb.n ==> nb.HasNeighbour(b)
    requires FP_ONE <= weight && boundWeight * (FP_ONE as real) >= weight as real
    ensures nb.Lists().InRange() && PbnfTheorems.ConfigOf(nb.Lists(), weight, boundWeight).Valid()
  {
    SymmetricServes(nb);
    ListsAre(nb);
    forall b: nat | b < nb.n ensures nb.Lists().Scope(b) != {} {
      ScopeIffNeighbour(nb, b);
    }
    PbnfTheorems.ProjectionIsValid(nb.Lists(), weight, boundWeight);
  }

  // ----- merging blocks by division -----

  /** The `i`-th block that is merged into `b`. */
  function Member(b: nat, div: nat, i: nat): nat { b * div + i }

  lemma MemberOf(a: nat, div: nat)
    requires div > 0
    ensures Member(a / div, div, a % div) == a
  {
  }

  lemma MemberBlock(b: nat, div: nat, i: nat)
    requires i < div
    ensures Member(b, div, i) / div == b
  {
    var a := b * div + i;
    var q := a / div;
    assert a == q * div + a % div;
    if q < b { Times(q + 1, b, div); } else if q > b { Times(b + 1, q, div); }
  }

  lemma Times(a: nat, b: nat, k: nat)
    requires a <= b
    ensures a * k <= b * k
  {
  }

  lemma MemberInRange(b: nat, div: nat, i: nat, n: nat)
    requires i < div && b < n / div
    ensures Member(b, div, i) < n
  {
    Times(b + 1, n / div, div);
  }

  /** Some list entry of the block `a` lies in the merged block `s`. */
  ghost predicate Leads(lists: seq<seq<nat>>, div: nat, a: nat, s: nat)
    requires div > 0
  {
    a < |lists| && exists j: nat :: j < |lists[a]| && lists[a][j] / div == s
  }

  /** `s` is another merged block to which a member of `b` leads. */
  ghost predicate MergesTo(lists: seq<seq<nat>>, div: nat, b: nat, s: nat)
    requires div > 0
  {
    s != b && exists i: nat :: i < div && Leads(lists, div, Member(b, div, i), s)
  }

  /** The entries of the first `k` members, or of the first `j` entries of the next one. */
  ghost predicate MergedSoFar(lists: seq<seq<nat>>, div: nat, b: nat, k: nat, s: set<nat>)
    requires div > 0
  {
    forall x: nat :: x in s <==> x != b && exists i: nat :: i < k && Leads(lists, div, Member(b, div, i), x)
  }

  /** The quotients of the first `j` entries of a list, without `b`. */
  ghost function Quotients(l: seq<nat>, div: nat, b: nat, j: nat): set<nat>
    requires div > 0 && j <= |l|
  {
    if j == 0 then {} else
      Quotients(l, div, b, j - 1) + if l[j - 1] / div != b then {l[j - 1] / div} else {}
  }

  lemma {:induction false} QuotientsAre(l: seq<nat>, div: nat, b: nat, j: nat, x: nat)
    requires div > 0 && j <= |l|
    ensures x in Quotients(l, div, b, j) <==> x != b && exists i: nat :: i < j && l[i] / div == x
  {
    if j > 0 {
      QuotientsAre(l, div, b, j - 1, x);
    }
  }

  lemma MergeOne(lists: seq<seq<nat>>, div: nat, b: nat, k: nat, s: set<nat>)
    requires div > 0 && MergedSoFar(lists, div, b, k, s) && Member(b, div, k) < |lists|
    ensures var l := lists[Member(b, div, k)];
            MergedSoFar(lists, div, b, k + 1, s + Quotients(l, div, b, |l|))
  {
    hide Member;
    var l := lists[Member(b, div, k)];
    forall x: nat
      ensures x in s + Quotients(l, div, b, |l|) <==>
              x != b && exists i: nat :: i < k + 1 && Leads(lists, div, Member(b, div, i), x)
    {
      QuotientsAre(l, div, b, |l|, x);
      if x != b && x !in s && Leads(lists, div, Member(b, div, k), x) {
        assert x in Quotients(l, div, b, |l|);
      }
    }
  }

  /** The quotients of one list are added to a set. */
  method AddQuotients(l: seq<nat>, div: nat, b: nat, was: set<nat>) returns (s: set<nat>)
    requires div > 0
    ensures s == was + Quotients(l, div, b, |l|)
  {
    s := was;
    for j := 0 to |l|
      invariant s == was + Quotients(l, div, b, j)
    {
      var suc := l[j] / div;
      if suc != b {
        s := s + {suc};
      }
    }
  }

  /** The successors, or the predecessors, of a merged block: a set, written out in order. */
  method MergedList(lists: seq<seq<nat>>, div: nat, b: nat) returns (ret: seq<nat>)
    requires div > 0 && b < |lists| / div
    requires forall i: nat, j: nat :: i < |lists| && j < |lists[i]| ==> lists[i][j] < |lists|
    ensures forall s :: s in ret <==> MergesTo(lists, div, b, s)
    ensures forall i: nat, j: nat :: i < j < |ret| ==> ret[i] < ret[j]
  {
    hide Member, Leads, Quotients, MergedSoFar;
    var s: set<nat> := {};
    NoneMerged(lists, div, b);
    for i := 0 to div
      invariant MergedSoFar(lists, div, b, i, s)
    {
      MemberInRange(b, div, i, |lists|);
      MergeOne(lists, div, b, i, s);
      s := AddQuotients(lists[Member(b, div, i)], div, b, s);
    }
    AllMerged(lists, div, b, s);
    ret := Ordered(s, |lists|);
  }

  lemma NoneMerged(lists: seq<seq<nat>>, div: nat, b: nat)
    requires div > 0
    ensures MergedSoFar(lists, div, b, 0, {})
  {
  }

  lemma AllMerged(lists: seq<seq<nat>>, div: nat, b: nat, s: set<nat>)
    requires div > 0 && MergedSoFar(lists, div, b, div, s)
    requires forall i: nat, j: nat :: i < |lists| && j < |lists[i]| ==> lists[i][j] < |lists|
    ensures forall x: nat :: x in s <==> MergesTo(lists, div, b, x)
    ensures forall x: nat :: x in s ==> x < |lists|
  {
    hide Member;
    forall x: nat | x in s ensures x < |lists| {
      var i: nat :| i < div && Leads(lists, div, Member(b, div, i), x);
      var a := Member(b, div, i);
      var j: nat :| j < |lists[a]| && lists[a][j] / div == x;
      QuotientAtMost(lists[a][j], div);
    }
  }

  lemma QuotientAtMost(a: nat, div: nat)
    requires div > 0
    ensures a / div <= a
  {
    Times(1, div, a / div);
    assert a == a / div * div + a % div;
  }

  /** The elements of a set of numbers below `n` in ascending order. */
  method Ordered(s: set<nat>, n: nat) returns (ret: seq<nat>)
    requires forall x :: x in s ==> x < n
    ensures forall x :: x in ret <==> x in s
    ensures forall i: nat, j: nat :: i < j < |ret| ==> ret[i] < ret[j]
  {
    ret := [];
    AscendingEmpty(s);
    for k := 0 to n
      invariant Ascending(ret, Below(s, k))
    {
      if k in s {
        AscendingPush(ret, s, k);
        ret := ret + [k];
      } else {
        BelowNext(s, k);
      }
    }
    assert Below(s, n) == s;
    assert forall x :: x in ret <==> x in Elements(ret);
  }

  /** The blocks of `p`, merged in groups of `div`. */
  ghost predicate IsMerge(p: Projection, div: nat, q: Projection)
    requires p.InRange() && div > 0
  {
    && |q.preds| == |q.succs| == |p.preds| / div
    && (forall b: nat, s: nat :: b < |q.preds| ==> (s in q.preds[b] <==> MergesTo(p.preds, div, b, s)))
    && (forall b: nat, s: nat :: b < |q.succs| ==> (s in q.succs[b] <==> MergesTo(p.succs, div, b, s)))
  }

  method DivMerge(p: Projection, div: nat) returns (q: Projection)
    requires p.InRange() && div > 0
    ensures IsMerge(p, div, q)
  {
    hide MergesTo;
    var preds, succs := [], [];
    for b := 0 to |p.preds| / div
      invariant |preds| == |succs| == b
      invariant forall c: nat, s: nat :: c < b ==> (s in preds[c] <==> MergesTo(p.preds, div, c, s))
      invariant forall c: nat, s: nat :: c < b ==> (s in succs[c] <==> MergesTo(p.succs, div, c, s))
    {
      var l := MergedList(p.preds, div, b);
      var m := MergedList(p.succs, div, b);
      preds, succs := preds + [l], succs + [m];
    }
    q := Projection(preds, succs);
  }

  /** Every block has a merged block exactly when the divisor divides their number. */
  lemma MergeInRangeIff(n: nat, div: nat)
    requires div > 0
    ensures (forall a: nat :: a < n ==> a / div < n / div) <==> n % div == 0
  {
    if n % div == 0 {
      forall a: nat | a < n ensures a / div < n / div {
        BelowMultiple(a, n, div);
      }
    } else {
      var a := Member(n / div, div, 0);
      MemberBlock(n / div, div, 0);
      assert a < n && a / div == n / div;
    }
  }

  lemma BelowMultiple(a: nat, n: nat, div: nat)
    requires div > 0 && a < n && n % div == 0
    ensures a / div < n / div
  {
    if a / div >= n / div { Times(n / div, a / div, div); }
  }

  /** Merging keeps the lists inverse to each other and covers every step of the merged projection. */
  lemma MergeServes(p: Projection, div: nat, q: Projection)
    requires p.InRange() && p.Inverse() && div > 0 && |p.preds| % div == 0 && IsMerge(p, div, q)
    ensures q.InRange() && q.Inverse()
    ensures |p.succs| == |p.preds| && |q.preds| == |q.succs|
    ensures forall a: nat, t: nat :: a < |p.preds| && t in p.succs[a] ==>
              a / div < |q.preds| && (t / div == a / div || t / div in q.succs[a / div])
  {
    assert |p.succs| == |p.preds| && |q.preds| == |q.succs|;
    hide IsMerge, Projection.InRange, Projection.Inverse;
    MergeInRange(p, div, q);
    MergeInverse(p, div, q);
    forall a: nat, t: nat | a < |p.preds| && t in p.succs[a]
      ensures a / div < |q.preds| && (t / div == a / div || t / div in q.succs[a / div])
    {
      MergeCovers(p, div, q, a, t);
    }
  }

  /** A merged block is isolated only if no member leads to or from another merged block. */
  lemma MergedScope(p: Projection, div: nat, q: Projection, b: nat)
    requires p.InRange() && div > 0 && IsMerge(p, div, q) && q.InRange() && b < |q.preds|
    ensures q.Scope(b) == {} <==> forall s: nat :: !MergesTo(p.succs, div, b, s) && !MergesTo(p.preds, div, b, s)
  {
    hide MergesTo;
    if s: nat :| MergesTo(p.succs, div, b, s) || MergesTo(p.preds, div, b, s) {
      NotItself(p, div, b, s);
      assert s in q.succs[b] || s in q.preds[b];
      assert s in q.Scope(b);
    }
    if q.Scope(b) != {} {
      var a :| a in q.Scope(b);
      if a !in q.preds[b] && a !in q.succs[b] {
        var i: nat :| i < |q.succs[b]| && a in q.preds[q.succs[b][i]];
        assert MergesTo(p.succs, div, b, q.succs[b][i]);
      }
    }
  }

  lemma NotItself(p: Projection, div: nat, b: nat, s: nat)
    requires div > 0 && (MergesTo(p.succs, div, b, s) || MergesTo(p.preds, div, b, s))
    ensures s != b
  {
  }

  lemma MergeInverse(p: Projection, div: nat, q: Projection)
    requires p.InRange() && p.Inverse() && div > 0 && IsMerge(p, div, q) && q.InRange()
    ensures q.Inverse()
  {
    hide MergesTo;
    forall a: nat, b: nat | a < |q.preds| && b < |q.preds|
      ensures a in q.preds[b] <==> b in q.succs[a]
    {
      if a in q.preds[b] { MergedInverse(p.preds, p.succs, div, b, a); }
      if b in q.succs[a] { MergedInverse(p.succs, p.preds, div, a, b); }
    }
  }

  lemma MergeCovers(p: Projection, div: nat, q: Projection, a: nat, t: nat)
    requires p.InRange() && div > 0 && |p.preds| % div == 0 && IsMerge(p, div, q)
    requires a < |p.preds| && t in p.succs[a]
    ensures a / div < |q.preds| && (t / div == a / div || t / div in q.succs[a / div])
  {
    hide MergesTo, IsMerge, Projection.InRange;
    Lengths(p, div, q);
    BelowMultiple(a, |p.preds|, div);
    if t / div != a / div {
      Merges(p.succs, div, a, t);
      Listed(p, div, q, a / div, t / div);
    }
  }

  lemma Lengths(p: Projection, div: nat, q: Projection)
    requires p.InRange() && div > 0 && IsMerge(p, div, q)
    ensures |p.preds| == |p.succs| && |q.preds| == |q.succs| == |p.preds| / div
  {
  }

  lemma Listed(p: Projection, div: nat, q: Projection, b: nat, s: nat)
    requires p.InRange() && div > 0 && IsMerge(p, div, q) && b < |q.succs| && MergesTo(p.succs, div, b, s)
    ensures s in q.succs[b]
  {
  }

  lemma MergeInRange(p: Projection, div: nat, q: Projection)
    requires p.InRange() && div > 0 && |p.preds| % div == 0 && IsMerge(p, div, q)
    ensures q.InRange()
  {
    hide MergesTo;
    forall b: nat, i: nat | b < |q.preds| && i < |q.preds[b]| ensures q.preds[b][i] < |q.preds| {
      assert q.preds[b][i] in q.preds[b];
      MergedInRange(p.preds, div, b, q.preds[b][i]);
    }
    forall b: nat, i: nat | b < |q.succs| && i < |q.succs[b]| ensures q.succs[b][i] < |q.succs| {
      assert q.succs[b][i] in q.succs[b];
      MergedInRange(p.succs, div, b, q.succs[b][i]);
    }
  }

  lemma Merges(lists: seq<seq<nat>>, div: nat, a: nat, t: nat)
    requires div > 0 && a < |lists| && t in lists[a] && t / div != a / div
    ensures MergesTo(lists, div, a / div, t / div)
  {
    hide Member;
    MemberOf(a, div);
    var j: nat :| j < |lists[a]| && lists[a][j] == t;
    assert Leads(lists, div, Member(a / div, div, a % div), t / div);
  }

  lemma MergedInRange(lists: seq<seq<nat>>, div: nat, b: nat, s: nat)
    requires div > 0 && MergesTo(lists, div, b, s) && |lists| % div == 0
    requires forall i: nat, j: nat :: i < |lists| && j < |lists[i]| ==> lists[i][j] < |lists|
    ensures s < |lists| / div
  {
    hide Member;
    var i: nat :| i < div && Leads(lists, div, Member(b, div, i), s);
    var a := Member(b, div, i);
    var j: nat :| j < |lists[a]| && lists[a][j] / div == s;
    BelowMultiple(lists[a][j], |lists|, div);
  }

  lemma MergedInverse(there: seq<seq<nat>>, back: seq<seq<nat>>, div: nat, b: nat, s: nat)
    requires div > 0 && |there| == |back| && MergesTo(there, div, b, s)
    requires forall i: nat, j: nat :: i < |there| && j < |there[i]| ==> there[i][j] < |there|
    requires forall i: nat, j: nat :: i < |there| && j < |there| ==> (j in there[i] <==> i in back[j])
    ensures MergesTo(back, div, s, b)
  {
    hide Member;
    var i: nat :| i < div && Leads(there, div, Member(b, div, i), s);
    MemberBlock(b, div, i);
    var a := Member(b, div, i);
    var j: nat :| j < |there[a]| && there[a][j] / div == s;
    var t := there[a][j];
    assert t in there[a] && a in back[t];
    var k: nat :| k < |back[t]| && back[t][k] == a;
    MemberOf(t, div);
    assert Leads(back, div, Member(s, div, t % div), b);
  }
}
