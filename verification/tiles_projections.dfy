/** Projections of sliding-tile boards onto the positions of a few tiles. */
module TilesProjections {
  import opened TilesRank

  // ----- the numbering of distinct positions -----

  ghost predicate IsTuple(size: nat, k: nat, t: seq<nat>) {
    |t| == k && Distinct(t) && forall i: nat :: i < |t| ==> t[i] < size
  }

  /** All ways to add `k` positions to `prefix`, in the order of `k` nested loops,
      skipping those with a repetition. */
  ghost function Tuples(size: nat, prefix: seq<nat>, k: nat): seq<seq<nat>>
    decreases k, size + 1
  {
    if k == 0 then (if Distinct(prefix) then [prefix] else []) else TuplesTo(size, prefix, k, size)
  }

  /** The outermost of these loops, run only to `m`. */
  ghost function TuplesTo(size: nat, prefix: seq<nat>, k: nat, m: nat): seq<seq<nat>>
    requires k > 0
    decreases k, m
  {
    if m == 0 then [] else TuplesTo(size, prefix, k, m - 1) + Tuples(size, prefix + [m - 1], k - 1)
  }

  lemma {:induction false} TuplesAre(size: nat, prefix: seq<nat>, k: nat, t: seq<nat>)
    ensures t in Tuples(size, prefix, k) <==>
            && |t| == |prefix| + k && prefix <= t && Distinct(t)
            && forall i: nat :: |prefix| <= i < |t| ==> t[i] < size
    decreases k, size + 1
  {
    if k > 0 {
      TuplesToAre(size, prefix, k, size, t);
    } else if |t| == |prefix| && prefix <= t {
      assert t == prefix;
    }
  }

  lemma {:induction false} TuplesToAre(size: nat, prefix: seq<nat>, k: nat, m: nat, t: seq<nat>)
    requires k > 0 && m <= size
    ensures t in TuplesTo(size, prefix, k, m) <==>
            && |t| == |prefix| + k && prefix <= t && Distinct(t) && t[|prefix|] < m
            && forall i: nat :: |prefix| <= i < |t| ==> t[i] < size
    decreases k, m
  {
    if m > 0 {
      TuplesToAre(size, prefix, k, m - 1, t);
      TuplesAre(size, prefix + [m - 1], k - 1, t);
      hide Distinct;
      Extends(prefix, m - 1, t);
    }
  }

  lemma Extends(prefix: seq<nat>, x: nat, t: seq<nat>)
    ensures prefix + [x] <= t <==> prefix <= t && |t| > |prefix| && t[|prefix|] == x
  {
    if prefix <= t && |t| > |prefix| && t[|prefix|] == x {
      assert t[..|prefix| + 1] == prefix + [x];
    }
  }

  /** `n` * (`n` - 1) * ..., with `k` factors. */
  function Falling(n: nat, k: nat): nat {
    if k == 0 then 1 else if n == 0 then 0 else n * Falling(n - 1, k - 1)
  }

  /** How many numbers below `m` are not in `prefix`. */
  function Free(prefix: seq<nat>, m: nat): nat {
    if m == 0 then 0 else Free(prefix, m - 1) + if m - 1 in prefix then 0 else 1
  }

  lemma {:induction false} FreeWithout(prefix: seq<nat>, x: nat, m: nat)
    requires x !in prefix
    ensures Free(prefix, m) == Free(prefix + [x], m) + if x < m then 1 else 0
  {
    if m > 0 { FreeWithout(prefix, x, m - 1); }
  }

  lemma {:induction false} FreeOfNone(m: nat)
    ensures Free([], m) == m
  {
    if m > 0 { FreeOfNone(m - 1); }
  }

  lemma {:induction false} FreeCount(size: nat, prefix: seq<nat>)
    requires IsTuple(size, |prefix|, prefix)
    ensures Free(prefix, size) + |prefix| == size
  {
    if prefix == [] {
      FreeOfNone(size);
    } else {
      var k := |prefix| - 1;
      assert prefix == prefix[..k] + [prefix[k]];
      FreeCount(size, prefix[..k]);
      FreeWithout(prefix[..k], prefix[k], size);
    }
  }

  lemma {:induction false} NoneWithRepetition(size: nat, prefix: seq<nat>, k: nat)
    requires !Distinct(prefix)
    ensures Tuples(size, prefix, k) == []
  {
    if Tuples(size, prefix, k) != [] {
      var t := Tuples(size, prefix, k)[0];
      TuplesAre(size, prefix, k, t);
      StillRepeats(prefix, t);
    }
  }

  lemma StillRepeats(prefix: seq<nat>, t: seq<nat>)
    requires !Distinct(prefix) && prefix <= t
    ensures !Distinct(t)
  {
    var i: nat, j: nat :| i < j < |prefix| && prefix[i] == prefix[j];
    assert t[i] == t[j];
  }

  /** The number of blocks is the falling product that the constructors allocate. */
  lemma {:induction false} TuplesCount(size: nat, prefix: seq<nat>, k: nat)
    requires IsTuple(size, |prefix|, prefix)
    ensures |prefix| <= size && |Tuples(size, prefix, k)| == Falling(size - |prefix|, k)
    decreases k, size + 1
  {
    FreeCount(size, prefix);
    if k > 0 {
      TuplesToCount(size, prefix, k, size);
    }
  }

  lemma {:induction false} TuplesToCount(size: nat, prefix: seq<nat>, k: nat, m: nat)
    requires IsTuple(size, |prefix|, prefix) && k > 0 && m <= size && |prefix| <= size
    ensures |prefix| == size ==> TuplesTo(size, prefix, k, m) == []
    ensures |prefix| < size ==>
              |TuplesTo(size, prefix, k, m)| == Free(prefix, m) * Falling(size - |prefix| - 1, k - 1)
    decreases k, m
  {
    if m > 0 {
      var x := m - 1;
      TuplesToCount(size, prefix, k, x);
      if x in prefix {
        Repeats(prefix, x);
        NoneWithRepetition(size, prefix + [x], k - 1);
      } else {
        TupleGrows(size, prefix, x);
        TuplesCount(size, prefix + [x], k - 1);
        Add1(Free(prefix, x), if |prefix| < size then Falling(size - |prefix| - 1, k - 1) else 0);
      }
    }
  }

  lemma Add1(a: nat, f: nat)
    ensures (a + 1) * f == a * f + f
  {
  }

  lemma Repeats(prefix: seq<nat>, x: nat)
    requires x in prefix
    ensures !Distinct(prefix + [x])
  {
    var i: nat :| i < |prefix| && prefix[i] == x;
    assert (prefix + [x])[i] == (prefix + [x])[|prefix|];
  }

  lemma TupleGrows(size: nat, prefix: seq<nat>, x: nat)
    requires IsTuple(size, |prefix|, prefix) && x < size && x !in prefix
    ensures IsTuple(size, |prefix| + 1, prefix + [x])
  {
  }

  // ----- the nested loops -----

  /** What `k` nested loops have produced when they stand at `u`; fewer
      counters stand for the start of the remaining loops. */
  ghost function Before(size: nat, k: nat, u: seq<nat>): seq<seq<nat>>
    requires |u| <= k
  {
    if u == [] then [] else
      var v, m := u[..|u| - 1], u[|u| - 1];
      Before(size, k, v) + TuplesTo(size, v, k - |v|, m)
  }

  lemma BeforeIs(size: nat, k: nat, v: seq<nat>, m: nat)
    requires |v| < k
    ensures Before(size, k, v + [m]) == Before(size, k, v) + TuplesTo(size, v, k - |v|, m)
  {
    assert (v + [m])[..|v|] == v;
  }

  lemma Enter(size: nat, k: nat, v: seq<nat>)
    requires |v| < k
    ensures Before(size, k, v + [0]) == Before(size, k, v)
  {
    BeforeIs(size, k, v, 0);
  }

  lemma Leave(size: nat, k: nat, v: seq<nat>, m: nat)
    requires |v| + 1 < k
    ensures Before(size, k, v + [m] + [size]) == Before(size, k, v + [m + 1])
  {
    BeforeIs(size, k, v, m);
    BeforeIs(size, k, v, m + 1);
    BeforeIs(size, k, v + [m], size);
  }

  lemma InnerStep(size: nat, k: nat, v: seq<nat>, m: nat)
    requires |v| + 1 == k
    ensures Before(size, k, v + [m + 1]) ==
            Before(size, k, v + [m]) + if Distinct(v + [m]) then [v + [m]] else []
  {
    BeforeIs(size, k, v, m);
    BeforeIs(size, k, v, m + 1);
  }

  /** A tuple that starts with the counters has not been produced yet. */
  lemma {:induction false} NotBefore(size: nat, k: nat, u: seq<nat>, t: seq<nat>)
    requires |u| <= k && u <= t && forall i: nat :: i < |u| ==> u[i] <= size
    ensures t !in Before(size, k, u)
  {
    if u != [] {
      var v, m := u[..|u| - 1], u[|u| - 1];
      NotBefore(size, k, v, t);
      TuplesToAre(size, v, k - |v|, m, t);
      assert t[|v|] == m;
    }
  }

  /** `proj` and `unproj` are inverse to each other. */
  ghost predicate Mutual(proj: map<seq<nat>, nat>, unproj: seq<seq<nat>>) {
    && (forall t :: t in proj ==> proj[t] < |unproj| && unproj[proj[t]] == t)
    && (forall b: nat :: b < |unproj| ==> unproj[b] in proj && proj[unproj[b]] == b)
  }

  /** The state of the loops: counters `u`. */
  ghost predicate Loop(size: nat, k: nat, u: seq<nat>, proj: map<seq<nat>, nat>, unproj: seq<seq<nat>>) {
    |u| <= k && unproj == Before(size, k, u) && Mutual(proj, unproj)
  }

  lemma Numbered(size: nat, k: nat, v: seq<nat>, m: nat, proj: map<seq<nat>, nat>, unproj: seq<seq<nat>>)
    requires |v| + 1 == k && Loop(size, k, v + [m], proj, unproj)
    requires m <= size && forall i: nat :: i < |v| ==> v[i] <= size
    ensures Distinct(v + [m]) ==>
              Loop(size, k, v + [m + 1], proj[v + [m] := |unproj|], unproj + [v + [m]])
    ensures !Distinct(v + [m]) ==> Loop(size, k, v + [m + 1], proj, unproj)
  {
    var t := v + [m];
    InnerStep(size, k, v, m);
    NotBefore(size, k, t, t);
    hide Distinct;
    if t in proj { assert unproj[proj[t]] == t; }
  }

  /** The finished tables. */
  ghost predicate Numbers(size: nat, k: nat, proj: map<seq<nat>, nat>, unproj: seq<seq<nat>>) {
    unproj == Tuples(size, [], k) && Mutual(proj, unproj)
  }

  lemma LoopsDone(size: nat, k: nat, proj: map<seq<nat>, nat>, unproj: seq<seq<nat>>)
    requires k > 0 && Loop(size, k, [size], proj, unproj)
    ensures Numbers(size, k, proj, unproj)
  {
    BeforeIs(size, k, [], size);
    assert [] + [size] == [size];
  }

  lemma LoopsStart(size: nat, k: nat)
    requires k > 0
    ensures Loop(size, k, [0], map[], [])
  {
    Enter(size, k, []);
    assert [] + [0] == [0];
  }

  lemma TwoDistinct(i: nat, j: nat)
    ensures Distinct([i, j]) <==> i != j
  {
    assert [i, j][0] == i && [i, j][1] == j;
  }

  lemma ThreeDistinct(i: nat, j: nat, k: nat)
    ensures Distinct([i, j, k]) <==> !(i == j || i == k || j == k)
  {
    var t := [i, j, k];
    assert t[0] == i && t[1] == j && t[2] == k;
  }

  lemma FourDistinct(i: nat, j: nat, k: nat, l: nat)
    ensures Distinct([i, j, k, l]) <==> !(i == j || i == k || i == l || j == k || j == l || l == k)
  {
    var t := [i, j, k, l];
    assert t[0] == i && t[1] == j && t[2] == k && t[3] == l;
  }

  /** One tile and the blank. */
  method NumberPairs(size: nat) returns (proj: map<seq<nat>, nat>, unproj: seq<seq<nat>>)
    ensures Numbers(size, 2, proj, unproj)
  {
    hide Loop, Numbers, Distinct;
    proj, unproj := map[], [];
    LoopsStart(size, 2);
    for i := 0 to size
      invariant Loop(size, 2, [i], proj, unproj)
    {
      assert [i] + [0] == [i, 0];
      EnterLoop(size, 2, [i], proj, unproj);
      for j := 0 to size
        invariant Loop(size, 2, [i, j], proj, unproj)
      {
        assert [i] + [j] == [i, j] && [i] + [j + 1] == [i, j + 1];
        Numbered(size, 2, [i], j, proj, unproj);
        TwoDistinct(i, j);
        if i != j {
          proj, unproj := proj[[i, j] := |unproj|], unproj + [[i, j]];
        }
      }
      assert [] + [i] + [size] == [i, size] && [] + [i + 1] == [i + 1];
      LeaveLoop(size, 2, [], i, proj, unproj);
    }
    LoopsDone(size, 2, proj, unproj);
  }

  /** Two tiles and the blank, or three tiles. */
  method NumberTriples(size: nat) returns (proj: map<seq<nat>, nat>, unproj: seq<seq<nat>>)
    ensures Numbers(size, 3, proj, unproj)
  {
    hide Loop, Numbers, Distinct;
    proj, unproj := map[], [];
    LoopsStart(size, 3);
    for i := 0 to size
      invariant Loop(size, 3, [i], proj, unproj)
    {
      assert [i] + [0] == [i, 0];
      EnterLoop(size, 3, [i], proj, unproj);
      for j := 0 to size
        invariant Loop(size, 3, [i, j], proj, unproj)
      {
        assert [i, j] + [0] == [i, j, 0];
        EnterLoop(size, 3, [i, j], proj, unproj);
        for k := 0 to size
          invariant Loop(size, 3, [i, j, k], proj, unproj)
        {
          assert [i, j] + [k] == [i, j, k] && [i, j] + [k + 1] == [i, j, k + 1];
          Numbered(size, 3, [i, j], k, proj, unproj);
          ThreeDistinct(i, j, k);
          if !(i == j || i == k || j == k) {
            proj, unproj := proj[[i, j, k] := |unproj|], unproj + [[i, j, k]];
          }
        }
        assert [i] + [j] + [size] == [i, j, size] && [i] + [j + 1] == [i, j + 1];
        LeaveLoop(size, 3, [i], j, proj, unproj);
      }
      assert [] + [i] + [size] == [i, size] && [] + [i + 1] == [i + 1];
      LeaveLoop(size, 3, [], i, proj, unproj);
    }
    LoopsDone(size, 3, proj, unproj);
  }

  /** Three tiles and the blank. */
  method NumberQuadruples(size: nat) returns (proj: map<seq<nat>, nat>, unproj: seq<seq<nat>>)
    ensures Numbers(size, 4, proj, unproj)
  {
    hide Loop, Numbers, Distinct;
    proj, unproj := map[], [];
    LoopsStart(size, 4);
    for i := 0 to size
      invariant Loop(size, 4, [i], proj, unproj)
    {
      assert [i] + [0] == [i, 0];
      EnterLoop(size, 4, [i], proj, unproj);
      for j := 0 to size
        invariant Loop(size, 4, [i, j], proj, unproj)
      {
        assert [i, j] + [0] == [i, j, 0];
        EnterLoop(size, 4, [i, j], proj, unproj);
        for k := 0 to size
          invariant Loop(size, 4, [i, j, k], proj, unproj)
        {
          proj, unproj := NumberLast(size, i, j, k, proj, unproj);
          assert [i, j] + [k] + [size] == [i, j, k, size] && [i, j] + [k + 1] == [i, j, k + 1];
          LeaveLoop(size, 4, [i, j], k, proj, unproj);
        }
        assert [i] + [j] + [size] == [i, j, size] && [i] + [j + 1] == [i, j + 1];
        LeaveLoop(size, 4, [i], j, proj, unproj);
      }
      assert [] + [i] + [size] == [i, size] && [] + [i + 1] == [i + 1];
      LeaveLoop(size, 4, [], i, proj, unproj);
    }
    LoopsDone(size, 4, proj, unproj);
  }

  /** The innermost of the four loops. */
  method NumberLast(size: nat, i: nat, j: nat, k: nat, proj0: map<seq<nat>, nat>, unproj0: seq<seq<nat>>)
    returns (proj: map<seq<nat>, nat>, unproj: seq<seq<nat>>)
    requires i < size && j < size && k < size && Loop(size, 4, [i, j, k], proj0, unproj0)
    ensures Loop(size, 4, [i, j, k, size], proj, unproj)
  {
    hide Loop, Distinct;
    proj, unproj := proj0, unproj0;
    assert [i, j, k] + [0] == [i, j, k, 0];
    EnterLoop(size, 4, [i, j, k], proj, unproj);
    for l := 0 to size
      invariant Loop(size, 4, [i, j, k, l], proj, unproj)
    {
      assert [i, j, k] + [l] == [i, j, k, l] && [i, j, k] + [l + 1] == [i, j, k, l + 1];
      Numbered(size, 4, [i, j, k], l, proj, unproj);
      FourDistinct(i, j, k, l);
      if !(i == j || i == k || i == l || j == k || j == l || l == k) {
        proj, unproj := proj[[i, j, k, l] := |unproj|], unproj + [[i, j, k, l]];
      }
    }
  }

  lemma EnterLoop(size: nat, k: nat, v: seq<nat>, proj: map<seq<nat>, nat>, unproj: seq<seq<nat>>)
    requires |v| < k && Loop(size, k, v, proj, unproj)
    ensures Loop(size, k, v + [0], proj, unproj)
  {
    Enter(size, k, v);
  }

  lemma LeaveLoop(size: nat, k: nat, v: seq<nat>, m: nat, proj: map<seq<nat>, nat>, unproj: seq<seq<nat>>)
    requires |v| + 1 < k && Loop(size, k, v + [m] + [size], proj, unproj)
    ensures Loop(size, k, v + [m + 1], proj, unproj)
  {
    Leave(size, k, v, m);
  }

  /** The blocks are numbered 0, 1, ... up to the falling product, one for each tuple of distinct positions. */
  lemma NumberingIsBijective(size: nat, k: nat, proj: map<seq<nat>, nat>, unproj: seq<seq<nat>>)
    requires Numbers(size, k, proj, unproj)
    ensures |unproj| == Falling(size, k)
    ensures forall t :: IsTuple(size, k, t) <==> t in proj
    ensures forall t :: t in proj ==> proj[t] < |unproj| && unproj[proj[t]] == t
    ensures forall b: nat :: b < |unproj| ==> IsTuple(size, k, unproj[b]) && proj[unproj[b]] == b
  {
    TuplesCount(size, [], k);
    hide Distinct;
    forall t ensures IsTuple(size, k, t) <==> t in proj {
      TuplesAre(size, [], k, t);
      if t in unproj {
        var b: nat :| b < |unproj| && unproj[b] == t;
      }
      if t in proj { assert unproj[proj[t]] in unproj; }
    }
  }

  /** The three tiles are put in ascending order. */
  method SortThree(x: nat, y: nat, z: nat) returns (a: nat, b: nat, c: nat)
    requires x != y && x != z && y != z
    ensures a < b < c && {a, b, c} == {x, y, z}
  {
    a, b, c := x, y, z;
    if a > b { a, b := b, a; }
    if b > c { b, c := c, b; }
    if a > b { a, b := b, a; }
  }
}
