/**
 * The perfect hash of sliding-tile boards: the rank of a permutation.
 *
 * Machine words are numbers here: shifting one by `k` is a power of two, masking
 * the lowest `k` bits is a remainder, setting a bit that is clear is a sum.
 */
module TilesRank {

  function Pow2(k: nat): (r: nat)
    ensures r > 0
  {
    if k == 0 then 1 else 2 * Pow2(k - 1)
  }

  function Factorial(n: nat): (r: nat)
    ensures r > 0
  {
    if n == 0 then 1 else Factorial(n - 1) * n
  }

  // ----- words as sets of bits -----

  function Bit(v: nat, j: nat): nat {
    if j == 0 then v % 2 else Bit(v / 2, j - 1)
  }

  /** The number of bits that are set. */
  function Ones(v: nat): nat {
    if v == 0 then 0 else v % 2 + Ones(v / 2)
  }

  lemma OnesHalf(v: nat)
    ensures Ones(v) == if v == 0 then 0 else v % 2 + Ones(v / 2)
  {
  }

  /** The number of bits that are set among the lowest `k`. */
  function OnesBelow(v: nat, k: nat): nat {
    if k == 0 then 0 else v % 2 + OnesBelow(v / 2, k - 1)
  }

  function SetBit(v: nat, k: nat): nat { if Bit(v, k) == 1 then v else v + Pow2(k) }

  lemma {:induction false} BitAfterSet(v: nat, k: nat, j: nat)
    ensures Bit(v, j) <= 1
    ensures Bit(SetBit(v, k), j) == if j == k then 1 else Bit(v, j)
    decreases j + k
  {
    if j > 0 && k > 0 {
      BitAfterSet(v / 2, k - 1, j - 1);
    } else if j > 0 {
      BitAtMostOne(v / 2, j - 1);
    } else if k > 0 {
      BitAtMostOne(v, k);
    }
  }

  lemma {:induction false} BitAtMostOne(v: nat, j: nat)
    ensures Bit(v, j) <= 1
  {
    if j > 0 { BitAtMostOne(v / 2, j - 1); }
  }

  lemma {:induction false} OnesOfRemainder(v: nat, k: nat)
    ensures Ones(v % Pow2(k)) == OnesBelow(v, k)
  {
    if k > 0 {
      var q, r := Divided(v, Pow2(k));
      Halves(v, Pow2(k - 1), q, r);
      OnesOfRemainder(v / 2, k - 1);
    }
  }

  lemma Divided(v: nat, n: nat) returns (q: nat, r: nat)
    requires n > 0
    ensures v == q * n + r && r < n && r == v % n
  {
    q, r := v / n, v % n;
  }

  lemma Halves(v: nat, m: nat, q: nat, r: nat)
    requires m > 0 && v == q * (2 * m) + r && r < 2 * m
    ensures r % 2 == v % 2 && r / 2 == v / 2 % m
  {
    assert v == 2 * (q * m) + r;
    HalfSum(q * m, r);
    Remainder(v / 2, m, q, r / 2);
  }

  lemma HalfSum(x: nat, r: nat)
    ensures (2 * x + r) / 2 == x + r / 2 && (2 * x + r) % 2 == r % 2
  {
  }

  lemma Remainder(a: nat, m: nat, q: nat, r: nat)
    requires a == q * m + r && r < m
    ensures a % m == r && a / m == q
  {
    assert a == a / m * m + a % m;
    Unique(m, q, r, a / m, a % m);
  }

  lemma Unique(m: nat, q: nat, r: nat, q': nat, r': nat)
    requires q * m + r == q' * m + r' && r < m && r' < m
    ensures q == q' && r == r'
  {
    if q < q' {
      Apart(m, q, q');
    } else if q' < q {
      Apart(m, q', q);
    }
  }

  lemma Apart(m: nat, a: nat, b: nat)
    requires a < b
    ensures a * m + m <= b * m
  {
    assert (a + 1) * m <= b * m;
  }

  lemma {:induction false} OnesBelowNext(v: nat, k: nat)
    ensures OnesBelow(v, k + 1) == OnesBelow(v, k) + Bit(v, k)
  {
    if k > 0 { OnesBelowNext(v / 2, k - 1); }
  }

  // ----- counting smaller elements -----

  function CountLess(s: seq<nat>, k: nat): nat {
    if s == [] then 0 else (if s[0] < k then 1 else 0) + CountLess(s[1..], k)
  }

  ghost predicate Distinct(s: seq<nat>) { forall i: nat, j: nat :: i < j < |s| ==> s[i] != s[j] }

  lemma {:induction false} CountSum(a: seq<nat>, b: seq<nat>, k: nat)
    ensures CountLess(a + b, k) == CountLess(a, k) + CountLess(b, k)
  {
    if a == [] {
      assert a + b == b;
    } else {
      CountSum(a[1..], b, k);
      assert (a + b)[1..] == a[1..] + b;
    }
  }

  lemma {:induction false} CountAtMost(s: seq<nat>, k: nat)
    ensures CountLess(s, k) <= |s| && (k == 0 ==> CountLess(s, k) == 0)
  {
    if s != [] { CountAtMost(s[1..], k); }
  }

  lemma {:induction false} CountNext(s: seq<nat>, k: nat)
    requires Distinct(s)
    ensures CountLess(s, k + 1) == CountLess(s, k) + if k in s then 1 else 0
  {
    if s != [] {
      var rest := s[1..];
      assert Distinct(rest) by {
        forall i: nat, j: nat | i < j < |rest| ensures rest[i] != rest[j] { assert s[i + 1] != s[j + 1]; }
      }
      CountNext(rest, k);
      if s[0] == k {
        forall i: nat | i < |rest| ensures rest[i] != k { assert s[0] != s[i + 1]; }
      }
      assert k in s <==> k == s[0] || k in rest;
    }
  }

  /** The word whose bits are the elements of `s`. */
  ghost predicate Represents(v: nat, s: seq<nat>) {
    forall j: nat :: Bit(v, j) == if j in s then 1 else 0
  }

  /** Masking and counting bits counts smaller elements. */
  lemma {:induction false} OnesCount(v: nat, s: seq<nat>, k: nat)
    requires Represents(v, s) && Distinct(s)
    ensures OnesBelow(v, k) == CountLess(s, k)
  {
    if k == 0 {
      CountAtMost(s, 0);
    } else {
      OnesCount(v, s, k - 1);
      OnesBelowNext(v, k - 1);
      CountNext(s, k - 1);
    }
  }

  // ----- permutations -----

  ghost predicate IsPerm(t: seq<nat>) {
    Distinct(t) && forall i: nat :: i < |t| ==> t[i] < |t|
  }

  ghost function Range(n: nat): (s: set<nat>)
    ensures |s| == n && forall k: nat :: k in s <==> k < n
  {
    if n == 0 then {} else Range(n - 1) + {n - 1}
  }

  ghost function ElemsOf(s: seq<nat>): set<nat> { set x | x in s }

  lemma {:induction false} DistinctSize(s: seq<nat>)
    requires Distinct(s)
    ensures |ElemsOf(s)| == |s|
  {
    if s != [] {
      var k := |s| - 1;
      DistinctSize(s[..k]);
      forall i: nat | i < k ensures s[..k][i] != s[k] { }
      assert s == s[..k] + [s[k]];
      assert ElemsOf(s) == ElemsOf(s[..k]) + {s[k]};
    }
  }

  /** A permutation contains every number below its length. */
  lemma PermCovers(t: seq<nat>, k: nat)
    requires IsPerm(t) && k < |t|
    ensures k in t
  {
    var a, b := ElemsOf(t), Range(|t|);
    DistinctSize(t);
    assert a <= b;
    SameSize(a, b);
    assert k in a;
  }

  lemma SameSize(a: set<nat>, b: set<nat>)
    requires a <= b && |a| == |b|
    ensures a == b
  {
    assert b == a + (b - a);
  }

  lemma {:induction false} PermCount(t: seq<nat>, k: nat)
    requires IsPerm(t) && k <= |t|
    ensures CountLess(t, k) == k
  {
    if k == 0 {
      CountAtMost(t, 0);
    } else {
      PermCount(t, k - 1);
      CountNext(t, k - 1);
      PermCovers(t, k - 1);
    }
  }

  /** The digit of position `i`: how many smaller tiles stand before it. */
  function Digit(t: seq<nat>, i: nat): nat
    requires i < |t|
  {
    CountLess(t[..i], t[i])
  }

  lemma DigitAtMost(t: seq<nat>, i: nat)
    requires i < |t|
    ensures Digit(t, i) <= i
  {
    CountAtMost(t[..i], t[i]);
  }

  /** What the program computes: the tile less the number of smaller tiles after it. */
  lemma DigitFromBehind(t: seq<nat>, i: nat)
    requires IsPerm(t) && i < |t|
    ensures Digit(t, i) == t[i] - CountLess(t[i + 1..], t[i])
  {
    var k := t[i];
    PermCount(t, k);
    CountSum(t[..i], [k], k);
    CountSum(t[..i] + [k], t[i + 1..], k);
    assert t == t[..i] + [k] + t[i + 1..];
    assert CountLess([k], k) == 0 by { assert [k][1..] == []; }
  }

  /** The factorial-base number of the first `n` digits. */
  function RankOf(t: seq<nat>, n: nat): nat
    requires n <= |t|
  {
    if n == 0 then 0 else RankOf(t, n - 1) + Digit(t, n - 1) * Factorial(n - 1)
  }

  function Rank(t: seq<nat>): nat { RankOf(t, |t|) }

  // ----- the rank is a bijection -----

  function Shrink(x: nat, last: nat): nat { if x > last then x - 1 else x }

  function Grow(x: nat, last: nat): nat { if x < last then x else x + 1 }

  /** The first elements of a permutation, moved together over the gap of the last. */
  function Compress(t: seq<nat>): (r: seq<nat>)
    requires t != []
    ensures |r| == |t| - 1
  {
    seq(|t| - 1, i requires 0 <= i < |t| - 1 => Shrink(t[i], t[|t| - 1]))
  }

  function Spread(r: seq<nat>, last: nat): (t: seq<nat>)
    ensures |t| == |r| + 1 && t[|r|] == last
  {
    seq(|r|, i requires 0 <= i < |r| => Grow(r[i], last)) + [last]
  }

  lemma CompressIsPerm(t: seq<nat>)
    requires IsPerm(t) && t != []
    ensures IsPerm(Compress(t)) && Spread(Compress(t), t[|t| - 1]) == t
  {
    var r, last := Compress(t), t[|t| - 1];
    forall i: nat | i < |r| ensures r[i] < |r| && Grow(r[i], last) == t[i] {
      assert t[i] != t[|t| - 1];
    }
    forall i: nat, j: nat | i < j < |r| ensures r[i] != r[j] {
      assert t[i] != t[j] && t[i] != last && t[j] != last;
    }
    assert Spread(r, last) == t;
  }

  lemma SpreadIsPerm(r: seq<nat>, last: nat)
    requires IsPerm(r) && last <= |r|
    ensures IsPerm(Spread(r, last)) && Compress(Spread(r, last)) == r
  {
    var t := Spread(r, last);
    forall i: nat, j: nat | i < j < |t| ensures t[i] != t[j] {
      if j < |r| { assert r[i] != r[j]; }
    }
    assert Compress(t) == r;
  }

  lemma {:induction false} CountShrink(s: seq<nat>, r: seq<nat>, last: nat, k: nat)
    requires |r| == |s| && k != last
    requires forall i: nat :: i < |s| ==> s[i] != last && r[i] == Shrink(s[i], last)
    ensures CountLess(r, Shrink(k, last)) == CountLess(s, k)
  {
    if s != [] {
      CountShrink(s[1..], r[1..], last, k);
      assert s[0] != last && r[0] == Shrink(s[0], last);
    }
  }

  lemma {:induction false} RankCompressed(t: seq<nat>, n: nat)
    requires IsPerm(t) && t != [] && n < |t|
    ensures RankOf(Compress(t), n) == RankOf(t, n)
  {
    if n > 0 {
      RankCompressed(t, n - 1);
      var last := t[|t| - 1];
      assert forall i: nat :: i < |t| - 1 ==> t[i] != t[|t| - 1];
      CountShrink(t[..n - 1], Compress(t)[..n - 1], last, t[n - 1]);
    }
  }

  /** The last digit is the last tile, and the others are those of the rest. */
  lemma RankSplit(t: seq<nat>)
    requires IsPerm(t) && t != []
    ensures Rank(t) == t[|t| - 1] * Factorial(|t| - 1) + Rank(Compress(t))
  {
    hide Factorial, CountLess, Compress;
    RankCompressed(t, |t| - 1);
    LastDigit(t);
  }

  lemma LastDigit(t: seq<nat>)
    requires IsPerm(t) && t != []
    ensures Digit(t, |t| - 1) == t[|t| - 1]
  {
    DigitFromBehind(t, |t| - 1);
    assert t[|t| - 1 + 1..] == [];
  }

  /** The rank lies below the number of permutations. */
  lemma {:induction false} RankBelow(t: seq<nat>)
    requires IsPerm(t)
    ensures Rank(t) < Factorial(|t|)
    decreases |t|
  {
    if t != [] {
      RankSplit(t);
      CompressIsPerm(t);
      RankBelow(Compress(t));
      var n := |t| - 1;
      Within(t[n], n, Factorial(n), Rank(Compress(t)));
    }
  }

  lemma Within(d: nat, n: nat, f: nat, r: nat)
    requires d <= n && r < f
    ensures d * f + r < f * (n + 1)
  {
    assert d * f <= n * f;
  }

  /** The permutation of a rank. */
  function Unrank(n: nat, r: nat): (t: seq<nat>)
    ensures |t| == n
  {
    if n == 0 then [] else Spread(Unrank(n - 1, r % Factorial(n - 1)), r / Factorial(n - 1))
  }

  lemma {:induction false} UnrankIsPerm(n: nat, r: nat)
    requires r < Factorial(n)
    ensures IsPerm(Unrank(n, r)) && Rank(Unrank(n, r)) == r
  {
    hide Spread, IsPerm, Rank, Unrank;
    if n == 0 {
      NoTiles();
    } else {
      var last, rest := UnrankStep(n, r);
      UnrankIsPerm(n - 1, rest);
      SpreadRank(Unrank(n - 1, rest), last);
    }
  }

  lemma UnrankStep(n: nat, r: nat) returns (last: nat, rest: nat)
    requires n > 0 && r < Factorial(n)
    ensures r == last * Factorial(n - 1) + rest && rest < Factorial(n - 1) && last <= n - 1
    ensures Unrank(n, r) == Spread(Unrank(n - 1, rest), last)
  {
    hide Spread;
    var f := Factorial(n - 1);
    last, rest := r / f, r % f;
    QuotientBelow(r, f, n);
  }

  lemma NoTiles()
    ensures Unrank(0, 0) == [] && IsPerm([]) && Rank([]) == 0
  {
  }

  lemma SpreadRank(rest: seq<nat>, last: nat)
    requires IsPerm(rest) && last <= |rest|
    ensures IsPerm(Spread(rest, last)) && Rank(Spread(rest, last)) == last * Factorial(|rest|) + Rank(rest)
  {
    hide Rank, IsPerm, Factorial;
    SpreadIsPerm(rest, last);
    RankSplit(Spread(rest, last));
  }

  lemma QuotientBelow(r: nat, f: nat, n: nat)
    requires f > 0 && r < f * n
    ensures r / f < n
  {
  }

  lemma {:induction false} UnrankRank(t: seq<nat>)
    requires IsPerm(t)
    ensures Unrank(|t|, Rank(t)) == t
    decreases |t|
  {
    if t != [] {
      var n := |t| - 1;
      CompressIsPerm(t);
      RankSplit(t);
      RankBelow(Compress(t));
      UnrankRank(Compress(t));
      Remainder(Rank(t), Factorial(n), t[n], Rank(Compress(t)));
    }
  }

  /** Different boards have different ranks. */
  lemma RankInjective(s: seq<nat>, t: seq<nat>)
    requires IsPerm(s) && IsPerm(t) && |s| == |t|
    ensures Rank(s) == Rank(t) <==> s == t
  {
    UnrankRank(s);
    UnrankRank(t);
  }

  /** The rank of every board fits into 64 bits exactly up to twenty tiles. */
  lemma RankFits(n: nat)
    ensures Factorial(n) <= 0x1_0000_0000_0000_0000 <==> n <= 20
  {
    assert Factorial(10) == 3628800;
    assert Factorial(15) == 1307674368000;
    assert Factorial(20) == 2432902008176640000;
    assert Factorial(21) == 51090942171709440000;
    if n <= 20 { FactorialGrows(n, 20); } else { FactorialGrows(21, n); }
  }

  lemma {:induction false} FactorialGrows(a: nat, b: nat)
    requires a <= b
    ensures Factorial(a) <= Factorial(b)
    decreases b
  {
    if a < b {
      FactorialGrows(a, b - 1);
      assert Factorial(b) >= Factorial(b - 1);
    }
  }

  // ----- the tables and the loop -----

  /** The number of ones of every word up to 2 to the power `tiles` - 1. */
  method OnesTable(tiles: nat) returns (ones: seq<nat>)
    requires tiles > 0
    ensures |ones| == Pow2(tiles - 1) + 1 && forall v: nat :: v < |ones| ==> ones[v] == Ones(v)
  {
    hide Pow2, Ones;
    var pow := Pow2(tiles - 1);
    ones := [0];
    OnesHalf(0);
    for i := 1 to pow + 1
      invariant |ones| == i && forall v: nat :: v < i ==> ones[v] == Ones(v)
    {
      var bits: nat, j: nat := 0, i;
      while j > 0
        invariant bits + Ones(j) == Ones(i)
      {
        OnesHalf(j);
        bits := bits + j % 2;
        j := j / 2;
      }
      OnesHalf(0);
      ones := ones + [bits];
    }
  }

  method FactorialTable(tiles: nat) returns (fact: seq<nat>)
    ensures |fact| == tiles + 1 && forall i: nat :: i <= tiles ==> fact[i] == Factorial(i)
  {
    fact := [1];
    for i := 1 to tiles + 1
      invariant |fact| == i && forall j: nat :: j < i ==> fact[j] == Factorial(j)
    {
      fact := fact + [fact[i - 1] * i];
    }
  }

  /** The hash of a board: the loop runs from the last position to the first. */
  method ComputeHash(tiles: seq<nat>, ones: seq<nat>, fact: seq<nat>) returns (hash: nat)
    requires IsPerm(tiles) && tiles != []
    requires |ones| == Pow2(|tiles| - 1) + 1 && forall v: nat :: v < |ones| ==> ones[v] == Ones(v)
    requires |fact| == |tiles| + 1 && forall i: nat :: i <= |tiles| ==> fact[i] == Factorial(i)
    ensures hash == Rank(tiles)
  {
    hide Pow2, Factorial, Ones, IsPerm, Bit, Digit, Represents;
    var bits: nat := 0;
    hash := 0;
    NoBits();
    assert tiles[|tiles|..] == [];
    for i := |tiles| downto 0
      invariant Represents(bits, tiles[i..])
      invariant hash + RankOf(tiles, i) == Rank(tiles)
    {
      var k := tiles[i];
      var v := bits % Pow2(k);
      HashStep(tiles, i, bits);
      var d := k - ones[v];
      hash := hash + d * fact[i];
      bits := SetBit(bits, k);
    }
  }

  lemma {:induction false} ZeroBits(j: nat)
    ensures Bit(0, j) == 0
  {
    if j > 0 { ZeroBits(j - 1); }
  }

  lemma NoBits()
    ensures Represents(0, [])
  {
    forall j: nat ensures Bit(0, j) == 0 { ZeroBits(j); }
  }

  /** One round: the mask selects the smaller tiles seen so far, which are those behind. */
  lemma HashStep(t: seq<nat>, i: nat, bits: nat)
    requires IsPerm(t) && i < |t| && Represents(bits, t[i + 1..])
    ensures var v := bits % Pow2(t[i]);
            v <= Pow2(|t| - 1) && Ones(v) <= t[i] && t[i] - Ones(v) == Digit(t, i)
    ensures Represents(SetBit(bits, t[i]), t[i..])
  {
    MaskedOnes(t, i, bits);
    SetNext(t, i, bits);
  }

  lemma MaskedOnes(t: seq<nat>, i: nat, bits: nat)
    requires IsPerm(t) && i < |t| && Represents(bits, t[i + 1..])
    ensures var v := bits % Pow2(t[i]);
            v <= Pow2(|t| - 1) && Ones(v) <= t[i] && t[i] - Ones(v) == Digit(t, i)
  {
    var k, behind := t[i], t[i + 1..];
    forall a: nat, b: nat | a < b < |behind| ensures behind[a] != behind[b] { assert t[a + i + 1] != t[b + i + 1]; }
    OnesOfRemainder(bits, k);
    OnesCount(bits, behind, k);
    DigitFromBehind(t, i);
    PowGrows(k, |t| - 1);
  }

  lemma SetNext(t: seq<nat>, i: nat, bits: nat)
    requires i < |t| && Represents(bits, t[i + 1..])
    ensures Represents(SetBit(bits, t[i]), t[i..])
  {
    hide Bit, SetBit;
    var k := t[i];
    assert t[i..] == [k] + t[i + 1..];
    forall j: nat ensures Bit(SetBit(bits, k), j) == if j in t[i..] then 1 else 0 {
      BitAfterSet(bits, k, j);
    }
  }

  lemma {:induction false} PowGrows(a: nat, b: nat)
    requires a <= b
    ensures Pow2(a) <= Pow2(b)
    decreases b
  {
    if a < b { PowGrows(a, b - 1); }
  }
}
