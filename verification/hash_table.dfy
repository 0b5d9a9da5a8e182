/** The chained hash table behind the closed lists: sorted chains in a growing array. */
module HashTables {
  datatype Option<T> = None | Some(value: T)

  // ----- one chain -----

  /** Hash values strictly increase along a chain. */
  ghost predicate Sorted<T>(hash: T -> nat, c: seq<T>) {
    forall i: nat, j: nat :: i < j < |c| ==> hash(c[i]) < hash(c[j])
  }

  /** The finite map that a chain stands for. */
  ghost function MapOf<T>(hash: T -> nat, c: seq<T>): map<nat, T> {
    if c == [] then map[] else MapOf(hash, c[1..])[hash(c[0]) := c[0]]
  }

  /** The search stops early, at the first greater hash value. */
  function LookupIn<T>(hash: T -> nat, c: seq<T>, h: nat): Option<T> {
    if c == [] then None
    else if hash(c[0]) == h then Some(c[0])
    else if hash(c[0]) > h then None
    else LookupIn(hash, c[1..], h)
  }

  /** Insertion in order; an element with the same hash value is replaced. */
  function AddTo<T>(hash: T -> nat, c: seq<T>, x: T): seq<T> {
    if c == [] then [x]
    else if hash(x) < hash(c[0]) then [x] + c
    else if hash(x) == hash(c[0]) then [x] + c[1..]
    else [c[0]] + AddTo(hash, c[1..], x)
  }

  lemma {:induction false} KeysAre<T>(hash: T -> nat, c: seq<T>, h: nat)
    requires Sorted(hash, c)
    ensures h in MapOf(hash, c) <==> exists i: nat :: i < |c| && hash(c[i]) == h
    ensures forall i: nat :: i < |c| && hash(c[i]) == h ==> MapOf(hash, c)[h] == c[i]
  {
    if c != [] {
      KeysAre(hash, c[1..], h);
      if hash(c[0]) != h && h in MapOf(hash, c[1..]) {
        var i: nat :| i < |c[1..]| && hash(c[1..][i]) == h;
        assert hash(c[i + 1]) == h;
      }
      forall i: nat | i < |c| && hash(c[i]) == h
        ensures h in MapOf(hash, c) && MapOf(hash, c)[h] == c[i]
      {
        if i > 0 {
          assert c[1..][i - 1] == c[i];
          assert hash(c[0]) < hash(c[i]);
        }
      }
    }
  }

  /** Looking in a sorted chain finds exactly what the chain holds. */
  lemma {:induction false} LookupExact<T>(hash: T -> nat, c: seq<T>, h: nat)
    requires Sorted(hash, c)
    ensures LookupIn(hash, c, h) == if h in MapOf(hash, c) then Some(MapOf(hash, c)[h]) else None
  {
    if c != [] {
      if hash(c[0]) > h {
        KeysAre(hash, c, h);
      } else {
        LookupExact(hash, c[1..], h);
      }
    }
  }

  /** Adding keeps the order and sets exactly the key of the new element. */
  lemma {:induction false} AddSets<T>(hash: T -> nat, c: seq<T>, x: T)
    requires Sorted(hash, c)
    ensures Sorted(hash, AddTo(hash, c, x))
    ensures MapOf(hash, AddTo(hash, c, x)) == MapOf(hash, c)[hash(x) := x]
    ensures forall y :: y in AddTo(hash, c, x) ==> y == x || y in c
  {
    hide Sorted;
    if c == [] {
      PushFront(hash, x, []);
      assert [x] + [] == [x];
    } else {
      Split(hash, c);
      if hash(x) < hash(c[0]) {
        PushFront(hash, x, c);
      } else if hash(x) == hash(c[0]) {
        PushFront(hash, x, c[1..]);
      } else {
        AddSets(hash, c[1..], x);
        PushFront(hash, c[0], AddTo(hash, c[1..], x));
      }
    }
  }

  lemma PushFront<T>(hash: T -> nat, x: T, c: seq<T>)
    requires Sorted(hash, c) && forall y :: y in c ==> hash(x) < hash(y)
    ensures Sorted(hash, [x] + c) && MapOf(hash, [x] + c) == MapOf(hash, c)[hash(x) := x]
  {
    assert ([x] + c)[1..] == c;
  }

  lemma Split<T>(hash: T -> nat, c: seq<T>)
    requires Sorted(hash, c) && c != []
    ensures Sorted(hash, c[1..]) && forall y :: y in c[1..] ==> hash(c[0]) < hash(y)
    ensures forall y :: y in c <==> y == c[0] || y in c[1..]
  {
    assert c == [c[0]] + c[1..];
  }

  function Unlinked<T>(c: seq<T>, k: nat): seq<T>
    requires k < |c|
  {
    c[..k] + c[k + 1..]
  }

  lemma UnlinkedTail<T>(c: seq<T>, k: nat)
    requires k < |c|
    ensures k == 0 ==> Unlinked(c, k) == c[1..]
    ensures k > 0 ==> Unlinked(c, k) == [c[0]] + Unlinked(c[1..], k - 1) && c[1..][k - 1] == c[k] && c[k] in c[1..]
    ensures forall y :: y in Unlinked(c, k) ==> y in c
  {
    if k > 0 { assert c[1..][k - 1] == c[k]; }
  }

  /** Unlinking one element of a chain removes exactly its key. */
  lemma {:induction false} RemoveAt<T>(hash: T -> nat, c: seq<T>, k: nat)
    requires Sorted(hash, c) && k < |c|
    ensures Sorted(hash, Unlinked(c, k))
    ensures MapOf(hash, Unlinked(c, k)) == MapOf(hash, c) - {hash(c[k])}
  {
    UnlinkedTail(c, k);
    Split(hash, c);
    TailKeys(hash, c);
    var d := c[1..];
    assert MapOf(hash, c) == MapOf(hash, d)[hash(c[0]) := c[0]];
    hide Sorted, MapOf, Unlinked;
    if k > 0 {
      UnlinkedTail(d, k - 1);
      RemoveAt(hash, d, k - 1);
      PushFront(hash, c[0], Unlinked(d, k - 1));
      Without(hash, c[0], MapOf(hash, d), MapOf(hash, Unlinked(d, k - 1)), hash(c[k]));
    } else {
      assert MapOf(hash, d)[hash(c[0]) := c[0]] - {hash(c[0])} == MapOf(hash, d);
    }
  }

  lemma Without<T>(hash: T -> nat, x: T, m: map<nat, T>, m': map<nat, T>, key: nat)
    requires m' == m - {key} && hash(x) != key
    ensures m'[hash(x) := x] == m[hash(x) := x] - {key}
  {
  }

  lemma TailKeys<T>(hash: T -> nat, c: seq<T>)
    requires Sorted(hash, c) && c != []
    ensures Sorted(hash, c[1..]) && hash(c[0]) !in MapOf(hash, c[1..])
    ensures forall k: nat :: 0 < k < |c| ==> hash(c[k]) != hash(c[0])
  {
    hide MapOf;
    KeysAre(hash, c[1..], hash(c[0]));
  }

  /** A longer prefix of a chain stands for one more entry. */
  lemma {:induction false} Longer<T>(hash: T -> nat, c: seq<T>, x: T)
    requires Sorted(hash, c + [x])
    ensures MapOf(hash, c + [x]) == MapOf(hash, c)[hash(x) := x]
  {
    if c == [] {
      assert [x][1..] == [] && [] + [x] == [x];
    } else {
      forall i: nat, j: nat | i < j < |c[1..] + [x]|
        ensures hash((c[1..] + [x])[i]) < hash((c[1..] + [x])[j])
      {
        assert (c[1..] + [x])[i] == (c + [x])[i + 1] && (c[1..] + [x])[j] == (c + [x])[j + 1];
      }
      Longer(hash, c[1..], x);
      assert (c + [x])[1..] == c[1..] + [x];
      assert hash((c + [x])[0]) < hash((c + [x])[|c|]);
    }
  }

  // ----- the array of chains -----

  /** Chain `i` is sorted and holds only elements that belong there. */
  ghost predicate ChainOk<T>(hash: T -> nat, t: seq<seq<T>>, i: nat)
    requires i < |t|
  {
    Sorted(hash, t[i]) && forall k: nat :: k < |t[i]| ==> hash(t[i][k]) % |t| == i
  }

  ghost predicate ChainsOk<T>(hash: T -> nat, t: seq<seq<T>>) {
    forall i: nat :: i < |t| ==> ChainOk(hash, t, i)
  }

  /** The map and the array agree on one hash value. */
  ghost predicate Agrees<T(!new)>(hash: T -> nat, t: seq<seq<T>>, m: map<nat, T>, h: nat)
    requires |t| > 0
  {
    var c := MapOf(hash, t[h % |t|]);
    (h in m <==> h in c) && (h in m ==> m[h] == c[h])
  }

  ghost predicate Represents<T(!new)>(hash: T -> nat, t: seq<seq<T>>, m: map<nat, T>) {
    |t| > 0 && forall h: nat :: Agrees(hash, t, m, h)
  }

  lemma EmptyTable<T(!new)>(hash: T -> nat, t: seq<seq<T>>)
    requires |t| > 0 && forall i: nat :: i < |t| ==> t[i] == []
    ensures ChainsOk(hash, t) && Represents(hash, t, map[])
  {
    forall h: nat ensures Agrees(hash, t, map[], h) {
      assert t[h % |t|] == [];
    }
  }

  lemma AddToTable<T(!new)>(hash: T -> nat, t: seq<seq<T>>, m: map<nat, T>, x: T, t': seq<seq<T>>)
    requires ChainsOk(hash, t) && Represents(hash, t, m)
    requires t' == t[hash(x) % |t| := AddTo(hash, t[hash(x) % |t|], x)]
    ensures ChainsOk(hash, t') && Represents(hash, t', m[hash(x) := x])
  {
    hide AddTo, MapOf, Sorted;
    var i := hash(x) % |t|;
    assert ChainOk(hash, t, i);
    AddSets(hash, t[i], x);
    forall k: nat | k < |t'[i]| ensures hash(t'[i][k]) % |t| == i {
      assert t'[i][k] in t'[i];
    }
    forall j: nat | j < |t'| ensures ChainOk(hash, t', j) {
      assert ChainOk(hash, t, j);
    }
    var m' := m[hash(x) := x];
    forall h: nat ensures Agrees(hash, t', m', h) {
      assert Agrees(hash, t, m, h);
    }
  }

  lemma RemoveFromTable<T(!new)>(hash: T -> nat, t: seq<seq<T>>, m: map<nat, T>, i: nat, k: nat, t': seq<seq<T>>)
    requires ChainsOk(hash, t) && Represents(hash, t, m) && i < |t| && k < |t[i]|
    requires t' == t[i := Unlinked(t[i], k)]
    ensures hash(t[i][k]) in m
    ensures ChainsOk(hash, t') && Represents(hash, t', m - {hash(t[i][k])})
  {
    hide MapOf, Sorted;
    var key := hash(t[i][k]);
    assert ChainOk(hash, t, i);
    RemoveAt(hash, t[i], k);
    UnlinkedTail(t[i], k);
    KeysAre(hash, t[i], key);
    assert Agrees(hash, t, m, key);
    forall j: nat | j < |t'| ensures ChainOk(hash, t', j) {
      assert ChainOk(hash, t, j);
    }
    forall h: nat ensures Agrees(hash, t', m - {key}, h) {
      assert Agrees(hash, t, m, h);
    }
  }

  lemma LookupInTable<T(!new)>(hash: T -> nat, t: seq<seq<T>>, m: map<nat, T>, h: nat)
    requires ChainsOk(hash, t) && Represents(hash, t, m)
    ensures LookupIn(hash, t[h % |t|], h) == if h in m then Some(m[h]) else None
  {
    hide MapOf, LookupIn, Sorted;
    assert ChainOk(hash, t, h % |t|);
    LookupExact(hash, t[h % |t|], h);
    assert Agrees(hash, t, m, h);
  }

  // ----- growing -----

  /** The entries whose index in a table of `n` chains is below `i`. */
  ghost function Rehashed<T>(m: map<nat, T>, n: nat, i: nat): map<nat, T>
    requires n > 0
  {
    map h | h in m && h % n < i :: m[h]
  }

  /** Entries of all chains before `i` and of the chain prefix `c`. */
  ghost predicate Copied<T(!new)>(hash: T -> nat, m: map<nat, T>, n: nat, i: nat, c: seq<T>, m': map<nat, T>)
    requires n > 0
  {
    m' == Rehashed(m, n, i) + MapOf(hash, c)
  }

  lemma CopiedOne<T(!new)>(hash: T -> nat, m: map<nat, T>, n: nat, i: nat, c: seq<T>, x: T, m': map<nat, T>)
    requires n > 0 && Copied(hash, m, n, i, c, m') && Sorted(hash, c + [x])
    ensures Copied(hash, m, n, i, c + [x], m'[hash(x) := x])
  {
    Longer(hash, c, x);
  }

  lemma CopiedChain<T(!new)>(hash: T -> nat, t: seq<seq<T>>, m: map<nat, T>, i: nat, m': map<nat, T>)
    requires ChainsOk(hash, t) && Represents(hash, t, m) && i < |t|
    requires Copied(hash, m, |t|, i, t[i], m')
    ensures m' == Rehashed(m, |t|, i + 1)
  {
    hide MapOf, Sorted;
    assert ChainOk(hash, t, i);
    forall h: nat
      ensures h in m' <==> h in Rehashed(m, |t|, i + 1)
      ensures h in m' ==> h in Rehashed(m, |t|, i + 1) && m'[h] == Rehashed(m, |t|, i + 1)[h]
    {
      assert Agrees(hash, t, m, h);
      KeysAre(hash, t[i], h);
    }
  }

  lemma FewerRehashed<T>(m: map<nat, T>, n: nat, i: nat)
    requires n > 0
    ensures |Rehashed(m, n, i)| <= |m|
  {
    Fewer(Rehashed(m, n, i).Keys, m.Keys);
    assert |m| == |m.Keys| && |Rehashed(m, n, i)| == |Rehashed(m, n, i).Keys|;
  }

  lemma {:induction false} Fewer(a: set<nat>, b: set<nat>)
    requires a <= b
    ensures |a| <= |b|
  {
    assert b == a + (b - a);
  }

  lemma OneMore<T>(m: map<nat, T>, h: nat, x: T)
    ensures |m[h := x]| == |m| + if h in m then 0 else 1
  {
    assert m[h := x].Keys == m.Keys + {h};
    assert |m| == |m.Keys| && |m[h := x]| == |m[h := x].Keys|;
  }

  lemma OneLess<T>(m: map<nat, T>, h: nat)
    requires h in m
    ensures |m - {h}| == |m| - 1
  {
    assert m == (m - {h})[h := m[h]];
    OneMore(m - {h}, h, m[h]);
  }

  /** No entry is lost if every index is among those carried over, and only then. */
  lemma GrowingKeepsAll<T>(m: map<nat, T>, n: nat, i: nat)
    requires n > 0
    ensures Rehashed(m, n, i) == m <==> forall h :: h in m ==> h % n < i
  {
    if Rehashed(m, n, i) == m {
      forall h | h in m ensures h % n < i {
        assert h in Rehashed(m, n, i);
      }
    }
  }

  /** Growing loses no entry of any map exactly as long as the old size fits into
      32 bits; beyond that the key just above the truncated size is lost. */
  lemma GrowthIsSafeIff<T>(n: nat, x: T)
    requires n > 0
    ensures (forall m: map<nat, T> :: Rehashed(m, n, n % 0x1_0000_0000) == m) <==> n < 0x1_0000_0000
  {
    hide Rehashed;
    if n < 0x1_0000_0000 {
      SmallModulus(n, 0x1_0000_0000);
      forall m: map<nat, T> ensures Rehashed(m, n, n % 0x1_0000_0000) == m {
        GrowingKeepsAll(m, n, n);
      }
    } else {
      var k := n % 0x1_0000_0000;
      SmallModulus(k, n);
      GrowingKeepsAll(map[k := x], n, k);
      assert k in map[k := x];
    }
  }

  lemma SmallModulus(a: nat, n: nat)
    requires a < n
    ensures a % n == a
  {
  }

  /** The default size, grown four times, is beyond it: its next growth drops keys. */
  lemma DefaultSizeOutgrown<T>(x: T)
    ensures var n := 1000000 * 10 * 10 * 10 * 10;
            n % 0x1_0000_0000 == 1410065408 && Rehashed(map[1410065408 := x], n, n % 0x1_0000_0000) == map[]
  {
    assert 1410065408 % 10000000000 == 1410065408;
  }

  class HashTable<T(!new)> {
    const hash: T -> nat
    var table: array?<seq<T>>
    var size: nat
    var fill: nat
    ghost var contents: map<nat, T>

    ghost predicate TableOk()
      reads this, table
    {
      && size > 0
      && (table == null ==> contents == map[])
      && (table != null ==> table.Length == size && ChainsOk(hash, table[..]) && Represents(hash, table[..], contents))
    }

    /** The fill count is never below the number of entries. */
    ghost predicate Valid()
      reads this, table
    {
      TableOk() && fill >= |contents|
    }

    constructor (hash: T -> nat, size: nat)
      requires size > 0
      ensures Valid() && contents == map[] && fill == 0 && this.size == size && table == null && this.hash == hash
    {
      this.hash := hash;
      table := null;
      this.size := size;
      fill := 0;
      contents := map[];
    }

    /** The array is allocated when it is first needed. */
    method NewTable()
      requires size > 0 && (table != null ==> TableOk()) && (table == null ==> contents == map[])
      modifies this`table
      ensures TableOk() && table != null
      ensures if old(table) == null then fresh(table) else table == old(table)
    {
      if table == null {
        table := new seq<T>[size](_ => []);
        EmptyTable(hash, table[..]);
      }
    }

    method DoAdd(x: T)
      requires TableOk() && table != null
      modifies this`contents, table
      ensures TableOk() && contents == old(contents)[hash(x) := x]
    {
      var i := hash(x) % size;
      ghost var was := table[..];
      table[i] := AddTo(hash, table[i], x);
      contents := contents[hash(x) := x];
      AddToTable(hash, was, old(contents), x, table[..]);
    }

    /** The table grows tenfold.  The old size is kept in 32 bits: only chains
        with an index below that number are carried over. */
    method Resize()
      requires TableOk() && table != null
      modifies this`table, this`size, this`contents
      ensures TableOk() && fresh(table) && size == old(size) * 10
      ensures contents == Rehashed(old(contents), old(size), old(size) % 0x1_0000_0000)
    {
      var oldTable, n := table, size;
      ghost var all, chains := contents, table[..];
      var oldSize := size % 0x1_0000_0000;
      size := size * 10;
      table := null;
      contents := map[];
      NewTable();
      assert contents == Rehashed(all, n, 0);
      hide Represents, ChainsOk, Rehashed, MapOf;
      for i := 0 to oldSize
        invariant TableOk() && table != null && fresh(table) && size == n * 10
        invariant oldTable[..] == chains && ChainsOk(hash, chains) && Represents(hash, chains, all)
        invariant contents == Rehashed(all, n, i)
      {
        var b := oldTable[i];
        NothingCopied(hash, all, n, i);
        for k := 0 to |b|
          invariant TableOk() && table != null && fresh(table) && size == n * 10
          invariant oldTable[..] == chains
          invariant Copied(hash, all, n, i, b[..k], contents)
        {
          PrefixSorted(hash, chains, i, k);
          CopiedOne(hash, all, n, i, b[..k], b[k], contents);
          DoAdd(b[k]);
        }
        assert b[..|b|] == b;
        CopiedChain(hash, chains, all, i, contents);
      }
    }

    /** The key of `x` is set; the table grows first when it is a third full. */
    method Add(x: T)
      requires Valid()
      modifies this, table
      ensures Valid() && table != null && (table == old(table) || fresh(table))
      ensures fill == old(fill) + 1
      ensures var grows := old(fill) + 1 >= old(size) / 3;
              && size == (if grows then old(size) * 10 else old(size))
              && contents == (if grows then Rehashed(old(contents), old(size), old(size) % 0x1_0000_0000)
                              else old(contents))[hash(x) := x]
      ensures old(size) < 0x1_0000_0000 ==> contents == old(contents)[hash(x) := x]
    {
      NewTable();
      FewerRehashed(contents, size, size % 0x1_0000_0000);
      if fill + 1 >= size / 3 {
        Resize();
        GrowingKeepsAll(old(contents), old(size), old(size) % 0x1_0000_0000);
      }
      OneMore(contents, hash(x), x);
      DoAdd(x);
      fill := fill + 1;
    }

    /** The key of `x` is removed, and nothing else. */
    method Remove(x: T)
      requires Valid() && table != null
      modifies this`fill, this`contents, table
      ensures Valid() && contents == old(contents) - {hash(x)}
      ensures fill == old(fill) - (if hash(x) in old(contents) then 1 else 0)
    {
      var i := hash(x) % size;
      var b := table[i];
      var k := 0;
      while k < |b| && hash(b[k]) != hash(x)
        invariant k <= |b|
        invariant forall j: nat :: j < k ==> hash(b[j]) != hash(x)
      {
        k := k + 1;
      }
      KeysInTable(hash, table[..], contents, hash(x));
      if k < |b| {
        ghost var was := table[..];
        table[i] := Unlinked(b, k);
        RemoveFromTable(hash, was, contents, i, k, table[..]);
        OneLess(contents, hash(x));
        contents := contents - {hash(x)};
        fill := fill - 1;
      }
    }

    method Lookup(x: T) returns (r: Option<T>)
      requires Valid()
      ensures r == if hash(x) in contents then Some(contents[hash(x)]) else None
    {
      if table == null {
        return None;
      }
      LookupInTable(hash, table[..], contents, hash(x));
      return LookupIn(hash, table[hash(x) % size], hash(x));
    }

    /** Drop all entries. */
    method Prune()
      requires Valid()
      modifies this`table, this`fill, this`contents
      ensures Valid() && contents == map[] && (old(table) != null ==> fill == 0)
      ensures old(table) == null ==> fill == old(fill)
    {
      if table == null {
        return;
      }
      table := null;
      fill := 0;
      contents := map[];
    }

    /** Free all entries.  The fill count is left as it was. */
    method DeleteAll()
      requires Valid()
      modifies this`contents, table
      ensures Valid() && contents == map[]
    {
      if table == null {
        return;
      }
      for i := 0 to size
        invariant forall j: nat :: j < i ==> table[j] == []
      {
        table[i] := [];
      }
      contents := map[];
      EmptyTable(hash, table[..]);
    }

    method Empty() returns (r: bool)
      requires Valid()
      ensures r ==> contents == map[]
      ensures (r <==> contents == map[]) <==> (fill == 0 || contents != map[])
    {
      return fill == 0;
    }
  }

  /** A table that was filled and freed holds nothing but does not call itself empty. */
  method FreedIsNotEmpty<T(!new)>(hash: T -> nat, size: nat, x: T) returns (t: HashTable<T>, r: bool)
    requires size > 0
    ensures t.contents == map[] && !r
  {
    t := new HashTable<T>(hash, size);
    t.Add(x);
    t.DeleteAll();
    r := t.Empty();
  }

  lemma NothingCopied<T(!new)>(hash: T -> nat, m: map<nat, T>, n: nat, i: nat)
    requires n > 0
    ensures Copied(hash, m, n, i, [], Rehashed(m, n, i))
  {
  }

  lemma PrefixSorted<T>(hash: T -> nat, t: seq<seq<T>>, i: nat, k: nat)
    requires ChainsOk(hash, t) && i < |t| && k < |t[i]|
    ensures t[i][..k] + [t[i][k]] == t[i][..k + 1] && Sorted(hash, t[i][..k + 1])
  {
    assert ChainOk(hash, t, i);
  }

  lemma KeysInTable<T(!new)>(hash: T -> nat, t: seq<seq<T>>, m: map<nat, T>, h: nat)
    requires ChainsOk(hash, t) && Represents(hash, t, m)
    ensures h in m <==> exists k: nat :: k < |t[h % |t|]| && hash(t[h % |t|][k]) == h
  {
    assert ChainOk(hash, t, h % |t|);
    KeysAre(hash, t[h % |t|], h);
    assert Agrees(hash, t, m, h);
  }

  // ----- counting -----

  /** A sequence of adds. */
  ghost function AddAll<T>(hash: T -> nat, m: map<nat, T>, xs: seq<T>): map<nat, T>
    decreases |xs|
  {
    if xs == [] then m else AddAll(hash, m[hash(xs[0]) := xs[0]], xs[1..])
  }

  /** No element of `xs` has a key of `m` or the key of an element before it. */
  ghost predicate AllNew<T>(hash: T -> nat, m: map<nat, T>, xs: seq<T>)
    decreases |xs|
  {
    xs != [] ==> hash(xs[0]) !in m && AllNew(hash, m[hash(xs[0]) := xs[0]], xs[1..])
  }

  /** The fill count, one more for each add, is the number of entries exactly
      when no present key was added again. */
  lemma {:induction false} FillCounts<T>(hash: T -> nat, m: map<nat, T>, xs: seq<T>)
    ensures |AddAll(hash, m, xs)| <= |m| + |xs|
    ensures |AddAll(hash, m, xs)| == |m| + |xs| <==> AllNew(hash, m, xs)
    decreases |xs|
  {
    if xs != [] {
      var m' := m[hash(xs[0]) := xs[0]];
      FillCounts(hash, m', xs[1..]);
      OneMore(m, hash(xs[0]), xs[0]);
    }
  }
}
