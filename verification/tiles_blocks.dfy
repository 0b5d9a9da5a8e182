/** The blocks of the tile projections: their neighbours, and which moves they cover. */
module TilesBlocks {
  import opened TilesRank
  import opened TilesBoards
  import opened TilesProjections
  import opened Projections

  /** A projection onto the positions of `tiles`.  Either the blank is tile 0 of
      them and only it moves, or any of them may move. */
  datatype Tracking = Tracking(p: Puzzle, tiles: seq<nat>, blankMoves: bool,
                               proj: map<seq<nat>, nat>, unproj: seq<seq<nat>>)
  {
    ghost predicate Valid() {
      && p.Valid() && tiles != [] && Distinct(tiles)
      && (forall j: nat :: j < |tiles| ==> tiles[j] < p.Size())
      && (forall j: nat :: 0 < j < |tiles| ==> tiles[j] != 0)
      && (blankMoves ==> tiles[0] == 0)
      && Numbers(p.Size(), |tiles|, proj, unproj)
    }

    /** Where the tracked tiles are. */
    function Positions(t: seq<nat>): (u: seq<nat>)
      ensures |u| == |tiles| && forall j: nat :: j < |u| ==> u[j] == Find(t, tiles[j])
    {
      seq(|tiles|, (j: nat) requires j < |tiles| => Find(t, tiles[j]))
    }

    /** The tracked tile `j` goes to `n`; a tracked tile that is there changes places with it. */
    function Moved(u: seq<nat>, j: nat, n: nat): (v: seq<nat>)
      requires j < |u|
      ensures |v| == |u|
    {
      if n in u then u[j := n][Find(u, n) := u[j]] else u[j := n]
    }

    /** Whether a move onto a tracked tile is possible: only the blank makes such moves. */
    predicate Swaps(j: nat)
      requires tiles != []
    {
      j == 0 && (blankMoves || tiles[0] == 0)
    }

    /** The moves of the tracked tile `j` to the positions `ns`. */
    function MovesTo(u: seq<nat>, j: nat, ns: seq<nat>): seq<seq<nat>>
      requires j < |u| && tiles != []
    {
      if ns == [] then []
      else (if ns[0] !in u || Swaps(j) then [Moved(u, j, ns[0])] else []) + MovesTo(u, j, ns[1..])
    }

    /** The tracked tiles from `j` on. */
    function MovesFrom(u: seq<nat>, j: nat): seq<seq<nat>>
      requires j <= |u| && tiles != [] && p.width > 0
      decreases |u| - j
    {
      if j == |u| then [] else MovesTo(u, j, p.Neighbours(u[j])) + MovesFrom(u, j + 1)
    }

    function Targets(u: seq<nat>): seq<seq<nat>>
      requires u != [] && tiles != [] && p.width > 0
    {
      if blankMoves then MovesTo(u, 0, p.Neighbours(u[0])) else MovesFrom(u, 0)
    }

    /** One tracked tile takes one step. */
    ghost predicate StepBy(u: seq<nat>, v: seq<nat>, j: nat, n: nat)
      requires tiles != [] && p.width > 0
    {
      && j < |u| && (blankMoves ==> j == 0) && n in p.Neighbours(u[j])
      && (n !in u || Swaps(j)) && v == Moved(u, j, n)
    }

    ghost predicate Step(u: seq<nat>, v: seq<nat>)
      requires tiles != [] && p.width > 0
    {
      exists j: nat, n: nat :: StepBy(u, v, j, n)
    }

    /** The neighbours of the block `b`. */
    ghost function List(b: nat): seq<nat>
      requires Valid()
    {
      if b < |unproj| then BlockTuple(this, b); Ids(proj, Targets(unproj[b])) else []
    }

    ghost function Blocks(): Neighbourhood
      requires Valid()
    {
      Neighbourhood(|unproj|, (b: nat) => List(b))
    }

    /** The block of a board. */
    ghost function Project(t: seq<nat>): nat
      requires Valid() && p.IsBoard(t)
    {
      PositionsAreTuple(this, t);
      NumberingIsBijective(p.Size(), |tiles|, proj, unproj);
      proj[Positions(t)]
    }
  }

  /** The numbers of the tuples; those without a number do not occur. */
  function Ids(proj: map<seq<nat>, nat>, vs: seq<seq<nat>>): seq<nat> {
    if vs == [] then [] else (if vs[0] in proj then [proj[vs[0]]] else []) + Ids(proj, vs[1..])
  }

  lemma {:induction false} IdsAre(proj: map<seq<nat>, nat>, vs: seq<seq<nat>>, b: nat)
    ensures b in Ids(proj, vs) <==> exists v :: v in vs && v in proj && proj[v] == b
  {
    if vs != [] {
      IdsAre(proj, vs[1..], b);
      assert forall v :: v in vs <==> v == vs[0] || v in vs[1..];
    }
  }

  // ----- the listed targets are the steps -----

  lemma {:induction false} MovesToAre(k: Tracking, u: seq<nat>, j: nat, ns: seq<nat>, v: seq<nat>)
    requires k.tiles != [] && j < |u|
    ensures v in k.MovesTo(u, j, ns) <==> exists n :: n in ns && (n !in u || k.Swaps(j)) && v == k.Moved(u, j, n)
  {
    hide Tracking.Moved, Tracking.Swaps;
    if ns != [] {
      MovesToAre(k, u, j, ns[1..], v);
      assert forall n :: n in ns <==> n == ns[0] || n in ns[1..];
    }
  }

  lemma {:induction false} MovesFromAre(k: Tracking, u: seq<nat>, i: nat, v: seq<nat>)
    requires k.tiles != [] && k.p.width > 0 && i <= |u| && !k.blankMoves
    ensures v in k.MovesFrom(u, i) <==> exists j: nat, n: nat :: i <= j && k.StepBy(u, v, j, n)
    decreases |u| - i
  {
    hide Tracking.Moved, Tracking.Swaps, Puzzle.Neighbours, Tracking.MovesTo;
    if i < |u| {
      MovesToAre(k, u, i, k.p.Neighbours(u[i]), v);
      MovesFromAre(k, u, i + 1, v);
      if v in k.MovesTo(u, i, k.p.Neighbours(u[i])) {
        var n :| n in k.p.Neighbours(u[i]) && (n !in u || k.Swaps(i)) && v == k.Moved(u, i, n);
        assert k.StepBy(u, v, i, n);
      }
    }
  }

  lemma TargetsAreSteps(k: Tracking, u: seq<nat>, v: seq<nat>)
    requires k.tiles != [] && k.p.width > 0 && u != []
    ensures v in k.Targets(u) <==> k.Step(u, v)
  {
    hide Tracking.Moved, Tracking.Swaps, Puzzle.Neighbours, Tracking.MovesTo, Tracking.MovesFrom;
    if k.blankMoves {
      MovesToAre(k, u, 0, k.p.Neighbours(u[0]), v);
      if v in k.MovesTo(u, 0, k.p.Neighbours(u[0])) {
        var n :| n in k.p.Neighbours(u[0]) && (n !in u || k.Swaps(0)) && v == k.Moved(u, 0, n);
        assert k.StepBy(u, v, 0, n);
      }
    } else {
      MovesFromAre(k, u, 0, v);
    }
  }

  // ----- steps -----

  lemma FindIn(u: seq<nat>, i: nat)
    requires Distinct(u) && i < |u|
    ensures Find(u, u[i]) == i && u[i] in u
  {
    var f := Find(u, u[i]);
    if f != i && f < |u| { DistinctAt(u, f, i); }
  }

  /** What a step does, position by position. */
  lemma MovedAt(k: Tracking, u: seq<nat>, j: nat, n: nat, i: nat)
    requires Distinct(u) && j < |u| && i < |u|
    ensures k.Moved(u, j, n)[i] == if i == j then (if n == u[j] then u[j] else n) else if u[i] == n then u[j] else u[i]
  {
    FindIn(u, i);
    FindIn(u, j);
    if i != j { DistinctAt(u, i, j); }
  }

  lemma MovedIsTuple(k: Tracking, size: nat, u: seq<nat>, j: nat, n: nat)
    requires IsTuple(size, |u|, u) && j < |u| && n < size && n != u[j]
    ensures IsTuple(size, |u|, k.Moved(u, j, n)) && k.Moved(u, j, n) != u
  {
    hide Tracking.Moved;
    var v := k.Moved(u, j, n);
    MovedAt(k, u, j, n, j);
    forall i: nat | i < |v| ensures v[i] < size { MovedAt(k, u, j, n, i); }
    forall a: nat, b: nat | a < b < |v| ensures v[a] != v[b] {
      MovedAt(k, u, j, n, a);
      MovedAt(k, u, j, n, b);
      DistinctAt(u, a, b);
      if a != j { DistinctAt(u, a, j); }
      if b != j { DistinctAt(u, b, j); }
    }
  }

  /** The tile goes back. */
  lemma MovedBack(k: Tracking, size: nat, u: seq<nat>, j: nat, n: nat)
    requires IsTuple(size, |u|, u) && j < |u| && n < size && n != u[j]
    ensures var v := k.Moved(u, j, n); v[j] == n && k.Moved(v, j, u[j]) == u && (n !in u ==> u[j] !in v)
  {
    MovedIsTuple(k, size, u, j, n);
    hide Tracking.Moved;
    var v := k.Moved(u, j, n);
    MovedAt(k, u, j, n, j);
    forall i: nat | i < |u|
      ensures k.Moved(v, j, u[j])[i] == u[i]
      ensures n !in u ==> v[i] != u[j]
    {
      MovedAt(k, u, j, n, i);
      MovedAt(k, v, j, u[j], i);
      if i != j { DistinctAt(u, i, j); }
    }
    assert k.Moved(v, j, u[j]) == u;
  }

  lemma StepFacts(k: Tracking, u: seq<nat>, v: seq<nat>)
    requires k.Valid() && IsTuple(k.p.Size(), |k.tiles|, u) && k.Step(u, v)
    ensures IsTuple(k.p.Size(), |k.tiles|, v) && u != v && k.Step(v, u)
  {
    hide Tracking.Moved, Puzzle.Neighbours, Puzzle.Adjacent, Puzzle.Size;
    var j: nat, n: nat :| k.StepBy(u, v, j, n);
    NextTo(k.p, u[j], n);
    MovedIsTuple(k, k.p.Size(), u, j, n);
    MovedBack(k, k.p.Size(), u, j, n);
    assert k.StepBy(v, u, j, u[j]);
  }

  lemma NextTo(p: Puzzle, a: nat, n: nat)
    requires p.width > 0 && a < p.Size() && n in p.Neighbours(a)
    ensures n < p.Size() && n != a && a in p.Neighbours(n) && p.Adjacent(a, n)
  {
    hide Puzzle.Neighbours, Puzzle.Size;
    NeighboursAreAdjacent(p, a, n);
    AdjacentSymmetric(p, a, n);
    TilesBoards.NotItself(p, a, n);
    NeighboursAreAdjacent(p, n, a);
  }

  // ----- the blocks -----

  lemma BlockTuple(k: Tracking, b: nat)
    requires k.Valid() && b < |k.unproj|
    ensures IsTuple(k.p.Size(), |k.tiles|, k.unproj[b]) && k.unproj[b] != [] && k.unproj[b] in k.proj
    ensures k.proj[k.unproj[b]] == b
  {
    NumberingIsBijective(k.p.Size(), |k.tiles|, k.proj, k.unproj);
  }

  /** A block's neighbours are the blocks that are one step away. */
  lemma NeighbourIffStep(k: Tracking, a: nat, b: nat)
    requires k.Valid() && a < |k.unproj|
    ensures b in k.List(a) <==> b < |k.unproj| && k.Step(k.unproj[a], k.unproj[b])
  {
    BlockTuple(k, a);
    NumberingIsBijective(k.p.Size(), |k.tiles|, k.proj, k.unproj);
    hide Tracking.Targets, Tracking.Step, Ids, IsTuple, Numbers;
    var u := k.unproj[a];
    IdsAre(k.proj, k.Targets(u), b);
    if b in k.List(a) {
      var v :| v in k.Targets(u) && v in k.proj && k.proj[v] == b;
      TargetsAreSteps(k, u, v);
    }
    if b < |k.unproj| && k.Step(u, k.unproj[b]) {
      TargetsAreSteps(k, u, k.unproj[b]);
    }
  }

  /** No target is without a number: the loop over `Ids` drops nothing. */
  lemma TargetsHaveNumbers(k: Tracking, a: nat, v: seq<nat>)
    requires k.Valid() && a < |k.unproj| && v in (BlockTuple(k, a); k.Targets(k.unproj[a]))
    ensures v in k.proj
  {
    BlockTuple(k, a);
    TargetsAreSteps(k, k.unproj[a], v);
    StepFacts(k, k.unproj[a], v);
    NumberingIsBijective(k.p.Size(), |k.tiles|, k.proj, k.unproj);
  }

  /** The neighbours exist, and the relation is symmetric. */
  lemma TilesServe(k: Tracking)
    requires k.Valid()
    ensures k.Blocks().InRange() && k.Blocks().Symmetric()
  {
    hide Tracking.Valid, Tracking.List, Tracking.Step;
    forall b: nat, x: nat | b < |k.unproj| && x in k.Blocks().list(b) ensures x < |k.unproj| {
      NeighbourIffStep(k, b, x);
    }
    forall a: nat, b: nat | a < |k.unproj| && b < |k.unproj| && b in k.Blocks().list(a)
      ensures a in k.Blocks().list(b)
    {
      NeighbourIffStep(k, a, b);
      NeighbourIffStep(k, b, a);
      BlockTuple(k, a);
      StepReverses(k, k.unproj[a], k.unproj[b]);
    }
  }

  lemma StepReverses(k: Tracking, u: seq<nat>, v: seq<nat>)
    requires k.Valid() && IsTuple(k.p.Size(), |k.tiles|, u)
    ensures k.tiles != [] && k.p.width > 0
    ensures k.Step(u, v) ==> k.Step(v, u)
  {
    if k.Step(u, v) { StepFacts(k, u, v); }
  }

  // ----- boards -----

  lemma PositionsAreTuple(k: Tracking, t: seq<nat>)
    requires k.Valid() && k.p.IsBoard(t)
    ensures IsTuple(k.p.Size(), |k.tiles|, k.Positions(t))
  {
    var u := k.Positions(t);
    forall j: nat | j < |u| ensures u[j] < |t| && t[u[j]] == k.tiles[j] {
      PermCovers(t, k.tiles[j]);
    }
    forall a: nat, b: nat | a < b < |u| ensures u[a] != u[b] {
      DistinctAt(k.tiles, a, b);
    }
  }

  /** Where a tile is after a move. */
  lemma FindAfter(p: Puzzle, t: seq<nat>, o: nat, n: nat, tile: nat)
    requires p.IsBoard(t) && o < |t| && n < |t| && t[o] == 0 && n != o && tile < |t|
    ensures Find(Child(t, o, n), tile) == if tile == 0 then n else if tile == t[n] then o else Find(t, tile)
  {
    var c := Child(t, o, n);
    ChildIsBoard(p, t, o, n);
    PermCovers(t, tile);
    var i := Find(t, tile);
    var i' := if tile == 0 then n else if tile == t[n] then o else i;
    assert Find(t, t[n]) == n by { FindIn(t, n); }
    assert Find(t, t[o]) == o by { FindIn(t, o); }
    assert c[i'] == tile;
    FindIn(c, i');
  }

  /** Every move of the puzzle stays in its block or goes to a neighbour. */
  lemma TilesSound(k: Tracking, t: seq<nat>, n: nat)
    requires k.Valid() && k.p.IsBoard(t)
    requires n in (SizePositive(k.p); k.p.Neighbours(Find(t, 0)))
    ensures 0 in t && n < |t| && k.p.IsBoard(Child(t, Find(t, 0), n))
    ensures k.Blocks().Covers(k.Project(t), k.Project(Child(t, Find(t, 0), n)))
  {
    SizePositive(k.p);
    PermCovers(t, 0);
    var o := Find(t, 0);
    NextTo(k.p, o, n);
    ChildIsBoard(k.p, t, o, n);
    var c := Child(t, o, n);
    var u, v := k.Positions(t), k.Positions(c);
    PositionsAreTuple(k, t);
    PositionsAreTuple(k, c);
    MoveIsStep(k, t, o, n);
    NumberingIsBijective(k.p.Size(), |k.tiles|, k.proj, k.unproj);
    hide Tracking.Step, Tracking.List, Child, IsTuple, Tracking.Positions, Numbers;
    if u != v { NeighbourIffStep(k, k.proj[u], k.proj[v]); }
  }

  lemma MoveIsStep(k: Tracking, t: seq<nat>, o: nat, n: nat)
    requires k.Valid() && k.p.IsBoard(t) && o < |t| && n < |t| && t[o] == 0 && n != o
    requires n in k.p.Neighbours(o) && o in k.p.Neighbours(n)
    ensures var u, v := k.Positions(t), k.Positions(Child(t, o, n)); u == v || k.Step(u, v)
  {
    var u, v := k.Positions(t), k.Positions(Child(t, o, n));
    PositionsAreTuple(k, t);
    FindIn(t, o);
    FindIn(t, n);
    if k.tiles[0] == 0 {
      BlankMoved(k, t, o, n);
      assert k.StepBy(u, v, 0, n);
    } else if t[n] in k.tiles {
      var j: nat :| j < |k.tiles| && k.tiles[j] == t[n];
      TileMoved(k, t, o, n, j);
      assert k.StepBy(u, v, j, o);
    } else {
      NothingMoved(k, t, o, n);
    }
  }

  lemma BlankMoved(k: Tracking, t: seq<nat>, o: nat, n: nat)
    requires k.Valid() && k.p.IsBoard(t) && o < |t| && n < |t| && t[o] == 0 && n != o && k.tiles[0] == 0
    ensures k.Positions(t)[0] == o && k.Positions(Child(t, o, n)) == k.Moved(k.Positions(t), 0, n)
  {
    hide Tracking.Moved, Child, Distinct;
    var u, v := k.Positions(t), k.Positions(Child(t, o, n));
    PositionsAreTuple(k, t);
    TileAt(t, 0, o);
    forall j: nat | j < |u| ensures v[j] == k.Moved(u, 0, n)[j] {
      FindAfter(k.p, t, o, n, k.tiles[j]);
      MovedAt(k, u, 0, n, j);
      PermCovers(t, k.tiles[j]);
      TileAt(t, k.tiles[j], n);
    }
  }

  lemma TileMoved(k: Tracking, t: seq<nat>, o: nat, n: nat, j: nat)
    requires k.Valid() && k.p.IsBoard(t) && o < |t| && n < |t| && t[o] == 0 && n != o && k.tiles[0] != 0
    requires j < |k.tiles| && k.tiles[j] == t[n]
    ensures var u := k.Positions(t); u[j] == n && o !in u && k.Positions(Child(t, o, n)) == k.Moved(u, j, o)
  {
    hide Tracking.Moved, Child, Distinct;
    var u, v := k.Positions(t), k.Positions(Child(t, o, n));
    PositionsAreTuple(k, t);
    TileAt(t, t[n], n);
    forall i: nat | i < |u| ensures v[i] == k.Moved(u, j, o)[i] && u[i] != o {
      FindAfter(k.p, t, o, n, k.tiles[i]);
      MovedAt(k, u, j, o, i);
      PermCovers(t, k.tiles[i]);
      TileAt(t, k.tiles[i], o);
      if i != j { DistinctAt(k.tiles, i, j); }
    }
  }

  lemma NothingMoved(k: Tracking, t: seq<nat>, o: nat, n: nat)
    requires k.Valid() && k.p.IsBoard(t) && o < |t| && n < |t| && t[o] == 0 && n != o && k.tiles[0] != 0
    requires t[n] !in k.tiles
    ensures k.Positions(t) == k.Positions(Child(t, o, n))
  {
    hide Child, Distinct;
    var u, v := k.Positions(t), k.Positions(Child(t, o, n));
    forall i: nat | i < |u| ensures v[i] == u[i] {
      FindAfter(k.p, t, o, n, k.tiles[i]);
      assert k.tiles[i] in k.tiles;
    }
  }

  /** A tile is found at a position exactly if it is there. */
  lemma TileAt(t: seq<nat>, tile: nat, i: nat)
    requires Distinct(t) && i < |t|
    ensures Find(t, tile) == i <==> t[i] == tile
  {
    FindIn(t, i);
  }

  // ----- which blocks have neighbours -----

  /** If the blank is tracked, every block has one. */
  lemma BlankBlocksInterfere(k: Tracking, b: nat)
    requires k.Valid() && b < |k.unproj| && k.tiles[0] == 0 && k.p.Size() >= 2
    ensures k.Blocks().HasNeighbour(b)
  {
    BlockTuple(k, b);
    var u := k.unproj[b];
    var n := SomeNeighbour(k.p, u[0]);
    var v := k.Moved(u, 0, n);
    assert k.StepBy(u, v, 0, n);
    StepGivesNeighbour(k, b, v);
  }

  lemma StepGivesNeighbour(k: Tracking, b: nat, v: seq<nat>)
    requires k.Valid() && b < |k.unproj| && k.Step(k.unproj[b], v)
    ensures k.Blocks().HasNeighbour(b)
  {
    BlockTuple(k, b);
    StepFacts(k, k.unproj[b], v);
    NumberingIsBijective(k.p.Size(), |k.tiles|, k.proj, k.unproj);
    NeighbourIffStep(k, b, k.proj[v]);
    assert k.proj[v] in k.Blocks().list(b);
  }

  lemma SomeNeighbour(p: Puzzle, a: nat) returns (n: nat)
    requires p.width > 0 && p.height > 0 && a < p.Size() && p.Size() >= 2
    ensures n in p.Neighbours(a)
  {
    RowBelow(p.width, p.height, a);
    Cell(p.width, a);
    if p.width >= 2 {
      n := if a % p.width > 0 then a - 1 else a + 1;
    } else {
      assert p.height >= 2;
      n := if a / p.width > 0 then a - p.width else a + p.width;
    }
    InList(p, a, n);
  }

  /** Otherwise the blank stands on a position free of tracked tiles, and every block has one too. */
  lemma TileBlocksInterfere(k: Tracking, b: nat)
    requires k.Valid() && b < |k.unproj| && k.tiles[0] != 0
    ensures k.Blocks().HasNeighbour(b)
  {
    BlockTuple(k, b);
    MoreThan(k.p.Size(), k.tiles, 0);
    var v := FreeStep(k, k.unproj[b]);
    StepGivesNeighbour(k, b, v);
  }

  lemma FreeStep(k: Tracking, u: seq<nat>) returns (v: seq<nat>)
    requires k.Valid() && IsTuple(k.p.Size(), |k.tiles|, u) && k.tiles[0] != 0 && k.p.Size() > |k.tiles|
    ensures k.Step(u, v)
  {
    hide Tracking.Moved, Puzzle.Neighbours, Puzzle.Size;
    var q := FreePosition(k.p.Size(), u);
    var j, n := Border(k.p, u, 0, q);
    v := k.Moved(u, j, n);
    assert k.StepBy(u, v, j, n);
  }

  lemma FreePosition(size: nat, u: seq<nat>) returns (q: nat)
    requires IsTuple(size, |u|, u) && |u| < size
    ensures q < size && q !in u
  {
    DistinctSize(u);
    var rest := Range(size) - ElemsOf(u);
    assert Range(size) == rest + ElemsOf(u);
    q :| q in rest;
  }

  lemma MoreThan(size: nat, u: seq<nat>, n: nat)
    requires IsTuple(size, |u|, u) && n < size && n !in u
    ensures |u| < size
  {
    TupleGrows(size, u, n);
    FreeCount(size, u + [n]);
  }

  /** On the way from a tracked tile to a free position some tracked tile is next to a free position. */
  lemma {:induction false} Border(p: Puzzle, u: seq<nat>, i: nat, q: nat) returns (j: nat, n: nat)
    requires p.width > 0 && i < |u| && u[i] < p.Size() && q < p.Size() && q !in u
    ensures j < |u| && n in p.Neighbours(u[j]) && n !in u
    decreases Away(p, u[i], q)
  {
    var n' := Towards(p, u[i], q);
    if n' in u {
      var i' :| 0 <= i' < |u| && u[i'] == n';
      NextTo(p, u[i], n');
      j, n := Border(p, u, i', q);
    } else {
      j, n := i, n';
    }
  }

  function ColOf(p: Puzzle, a: nat): nat
    requires p.width > 0
  {
    a % p.width
  }

  function RowOf(p: Puzzle, a: nat): nat
    requires p.width > 0
  {
    a / p.width
  }

  function Away(p: Puzzle, a: nat, q: nat): nat
    requires p.width > 0
  {
    Dist(ColOf(p, a), ColOf(p, q)) + Dist(RowOf(p, a), RowOf(p, q))
  }

  lemma OnGrid(p: Puzzle, a: nat)
    requires p.width > 0 && a < p.Size()
    ensures ColOf(p, a) < p.width && RowOf(p, a) < p.height && a == RowOf(p, a) * p.width + ColOf(p, a)
  {
    RowBelow(p.width, p.height, a);
    Cell(p.width, a);
  }

  /** A step that leads nearer. */
  lemma Towards(p: Puzzle, a: nat, q: nat) returns (n: nat)
    requires p.width > 0 && a < p.Size() && q < p.Size() && a != q
    ensures n in p.Neighbours(a) && Away(p, n, q) < Away(p, a, q)
  {
    hide Puzzle.Neighbours, Puzzle.Adjacent, Puzzle.Size, Dist, ColOf, RowOf;
    OnGrid(p, a);
    OnGrid(p, q);
    var row, col := Nearer(RowOf(p, a), ColOf(p, a), RowOf(p, q), ColOf(p, q));
    n := row * p.width + col;
    Located(p, row, col);
    At(p, RowOf(p, a), ColOf(p, a), row, col);
    NeighboursAreAdjacent(p, a, n);
  }

  lemma Located(p: Puzzle, row: nat, col: nat)
    requires col < p.width
    ensures RowOf(p, row * p.width + col) == row && ColOf(p, row * p.width + col) == col
  {
    Column(p.width, row, col);
  }

  lemma Nearer(row: nat, col: nat, qrow: nat, qcol: nat) returns (row': nat, col': nat)
    requires row != qrow || col != qcol
    ensures (row == row' && Dist(col, col') == 1) || (col == col' && Dist(row, row') == 1)
    ensures Dist(col', qcol) + Dist(row', qrow) < Dist(col, qcol) + Dist(row, qrow)
    ensures (row' <= row || row' <= qrow) && (col' <= col || col' <= qcol)
  {
    row', col' := row, col;
    if col > qcol {
      col' := col - 1;
    } else if col < qcol {
      col' := col + 1;
    } else if row > qrow {
      row' := row - 1;
    } else {
      row' := row + 1;
    }
  }

  // ----- the loop that finds the tracked tiles -----

  /** One pass over the board; positions not found yet are zero. */
  method FindTracked(k: Tracking, t: seq<nat>) returns (u: seq<nat>)
    requires k.Valid() && k.p.IsBoard(t)
    ensures u == k.Positions(t)
  {
    u := seq(|k.tiles|, _ => 0);
    for i := 0 to |t|
      invariant |u| == |k.tiles|
      invariant forall j: nat :: j < |u| ==> u[j] == if Find(t, k.tiles[j]) < i then Find(t, k.tiles[j]) else 0
    {
      var j := Find(k.tiles, t[i]);
      FoundHere(k, t, i);
      if j < |k.tiles| {
        u := u[j := i];
      }
    }
    forall j: nat | j < |u| ensures Find(t, k.tiles[j]) < |t| { PermCovers(t, k.tiles[j]); }
  }

  lemma FoundHere(k: Tracking, t: seq<nat>, i: nat)
    requires Distinct(k.tiles) && Distinct(t) && i < |t|
    ensures forall j: nat :: j < |k.tiles| ==> (Find(t, k.tiles[j]) == i <==> j == Find(k.tiles, t[i]))
  {
    forall j: nat | j < |k.tiles| ensures Find(t, k.tiles[j]) == i <==> j == Find(k.tiles, t[i]) {
      TileAt(t, k.tiles[j], i);
      TileAt(k.tiles, t[i], j);
    }
  }
}
