/** Sliding-tile boards, their moves, and the incremental Manhattan distance. */
module TilesBoards {
  import opened SearchGraphs
  import opened TilesRank

  /** A puzzle: `cost` is what it costs to move a tile, in fixed-point units. */
  datatype Puzzle = Puzzle(width: nat, height: nat, goal: seq<nat>, cost: nat -> nat) {

    function Size(): nat { width * height }

    ghost predicate Valid() {
      0 < width && 0 < height && IsBoard(goal)
    }

    /** Every tile is on the board once; the blank is tile 0. */
    ghost predicate IsBoard(t: seq<nat>) { |t| == Size() && IsPerm(t) }

    /** Neighbouring positions. */
    predicate Adjacent(a: nat, b: nat)
      requires width > 0
    {
      || (a / width == b / width && Dist(a % width, b % width) == 1)
      || (a % width == b % width && Dist(a / width, b / width) == 1)
    }

    /** The positions next to `b`, in the order in which they are tried. */
    function Neighbours(b: nat): (r: seq<nat>)
      requires width > 0
    {
      (if b % width > 0 then [b - 1] else [])
      + (if b % width < width - 1 then [b + 1] else [])
      + (if b / width > 0 && width <= b then [b - width] else [])
      + (if b / width + 1 < height then [b + width] else [])
    }

    /** What the table of distances holds. */
    function Distance(tile: nat, pos: nat): nat
      requires width > 0
    {
      DistanceFrom(Find(goal, tile), tile, pos)
    }

    function DistanceFrom(goalPos: nat, tile: nat, pos: nat): nat
      requires width > 0
    {
      (Dist(goalPos % width, pos % width) + Dist(goalPos / width, pos / width)) * cost(tile)
    }

    /** The sum over the first `n` positions. */
    function FullTo(t: seq<nat>, n: nat): nat
      requires width > 0 && n <= |t|
    {
      if n == 0 then 0 else FullTo(t, n - 1) + if t[n - 1] != 0 then Distance(t[n - 1], n - 1) else 0
    }

    function Full(t: seq<nat>): nat
      requires width > 0
    {
      FullTo(t, |t|)
    }

    /** The heuristic value of a child from that of its parent `p`. */
    function Incremental(h: nat, p: seq<nat>, oldBlank: nat, newBlank: nat): int
      requires width > 0 && newBlank < |p|
    {
      h + (Distance(p[newBlank], oldBlank) - Distance(p[newBlank], newBlank))
    }
  }

  function Dist(a: nat, b: nat): nat { if a < b then b - a else a - b }

  /** The first position of a tile. */
  function Find(t: seq<nat>, tile: nat): (i: nat)
    ensures i <= |t| && (i < |t| ==> t[i] == tile) && (i == |t| ==> tile !in t)
  {
    if t == [] then 0 else if t[0] == tile then 0 else Find(t[1..], tile) + 1
  }

  /** The board after the blank has moved from `o` to `n`. */
  function Child(t: seq<nat>, o: nat, n: nat): seq<nat>
    requires o < |t| && n < |t|
  {
    t[o := t[n]][n := 0]
  }

  // ----- moves -----

  /** A move keeps the board a permutation, with the blank where it moved to. */
  lemma ChildIsBoard(p: Puzzle, t: seq<nat>, o: nat, n: nat)
    requires p.IsBoard(t) && o < |t| && n < |t| && t[o] == 0 && n != o
    ensures p.IsBoard(Child(t, o, n)) && Child(t, o, n)[n] == 0 && Child(t, o, n)[o] == t[n]
  {
    var c := Child(t, o, n);
    forall i: nat, j: nat | i < j < |c| ensures c[i] != c[j] {
      var a, b := if i == o then n else if i == n then o else i, if j == o then n else if j == n then o else j;
      assert c[i] == t[a] && c[j] == t[b];
      if a < b { assert t[a] != t[b]; } else { assert t[b] != t[a]; }
    }
  }

  lemma Column(w: nat, row: nat, col: nat)
    requires col < w
    ensures (row * w + col) / w == row && (row * w + col) % w == col
  {
    Remainder(row * w + col, w, row, col);
  }

  /** The positions that are tried are the neighbouring ones on the board. */
  lemma NeighboursAreAdjacent(p: Puzzle, b: nat, n: nat)
    requires p.width > 0 && b < p.Size()
    ensures n in p.Neighbours(b) <==> n < p.Size() && p.Adjacent(b, n)
  {
    InList(p, b, n);
    if n in p.Neighbours(b) { TriedIsAdjacent(p, b, n); }
    if n < p.Size() && p.Adjacent(b, n) { AdjacentIsTried(p, b, n); }
  }

  ghost predicate Tried(p: Puzzle, b: nat, n: nat)
    requires p.width > 0
  {
    || (b % p.width > 0 && n == b - 1)
    || (b % p.width < p.width - 1 && n == b + 1)
    || (b / p.width > 0 && n == b - p.width)
    || (b / p.width + 1 < p.height && n == b + p.width)
  }

  lemma InList(p: Puzzle, b: nat, n: nat)
    requires p.width > 0 && b < p.Size()
    ensures n in p.Neighbours(b) <==> Tried(p, b, n)
  {
    if b / p.width > 0 { Grow(p.width, 1, b / p.width); }
    assert b == p.width * (b / p.width) + b % p.width;
  }

  lemma Grow(k: nat, a: nat, b: nat)
    requires a <= b
    ensures k * a <= k * b
  {
  }

  lemma TriedIsAdjacent(p: Puzzle, b: nat, n: nat)
    requires p.width > 0 && b < p.Size() && Tried(p, b, n)
    ensures n < p.Size() && p.Adjacent(b, n)
  {
    hide Puzzle.Adjacent;
    RowBelow(p.width, p.height, b);
    Cell(p.width, b);
    TriedAt(p, b / p.width, b % p.width, b, n);
  }

  lemma TriedAt(p: Puzzle, row: nat, col: nat, b: nat, n: nat)
    requires row < p.height && col < p.width && b == row * p.width + col
    requires || (col > 0 && n == b - 1) || (col < p.width - 1 && n == b + 1)
             || (row > 0 && n == b - p.width) || (row + 1 < p.height && n == b + p.width)
    ensures n < p.Size() && p.Adjacent(b, n)
  {
    hide Puzzle.Adjacent, Puzzle.Size;
    if col > 0 && n == b - 1 {
      At(p, row, col, row, col - 1);
    } else if col < p.width - 1 && n == b + 1 {
      At(p, row, col, row, col + 1);
    } else if row > 0 && n == b - p.width {
      NextRow(p.width, row - 1, col);
      At(p, row, col, row - 1, col);
    } else {
      NextRow(p.width, row, col);
      At(p, row, col, row + 1, col);
    }
  }

  /** Cells that differ by one in one coordinate are adjacent. */
  lemma At(p: Puzzle, row: nat, col: nat, row': nat, col': nat)
    requires row < p.height && row' < p.height && col < p.width && col' < p.width
    requires (row == row' && Dist(col, col') == 1) || (col == col' && Dist(row, row') == 1)
    ensures row' * p.width + col' < p.Size() && p.Adjacent(row * p.width + col, row' * p.width + col')
  {
    Column(p.width, row, col);
    Column(p.width, row', col');
    InGrid(p.width, p.height, row', col');
  }

  lemma AdjacentIsTried(p: Puzzle, b: nat, n: nat)
    requires p.width > 0 && b < p.Size() && n < p.Size() && p.Adjacent(b, n)
    ensures Tried(p, b, n)
  {
    var w := p.width;
    Cell(w, b);
    Cell(w, n);
    RowBelow(w, p.height, n);
    if b / w != n / w {
      if b / w < n / w { NextRow(w, b / w, b % w); } else { NextRow(w, n / w, n % w); }
    }
  }

  lemma Cell(w: nat, b: nat)
    requires w > 0
    ensures b == b / w * w + b % w
  {
  }

  lemma NextRow(w: nat, row: nat, col: nat)
    ensures (row + 1) * w + col == row * w + col + w
  {
  }

  lemma RowBelow(w: nat, h: nat, b: nat)
    requires w > 0 && b < w * h
    ensures b / w < h
  {
    QuotientBelow(b, w, h);
  }

  lemma InGrid(w: nat, h: nat, row: nat, col: nat)
    requires row < h && col < w
    ensures row * w + col < w * h
  {
    Within(row, h - 1, w, col);
  }

  lemma AdjacentSymmetric(p: Puzzle, a: nat, b: nat)
    requires p.width > 0
    ensures p.Adjacent(a, b) <==> p.Adjacent(b, a)
  {
  }

  // ----- the heuristic -----

  /** A sum in which only the positions `o` and `n` differ. */
  lemma {:induction false} FullChange(p: Puzzle, t: seq<nat>, c: seq<nat>, o: nat, n: nat, k: nat)
    requires p.width > 0 && |c| == |t| && k <= |t| && o < |t| && n < |t| && o != n
    requires forall i: nat :: i < |t| && i != o && i != n ==> c[i] == t[i]
    requires t[o] == 0 && c[n] == 0 && c[o] == t[n] != 0
    ensures p.FullTo(c, k) == p.FullTo(t, k)
              + (if o < k then p.Distance(t[n], o) else 0) - (if n < k then p.Distance(t[n], n) else 0)
  {
    if k > 0 { FullChange(p, t, c, o, n, k - 1); }
  }

  /** The incremental value is the full sum. */
  lemma IncrementalIsFull(p: Puzzle, t: seq<nat>, o: nat, n: nat)
    requires p.Valid() && p.IsBoard(t) && o < |t| && n < |t| && o != n && t[o] == 0
    ensures p.Incremental(p.Full(t), t, o, n) == p.Full(Child(t, o, n))
  {
    DistinctAt(t, o, n);
    FullChange(p, t, Child(t, o, n), o, n, |t|);
  }

  /** A move changes the estimate by exactly the cost of the tile that it moves. */
  lemma MoveChangesByCost(p: Puzzle, t: seq<nat>, o: nat, n: nat)
    requires p.Valid() && p.IsBoard(t) && o < |t| && n < |t| && t[o] == 0 && p.Adjacent(o, n)
    ensures p.Full(Child(t, o, n)) == p.Full(t) + p.cost(t[n]) || p.Full(Child(t, o, n)) == p.Full(t) - p.cost(t[n])
  {
    hide Puzzle.Full, Puzzle.Distance;
    assert o != n;
    IncrementalIsFull(p, t, o, n);
    DistanceStep(p, t[n], o, n);
  }

  lemma DistanceStep(p: Puzzle, tile: nat, o: nat, n: nat)
    requires p.width > 0 && p.Adjacent(o, n)
    ensures p.Distance(tile, o) == p.Distance(tile, n) + p.cost(tile)
         || p.Distance(tile, n) == p.Distance(tile, o) + p.cost(tile)
  {
    hide Dist;
    var w, g := p.width, Find(p.goal, tile);
    OneStep(g % w, g / w, o % w, o / w, n % w, n / w);
    StepBy(Dist(g % w, o % w) + Dist(g / w, o / w), Dist(g % w, n % w) + Dist(g / w, n / w), p.cost(tile));
  }

  /** One step in one direction is one step nearer or farther. */
  lemma OneStep(gx: nat, gy: nat, ox: nat, oy: nat, nx: nat, ny: nat)
    requires (oy == ny && Dist(ox, nx) == 1) || (ox == nx && Dist(oy, ny) == 1)
    ensures var a := Dist(gx, ox) + Dist(gy, oy);
            var b := Dist(gx, nx) + Dist(gy, ny);
            a == b + 1 || b == a + 1
  {
  }

  lemma StepBy(a: nat, b: nat, k: nat)
    requires a == b + 1 || b == a + 1
    ensures a == b + 1 ==> a * k == b * k + k
    ensures b == a + 1 ==> b * k == a * k + k
  {
  }

  lemma {:induction false} GoalIsZeroTo(p: Puzzle, k: nat)
    requires p.Valid() && k <= |p.goal|
    ensures p.FullTo(p.goal, k) == 0
  {
    hide Puzzle.Distance;
    if k > 0 {
      GoalIsZeroTo(p, k - 1);
      AtHome(p, k - 1);
    }
  }

  /** A tile in its goal position is at distance zero. */
  lemma AtHome(p: Puzzle, k: nat)
    requires p.Valid() && k < |p.goal|
    ensures p.Distance(p.goal[k], k) == 0
  {
    FindGoal(p.goal, k);
  }

  lemma FindGoal(t: seq<nat>, i: nat)
    requires IsPerm(t) && i < |t|
    ensures Find(t, t[i]) == i
  {
    var f := Find(t, t[i]);
    if f != i && f < |t| { DistinctAt(t, f, i); }
  }

  lemma DistinctAt(t: seq<nat>, a: nat, b: nat)
    requires Distinct(t) && a < |t| && b < |t| && a != b
    ensures t[a] != t[b]
  {
  }

  // ----- the loops of the program -----

  /** The table: the entry of a tile and a position is at `tile` * size + `pos`. */
  method DistanceTable(p: Puzzle) returns (table: seq<nat>)
    requires p.Valid()
    ensures TableTo(p, table, p.Size())
  {
    SizePositive(p);
    hide TableTo, RowTo, Puzzle.Distance, Puzzle.Valid, Puzzle.Size;
    var size := p.Size();
    table := seq(size, _ => 0);
    FirstRow(p, table);
    for tile := 1 to size
      invariant TableTo(p, table, tile)
    {
      var row := DistanceRow(p, tile);
      RowsBefore(p, tile, table, row);
      table := table + row;
    }
  }

  /** The inner loop. */
  method DistanceRow(p: Puzzle, tile: nat) returns (row: seq<nat>)
    requires p.width > 0
    ensures RowTo(p, row, tile, p.Size())
  {
    hide RowTo, Puzzle.Distance, Puzzle.DistanceFrom, Puzzle.Size;
    var goalPos := Find(p.goal, tile);
    row := [];
    NoEntries(p, tile);
    for pos := 0 to p.Size()
      invariant RowTo(p, row, tile, pos)
    {
      DistanceIs(p, tile, pos);
      var entry := p.DistanceFrom(goalPos, tile, pos);
      OneEntry(p, row, tile, pos, entry);
      row := row + [entry];
    }
  }

  function Slot(p: Puzzle, tile: nat, pos: nat): nat { tile * p.Size() + pos }

  /** The rows of the tiles below `k`. */
  ghost predicate TableTo(p: Puzzle, table: seq<nat>, k: nat)
    requires p.width > 0
  {
    && |table| == k * p.Size()
    && forall tile: nat, pos: nat :: 0 < tile < k && pos < p.Size() ==>
         Slot(p, tile, pos) < |table| && table[Slot(p, tile, pos)] == p.Distance(tile, pos)
  }

  ghost predicate RowTo(p: Puzzle, row: seq<nat>, tile: nat, k: nat)
    requires p.width > 0
  {
    |row| == k && forall j: nat :: j < k ==> row[j] == p.Distance(tile, j)
  }

  lemma NoEntries(p: Puzzle, tile: nat)
    requires p.width > 0
    ensures RowTo(p, [], tile, 0)
  {
  }

  lemma OneEntry(p: Puzzle, row: seq<nat>, tile: nat, k: nat, entry: nat)
    requires p.width > 0 && RowTo(p, row, tile, k) && entry == p.Distance(tile, k)
    ensures RowTo(p, row + [entry], tile, k + 1)
  {
  }

  lemma SizePositive(p: Puzzle)
    requires p.Valid()
    ensures p.width > 0 && p.Size() > 0
  {
  }

  lemma DistanceIs(p: Puzzle, tile: nat, pos: nat)
    requires p.width > 0
    ensures p.Distance(tile, pos) == p.DistanceFrom(Find(p.goal, tile), tile, pos)
  {
  }

  lemma FirstRow(p: Puzzle, table: seq<nat>)
    requires p.width > 0 && |table| == p.Size()
    ensures TableTo(p, table, 1)
  {
  }

  lemma RowsBefore(p: Puzzle, tile: nat, table: seq<nat>, row: seq<nat>)
    requires p.width > 0 && tile > 0 && TableTo(p, table, tile) && RowTo(p, row, tile, p.Size())
    ensures TableTo(p, table + row, tile + 1)
  {
    hide Puzzle.Distance, Puzzle.Size;
    var size := p.Size();
    NextRow(size, tile, 0);
    forall i: nat, pos: nat | 0 < i <= tile && pos < size
      ensures Slot(p, i, pos) < |table + row| && (table + row)[Slot(p, i, pos)] == p.Distance(i, pos)
    {
      if i == tile {
        assert (table + row)[Slot(p, i, pos)] == row[pos];
      } else {
        assert table[Slot(p, i, pos)] == p.Distance(i, pos);
      }
    }
  }

  /** The full sum, looked up in the table. */
  method ComputeFull(p: Puzzle, table: seq<nat>, t: seq<nat>) returns (dist: nat)
    requires p.Valid() && p.IsBoard(t) && TableTo(p, table, p.Size())
    ensures dist == p.Full(t)
  {
    hide Puzzle.Distance;
    dist := 0;
    for i := 0 to |t|
      invariant dist == p.FullTo(t, i)
    {
      if t[i] != 0 {
        dist := dist + table[Slot(p, t[i], i)];
      }
    }
  }

  // ----- a node of the search tree -----

  /** A state object: its board, the recorded blank, its heuristic value, the cost of
      the move that led to it and the cost of the way to it. */
  datatype TilesState = TilesState(tiles: seq<nat>, blank: nat, h: nat, c: nat, g: nat)

  ghost predicate StateOk(p: Puzzle, s: TilesState)
    requires p.Valid()
  {
    p.IsBoard(s.tiles) && s.blank < |s.tiles| && s.tiles[s.blank] == 0 && s.h == p.Full(s.tiles)
  }

  /** The children of a state, each of them once; the blank does not go back to
      where the parent had it. */
  method Expand(p: Puzzle, s: TilesState, parentBlank: int) returns (children: seq<TilesState>)
    requires p.Valid() && StateOk(p, s)
    ensures forall c :: c in children ==> IsChild(p, s, c) && c.blank != parentBlank
    ensures forall n :: n in p.Neighbours(s.blank) && n != parentBlank ==> HasBlank(children, n)
    ensures forall i: nat, j: nat :: i < j < |children| ==> children[i].blank != children[j].blank
  {
    NeighboursDiffer(p, s.blank);
    hide StateOk, IsChild, HasBlank, Puzzle.Neighbours;
    var ns := p.Neighbours(s.blank);
    children := [];
    for i := 0 to |ns|
      invariant forall c :: c in children ==> IsChild(p, s, c) && c.blank != parentBlank
      invariant forall n :: n in ns[..i] && n != parentBlank ==> HasBlank(children, n)
      invariant forall j: nat :: j < |children| ==> children[j].blank in ns[..i]
      invariant forall j: nat, k: nat :: j < k < |children| ==> children[j].blank != children[k].blank
    {
      var n := ns[i];
      NeighbourFacts(p, s, n);
      if n != parentBlank {
        ghost var was := children;
        var cost := p.cost(s.tiles[n]);
        children := children + [TilesState(Child(s.tiles, s.blank, n), n, p.Incremental(s.h, s.tiles, s.blank, n), cost, s.g + cost)];
        StillHas(was, children);
      }
    }
    assert ns[..|ns|] == ns;
  }

  lemma NeighboursDiffer(p: Puzzle, b: nat)
    requires p.width > 0
    ensures var ns := p.Neighbours(b); forall i: nat, j: nat :: i < j < |ns| ==> ns[i] != ns[j]
  {
  }

  /** One move of the blank away, with the heuristic value that a full sum would give. */
  ghost predicate IsChild(p: Puzzle, s: TilesState, c: TilesState)
    requires p.Valid() && StateOk(p, s)
  {
    && StateOk(p, c) && c.blank in p.Neighbours(s.blank) && p.Adjacent(s.blank, c.blank) && c.blank < |s.tiles|
    && c.tiles == Child(s.tiles, s.blank, c.blank)
    && c.c == p.cost(s.tiles[c.blank]) && c.g == s.g + c.c
  }

  ghost predicate HasBlank(children: seq<TilesState>, n: nat) {
    exists c :: c in children && c.blank == n
  }

  lemma StillHas(was: seq<TilesState>, now: seq<TilesState>)
    requires was <= now && |now| == |was| + 1
    ensures forall n :: HasBlank(was, n) ==> HasBlank(now, n)
    ensures HasBlank(now, now[|was|].blank)
  {
    forall n | HasBlank(was, n) ensures HasBlank(now, n) {
      var c :| c in was && c.blank == n;
      assert c in now;
    }
    assert now[|was|] in now;
  }

  lemma NeighbourFacts(p: Puzzle, s: TilesState, n: nat)
    requires p.Valid() && StateOk(p, s) && n in p.Neighbours(s.blank)
    ensures s.blank < |s.tiles| && n < |s.tiles| && p.Incremental(s.h, s.tiles, s.blank, n) >= 0
    ensures var c := TilesState(Child(s.tiles, s.blank, n), n, p.Incremental(s.h, s.tiles, s.blank, n),
                                p.cost(s.tiles[n]), s.g + p.cost(s.tiles[n]));
            IsChild(p, s, c)
  {
    hide Puzzle.Full, Puzzle.Distance, Puzzle.Neighbours;
    NeighboursAreAdjacent(p, s.blank, n);
    ChildIsBoard(p, s.tiles, s.blank, n);
    IncrementalIsFull(p, s.tiles, s.blank, n);
  }

  // ----- the state space -----

  /** The moves from a board: the rank of the child and the cost of the tile that is moved. */
  function Moves(p: Puzzle, t: seq<nat>): seq<Edge>
    requires p.width > 0 && |t| == p.Size() && 0 in t
  {
    NeighboursOnBoard(p, Find(t, 0));
    EdgesTo(p, t, p.Neighbours(Find(t, 0)))
  }

  function EdgesTo(p: Puzzle, t: seq<nat>, ns: seq<nat>): (r: seq<Edge>)
    requires 0 in t && forall i: nat :: i < |ns| ==> ns[i] < |t|
    ensures |r| == |ns| && forall i: nat :: i < |r| ==> r[i] == MoveTo(p, t, ns[i])
  {
    seq(|ns|, i requires 0 <= i < |ns| => MoveTo(p, t, ns[i]))
  }

  lemma NeighboursOnBoard(p: Puzzle, o: nat)
    requires p.width > 0 && o < p.Size()
    ensures var ns := p.Neighbours(o); forall i: nat :: i < |ns| ==> ns[i] < p.Size()
  {
    hide Puzzle.Neighbours, Puzzle.Adjacent, Puzzle.Size;
    var ns := p.Neighbours(o);
    forall i: nat | i < |ns| ensures ns[i] < p.Size() {
      NeighboursAreAdjacent(p, o, ns[i]);
    }
  }

  function MoveTo(p: Puzzle, t: seq<nat>, n: nat): Edge
    requires 0 in t && n < |t|
  {
    Edge(Rank(Child(t, Find(t, 0), n)), p.cost(t[n]))
  }

  /** Boards are numbered by their rank, which the closed lists use as the hash value. */
  function GraphOf(p: Puzzle, start: seq<nat>): Graph
    requires p.width > 0 && p.height > 0
  {
    Graph(Rank(start), (r: nat) => Successors(p, r), (r: nat) => p.Full(Unrank(p.Size(), r)), r => r == Rank(p.goal))
  }

  function Successors(p: Puzzle, r: nat): seq<Edge>
    requires p.width > 0 && p.height > 0
  {
    if r < Factorial(p.Size()) then
      UnrankIsPerm(p.Size(), r);
      PermCovers(Unrank(p.Size(), r), 0);
      Moves(p, Unrank(p.Size(), r))
    else []
  }

  /** Every move leads to a board, and the estimate falls by no more than the move costs. */
  lemma ManhattanIsConsistent(p: Puzzle, start: seq<nat>, r: nat, e: Edge)
    requires p.Valid() && e in GraphOf(p, start).succ(r)
    ensures r < Factorial(p.Size()) && e.to < Factorial(p.Size())
    ensures GraphOf(p, start).h(r) <= e.cost + GraphOf(p, start).h(e.to)
  {
    hide Puzzle.Full, Puzzle.Neighbours, Puzzle.Size, Unrank, Rank, Child, Factorial, Moves, Puzzle.Valid;
    SizePositive(p);
    var size := p.Size();
    var t := Unrank(size, r);
    assert r < Factorial(size);
    UnrankIsPerm(size, r);
    PermCovers(t, 0);
    BoardOf(p, t);
    var o, n := MoveOf(p, t, e);
    MoveChangesBoard(p, t, o, n);
  }

  lemma BoardOf(p: Puzzle, t: seq<nat>)
    requires |t| == p.Size() && IsPerm(t)
    ensures p.IsBoard(t)
  {
  }

  /** An edge from a board is the move of the blank to some neighbour. */
  lemma MoveOf(p: Puzzle, t: seq<nat>, e: Edge) returns (o: nat, n: nat)
    requires p.width > 0 && |t| == p.Size() && 0 in t && e in Moves(p, t)
    ensures o < |t| && t[o] == 0 && n in p.Neighbours(o) && n < |t|
    ensures e == Edge(Rank(Child(t, o, n)), p.cost(t[n]))
  {
    hide Puzzle.Neighbours, Puzzle.Size, Rank, Child;
    o := Find(t, 0);
    NeighboursOnBoard(p, o);
    var i: nat :| i < |Moves(p, t)| && Moves(p, t)[i] == e;
    n := p.Neighbours(o)[i];
  }

  /** The consistency that a search without reopening needs. */
  lemma ManhattanSuitsDropping(p: Puzzle, start: seq<nat>)
    requires p.Valid()
    ensures GraphOf(p, start).Consistent()
  {
    forall r: nat, e: Edge | e in GraphOf(p, start).succ(r)
      ensures GraphOf(p, start).h(r) <= e.cost + GraphOf(p, start).h(e.to)
    {
      ManhattanIsConsistent(p, start, r, e);
    }
  }

  lemma MoveChangesBoard(p: Puzzle, t: seq<nat>, o: nat, n: nat)
    requires p.Valid() && p.IsBoard(t) && o < |t| && t[o] == 0 && n in p.Neighbours(o)
    ensures n < |t| && Rank(Child(t, o, n)) < Factorial(p.Size())
    ensures Unrank(p.Size(), Rank(Child(t, o, n))) == Child(t, o, n)
    ensures p.Full(t) <= p.cost(t[n]) + p.Full(Child(t, o, n))
  {
    hide Puzzle.Full, Puzzle.Neighbours, Unrank, Rank, Child;
    NeighboursAreAdjacent(p, o, n);
    NotItself(p, o, n);
    ChildIsBoard(p, t, o, n);
    MoveChangesByCost(p, t, o, n);
    RankBelow(Child(t, o, n));
    UnrankRank(Child(t, o, n));
  }

  lemma NotItself(p: Puzzle, o: nat, n: nat)
    requires p.width > 0 && p.Adjacent(o, n)
    ensures o != n
  {
  }

  lemma {:induction false} ManhattanBelow(p: Puzzle, start: seq<nat>, r: nat, path: seq<Edge>)
    requires p.Valid() && GraphOf(p, start).IsSolution(r, path)
    ensures GraphOf(p, start).h(r) <= Cost(path)
    decreases |path|
  {
    if path == [] {
      UnrankRank(p.goal);
      GoalIsZeroTo(p, |p.goal|);
    } else {
      ManhattanIsConsistent(p, start, r, path[0]);
      ManhattanBelow(p, start, path[0].to, path[1..]);
    }
  }

  /** For any cost of the tiles the estimate never exceeds the cost of a solution. */
  lemma ManhattanIsAdmissible(p: Puzzle, start: seq<nat>)
    requires p.Valid()
    ensures GraphOf(p, start).Admissible()
  {
    forall r: nat, path: seq<Edge> | GraphOf(p, start).IsSolution(r, path)
      ensures GraphOf(p, start).h(r) <= Cost(path)
    {
      ManhattanBelow(p, start, r, path);
    }
  }
}
