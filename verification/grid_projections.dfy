/** The two projections of the grid: rows modulo a number, and a coarser grid. */
module GridProjections {
  import opened GridWorlds
  import opened Projections

  /** A four-way or eight-way move between two cells. */
  predicate Step(eight: bool, x: nat, y: nat, x': nat, y': nat) {
    if eight then Dist(x, x') <= 1 && Dist(y, y') <= 1 && (x != x' || y != y')
    else Dist(x, x') + Dist(y, y') == 1
  }

  lemma StepSymmetric(eight: bool, x: nat, y: nat, x': nat, y': nat)
    ensures Step(eight, x, y, x', y') <==> Step(eight, x', y', x, y)
  {
  }

  /** The moves of the four-way world are such steps. */
  lemma MovesAreSteps(w: World, x: nat, y: nat, c: (nat, nat))
    requires w.Inside(x, y) && c in w.Moves(x, y)
    ensures w.Inside(c.0, c.1) && Step(false, x, y, c.0, c.1)
  {
  }

  // ----- rows modulo a number -----

  function RowMod(m: nat): Neighbourhood
    requires m > 0
  {
    Neighbourhood(m, (b: nat) => RowNeighbours(m, b))
  }

  function RowNeighbours(m: nat, b: nat): seq<nat>
    requires m > 0
  {
    [if b > 0 then (b - 1) % m else m - 1, (b + 1) % m]
  }

  lemma Around(m: nat, b: nat)
    requires m > 0 && b < m
    ensures (b + 1) % m == if b == m - 1 then 0 else b + 1
    ensures b > 0 ==> (b - 1) % m == b - 1
  {
  }

  lemma RowModServes(m: nat)
    requires m > 0
    ensures RowMod(m).InRange() && RowMod(m).Symmetric()
  {
    forall a: nat, b: nat | a < m && b < m && b in RowMod(m).list(a) ensures a in RowMod(m).list(b) {
      Around(m, a);
      Around(m, b);
    }
  }

  /** Every step stays in its block or goes to a neighbour, whatever the number of rows. */
  lemma RowModSound(m: nat, eight: bool, x: nat, y: nat, x': nat, y': nat)
    requires m > 0 && Step(eight, x, y, x', y')
    ensures RowMod(m).Covers(y % m, y' % m)
  {
    Around(m, y % m);
    if y' == y + 1 { NextRemainder(y, m); }
    if y == y' + 1 {
      Around(m, y' % m);
      NextRemainder(y', m);
    }
  }

  lemma NextRemainder(y: nat, m: nat)
    requires m > 0
    ensures (y + 1) % m == (y % m + 1) % m
  {
    Around(m, y % m);
    assert y == y / m * m + y % m;
    if y % m == m - 1 {
      Quotient(y + 1, m, y / m + 1, 0);
    } else {
      Quotient(y + 1, m, y / m, y % m + 1);
    }
  }

  lemma Quotient(a: nat, m: nat, q: nat, r: nat)
    requires r < m && a == q * m + r
    ensures a / m == q && a % m == r
  {
    MemberBlock(q, m, r);
  }

  /** A block has a neighbour other than itself exactly from two blocks on. */
  lemma RowModInterferes(m: nat, b: nat)
    requires m > 0 && b < m
    ensures RowMod(m).HasNeighbour(b) <==> m >= 2
  {
    Around(m, b);
    if m >= 2 {
      assert (b + 1) % m in RowMod(m).list(b);
    }
  }

  // ----- a coarser grid -----

  datatype Coarse = Coarse(cols: nat, rows: nat, colsDiv: nat, rowsDiv: nat, eight: bool) {

    predicate Valid() { cols > 0 && rows > 0 && colsDiv > 0 && rowsDiv > 0 }

    function Id(x: nat, y: nat): nat { y * cols + x }

    function Col(b: nat): nat
      requires Valid()
    {
      b % cols
    }

    function Row(b: nat): nat
      requires Valid()
    {
      b / cols
    }

    function Count(): nat { rows * cols }

    function Project(x: nat, y: nat): nat
      requires Valid()
    {
      Id(x / colsDiv, y / rowsDiv)
    }

    function Neighbours(b: nat): seq<nat>
      requires Valid()
    {
      var x, y := Col(b), Row(b);
      (if x > 0 then [Id(x - 1, y)] else [])
      + (if x < cols - 1 then [Id(x + 1, y)] else [])
      + (if y > 0 then [Id(x, y - 1)] else [])
      + (if y < rows - 1 then [Id(x, y + 1)] else [])
      + (if eight && x > 0 && y > 0 then [Id(x - 1, y - 1)] else [])
      + (if eight && x < cols - 1 && y > 0 then [Id(x + 1, y - 1)] else [])
      + (if eight && x < cols - 1 && y < rows - 1 then [Id(x + 1, y + 1)] else [])
      + (if eight && x > 0 && y < rows - 1 then [Id(x - 1, y + 1)] else [])
    }

    function Blocks(): Neighbourhood
      requires Valid()
    {
      Neighbourhood(Count(), (b: nat) => Neighbours(b))
    }
  }

  /** What the constructor does: a count that does not divide the size is raised by one. */
  function Adjusted(size: nat, count: nat): nat
    requires count > 0
  {
    if size % count != 0 then count + 1 else count
  }

  function MakeCoarse(width: nat, height: nat, c: nat, r: nat, eight: bool): Coarse
    requires c > 0 && r > 0
  {
    var cols, rows := Adjusted(width, c), Adjusted(height, r);
    Coarse(cols, rows, width / cols, height / rows, eight)
  }

  /** The cells of one axis fall into `count` blocks exactly if the adjusted count divides the axis. */
  lemma AxisInRange(size: nat, count: nat)
    requires 0 < count <= size
    ensures (forall x: nat :: x < size ==> x / (size / count) < count) <==> size % count == 0
  {
    var d := size / count;
    Positive(size, count);
    assert size == d * count + size % count;
    if size % count == 0 {
      forall x: nat | x < size ensures x / d < count {
        if x / d >= count { Times(count, x / d, d); }
      }
    } else {
      var x := d * count;
      Quotient(x, d, count, 0);
      assert x < size && x / d == count;
    }
  }

  lemma Positive(size: nat, count: nat)
    requires 0 < count <= size
    ensures size / count > 0
  {
  }

  lemma Fraction(size: nat, count: nat)
    requires count > size
    ensures size / count == 0
  {
  }

  /** Every cell is projected onto an existing block exactly if both axes are
      divided evenly by the requested count or, failing that, by the next one. */
  lemma CoarseInRangeIff(width: nat, height: nat, c: nat, r: nat, eight: bool)
    requires width > 0 && height > 0 && c > 0 && r > 0 && MakeCoarse(width, height, c, r, eight).Valid()
    ensures var k := MakeCoarse(width, height, c, r, eight);
            (forall x: nat, y: nat :: x < width && y < height ==> k.Project(x, y) < k.Count()) <==>
            (width % c == 0 || width % (c + 1) == 0) && (height % r == 0 || height % (r + 1) == 0)
  {
    var k := MakeCoarse(width, height, c, r, eight);
    assert k.cols <= width && k.rows <= height by {
      if k.cols > width { Fraction(width, k.cols); }
      if k.rows > height { Fraction(height, k.rows); }
    }
    GridInRange(k, width, height);
  }

  lemma GridInRange(k: Coarse, width: nat, height: nat)
    requires 0 < k.cols <= width && 0 < k.rows <= height
    requires k.colsDiv == width / k.cols && k.rowsDiv == height / k.rows && k.Valid()
    ensures (forall x: nat, y: nat :: x < width && y < height ==> k.Project(x, y) < k.Count()) <==>
            width % k.cols == 0 && height % k.rows == 0
  {
    hide Coarse.Project;
    AxisInRange(width, k.cols);
    AxisInRange(height, k.rows);
    if width % k.cols == 0 && height % k.rows == 0 {
      forall x: nat, y: nat | x < width && y < height ensures k.Project(x, y) < k.Count() {
        CellInRange(k, x, y);
      }
    } else if width % k.cols != 0 {
      var x: nat :| x < width && x / k.colsDiv >= k.cols;
      LastRow(k, height);
      OutOfRange(k, x, height - 1);
    } else {
      var y: nat :| y < height && y / k.rowsDiv >= k.rows;
      OutOfRange(k, 0, y);
    }
  }

  lemma CellInRange(k: Coarse, x: nat, y: nat)
    requires k.Valid() && x / k.colsDiv < k.cols && y / k.rowsDiv < k.rows
    ensures k.Project(x, y) < k.Count()
  {
    IdInRange(k, x / k.colsDiv, y / k.rowsDiv);
  }

  lemma IdInRange(k: Coarse, x: nat, y: nat)
    requires x < k.cols && y < k.rows
    ensures k.Id(x, y) < k.Count()
  {
    Times(y + 1, k.rows, k.cols);
  }

  /** The last row of cells lies in the last row of blocks, or below it. */
  lemma LastRow(k: Coarse, height: nat)
    requires 0 < k.rows <= height && k.rowsDiv == height / k.rows && k.rowsDiv > 0
    ensures (height - 1) / k.rowsDiv >= k.rows - 1
  {
    var d, y := k.rowsDiv, height - 1;
    assert y == y / d * d + y % d;
    assert height == d * k.rows + height % k.rows;
    OneFewer(k.rows, d);
    if y / d < k.rows - 1 { Times(y / d + 1, k.rows - 1, d); }
  }

  lemma OneFewer(a: nat, d: nat)
    ensures (a - 1) * d == a * d - d
  {
  }

  lemma OutOfRange(k: Coarse, x: nat, y: nat)
    requires k.Valid()
    requires || (x / k.colsDiv >= k.cols && y / k.rowsDiv >= k.rows - 1)
             || y / k.rowsDiv >= k.rows
    ensures k.Project(x, y) >= k.Count()
  {
    var bx, bY := x / k.colsDiv, y / k.rowsDiv;
    if bY >= k.rows {
      Times(k.rows, bY, k.cols);
    } else {
      assert bY == k.rows - 1;
      OneFewer(k.rows, k.cols);
    }
  }

  /** Ten columns cut into three: four block columns of two cells, and two cells left over. */
  lemma TenByThreeFails()
    ensures var k := MakeCoarse(10, 3, 3, 3, false);
            k.Valid() && k.cols == 4 && k.colsDiv == 2 && k.Project(9, 2) >= k.Count()
  {
    hide Coarse.Project;
    var k := MakeCoarse(10, 3, 3, 3, false);
    assert k == Coarse(4, 3, 2, 1, false);
    LastTwo();
  }

  lemma LastTwo()
    ensures var k := Coarse(4, 3, 2, 1, false); k.Project(9, 2) == 12 == k.Count()
  {
  }

  // ----- neighbours of the coarse grid -----

  lemma BlockOf(k: Coarse, x: nat, y: nat)
    requires k.Valid() && x < k.cols
    ensures k.Col(k.Id(x, y)) == x && k.Row(k.Id(x, y)) == y
  {
    Quotient(k.Id(x, y), k.cols, y, x);
  }

  /** A block that exists, by its column and row. */
  lemma BlockCell(k: Coarse, b: nat)
    requires k.Valid() && b < k.Count()
    ensures k.Col(b) < k.cols && k.Row(b) < k.rows && b == k.Id(k.Col(b), k.Row(b))
  {
    assert b == b / k.cols * k.cols + b % k.cols;
    if b / k.cols >= k.rows { Times(k.rows, b / k.cols, k.cols); }
  }

  /** The listed blocks are those one step of the grid away. */
  lemma NeighboursAreSteps(k: Coarse, a: nat, b: nat)
    requires k.Valid() && a < k.Count()
    ensures b in k.Neighbours(a) <==> b < k.Count() && Step(k.eight, k.Col(a), k.Row(a), k.Col(b), k.Row(b))
  {
    hide Coarse.Id, Coarse.Col, Coarse.Row, Coarse.Count, Coarse.Neighbours, Step;
    BlockCell(k, a);
    if b in k.Neighbours(a) {
      var x, y := ListedSteps(k, a, b);
      BlockOf(k, x, y);
      IdInRange(k, x, y);
    }
    if b < k.Count() && Step(k.eight, k.Col(a), k.Row(a), k.Col(b), k.Row(b)) {
      BlockCell(k, b);
      StepListed(k, a, k.Col(b), k.Row(b));
    }
  }

  lemma ListedSteps(k: Coarse, a: nat, b: nat) returns (x: nat, y: nat)
    requires k.Valid() && k.Col(a) < k.cols && k.Row(a) < k.rows && b in k.Neighbours(a)
    ensures x < k.cols && y < k.rows && b == k.Id(x, y) && Step(k.eight, k.Col(a), k.Row(a), x, y)
  {
    hide Coarse.Id, Coarse.Col, Coarse.Row;
    x, y := k.Col(a), k.Row(a);
    if x > 0 && b == k.Id(x - 1, y) {
      x := x - 1;
    } else if x < k.cols - 1 && b == k.Id(x + 1, y) {
      x := x + 1;
    } else if y > 0 && b == k.Id(x, y - 1) {
      y := y - 1;
    } else if y < k.rows - 1 && b == k.Id(x, y + 1) {
      y := y + 1;
    } else if x > 0 && y > 0 && b == k.Id(x - 1, y - 1) {
      x, y := x - 1, y - 1;
    } else if x < k.cols - 1 && y > 0 && b == k.Id(x + 1, y - 1) {
      x, y := x + 1, y - 1;
    } else if x < k.cols - 1 && y < k.rows - 1 && b == k.Id(x + 1, y + 1) {
      x, y := x + 1, y + 1;
    } else {
      x, y := x - 1, y + 1;
    }
  }

  lemma StepListed(k: Coarse, a: nat, x: nat, y: nat)
    requires k.Valid() && k.Col(a) < k.cols && k.Row(a) < k.rows && x < k.cols && y < k.rows
    requires Step(k.eight, k.Col(a), k.Row(a), x, y)
    ensures k.Id(x, y) in k.Neighbours(a)
  {
    hide Coarse.Id, Coarse.Col, Coarse.Row;
  }

  lemma CoarseServes(k: Coarse)
    requires k.Valid()
    ensures k.Blocks().InRange() && k.Blocks().Symmetric()
  {
    hide Coarse.Neighbours, Coarse.Id, Coarse.Col, Coarse.Row, Coarse.Count, Step;
    forall b: nat, x: nat | b < k.Count() && x in k.Blocks().list(b) ensures x < k.Count() {
      NeighboursAreSteps(k, b, x);
    }
    forall a: nat, b: nat | a < k.Count() && b < k.Count() && b in k.Blocks().list(a)
      ensures a in k.Blocks().list(b)
    {
      NeighboursAreSteps(k, a, b);
      NeighboursAreSteps(k, b, a);
      StepSymmetric(k.eight, k.Col(a), k.Row(a), k.Col(b), k.Row(b));
    }
  }

  /** Neighbouring cells lie in the same block of an axis or in neighbouring ones. */
  lemma AxisStep(x: nat, x': nat, d: nat)
    requires d > 0 && Dist(x, x') <= 1
    ensures Dist(x / d, x' / d) <= 1
  {
    if x < x' { OneFurther(x, d); } else if x' < x { OneFurther(x', d); }
  }

  lemma OneFurther(x: nat, d: nat)
    requires d > 0
    ensures x / d <= (x + 1) / d <= x / d + 1
  {
    assert x == x / d * d + x % d;
    if x % d == d - 1 {
      Quotient(x + 1, d, x / d + 1, 0);
    } else {
      Quotient(x + 1, d, x / d, x % d + 1);
    }
  }

  lemma StepBetweenBlocks(k: Coarse, x: nat, y: nat, x': nat, y': nat)
    requires k.Valid() && Step(k.eight, x, y, x', y')
    ensures var a, b, c, d := x / k.colsDiv, y / k.rowsDiv, x' / k.colsDiv, y' / k.rowsDiv;
            (a == c && b == d) || Step(k.eight, a, b, c, d)
  {
    AxisStep(x, x', k.colsDiv);
    AxisStep(y, y', k.rowsDiv);
  }

  /** Every legal move between cells that have a block is covered. */
  lemma CoarseSound(k: Coarse, x: nat, y: nat, x': nat, y': nat)
    requires k.Valid() && Step(k.eight, x, y, x', y')
    requires x / k.colsDiv < k.cols && y / k.rowsDiv < k.rows && x' / k.colsDiv < k.cols && y' / k.rowsDiv < k.rows
    ensures k.Blocks().Covers(k.Project(x, y), k.Project(x', y'))
  {
    StepBetweenBlocks(k, x, y, x', y');
    CoveredBlocks(k, x / k.colsDiv, y / k.rowsDiv, x' / k.colsDiv, y' / k.rowsDiv);
  }

  lemma CoveredBlocks(k: Coarse, a: nat, b: nat, c: nat, d: nat)
    requires k.Valid() && a < k.cols && b < k.rows && c < k.cols && d < k.rows
    requires (a == c && b == d) || Step(k.eight, a, b, c, d)
    ensures k.Blocks().Covers(k.Id(a, b), k.Id(c, d))
  {
    hide Coarse.Neighbours, Coarse.Id, Coarse.Col, Coarse.Row, Coarse.Count, Step;
    IdInRange(k, a, b);
    IdInRange(k, c, d);
    BlockOf(k, a, b);
    BlockOf(k, c, d);
    NeighboursAreSteps(k, k.Id(a, b), k.Id(c, d));
  }

  /** With an even division all legal moves inside the grid are covered. */
  lemma EvenGridIsSound(k: Coarse, width: nat, height: nat, x: nat, y: nat, x': nat, y': nat)
    requires 0 < k.cols <= width && 0 < k.rows <= height && k.Valid()
    requires k.colsDiv == width / k.cols && k.rowsDiv == height / k.rows
    requires width % k.cols == 0 && height % k.rows == 0
    requires x < width && y < height && x' < width && y' < height && Step(k.eight, x, y, x', y')
    ensures k.Blocks().Covers(k.Project(x, y), k.Project(x', y'))
  {
    AxisInRange(width, k.cols);
    AxisInRange(height, k.rows);
    CoarseSound(k, x, y, x', y');
  }

  /** A block has a neighbour exactly if there is another block. */
  lemma CoarseInterferes(k: Coarse, b: nat)
    requires k.Valid() && b < k.Count()
    ensures k.Blocks().HasNeighbour(b) <==> k.Count() >= 2
  {
    BlockCell(k, b);
    if k.cols >= 2 || k.rows >= 2 {
      AtLeastTwo(k.rows, k.cols);
      Another(k, b);
    } else {
      Only(k, b);
    }
  }

  lemma AtLeastTwo(a: nat, b: nat)
    requires a > 0 && b > 0 && (a >= 2 || b >= 2)
    ensures a * b >= 2
  {
    if a >= 2 { Times(2, a, b); } else { Times(2, b, a); }
  }

  lemma Another(k: Coarse, b: nat)
    requires k.Valid() && k.Col(b) < k.cols && k.Row(b) < k.rows && (k.cols >= 2 || k.rows >= 2)
    ensures k.Blocks().HasNeighbour(b)
  {
    hide Coarse.Neighbours, Coarse.Id, Coarse.Col, Coarse.Row, Coarse.Count;
    var x, y := k.Col(b), k.Row(b);
    var x' := if k.cols < 2 then x else if x > 0 then x - 1 else x + 1;
    var y' := if k.cols >= 2 then y else if y > 0 then y - 1 else y + 1;
    StepListed(k, b, x', y');
    BlockOf(k, x', y');
    assert k.Id(x', y') in k.Blocks().list(b);
  }

  lemma Only(k: Coarse, b: nat)
    requires k.Valid() && k.cols == 1 && k.rows == 1 && b == 0
    ensures k.Count() == 1 && !k.Blocks().HasNeighbour(b)
  {
  }

  /** Both projections cover every move of the four-way world. */
  lemma WorldIsCovered(w: World, m: nat, k: Coarse, x: nat, y: nat, c: (nat, nat))
    requires w.Inside(x, y) && c in w.Moves(x, y) && m > 0
    requires 0 < k.cols <= w.width && 0 < k.rows <= w.height && k.Valid() && !k.eight
    requires k.colsDiv == w.width / k.cols && k.rowsDiv == w.height / k.rows
    requires w.width % k.cols == 0 && w.height % k.rows == 0
    ensures RowMod(m).Covers(y % m, c.1 % m)
    ensures k.Blocks().Covers(k.Project(x, y), k.Project(c.0, c.1))
  {
    MovesAreSteps(w, x, y, c);
    RowModSound(m, false, x, y, c.0, c.1);
    EvenGridIsSound(k, w.width, w.height, x, y, c.0, c.1);
  }
}
