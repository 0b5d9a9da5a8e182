/** Grid pathfinding with four-way moves, unit cost or life cost, and its heuristic. */
module GridWorlds {
  import opened FixedPoint
  import opened SearchGraphs

  datatype CostType = Unit | Life

  /** A cell is a pair of column and row; rows are counted from the top. */
  datatype World = World(width: nat, height: nat, obstacles: set<(nat, nat)>, cost: CostType,
                         startX: nat, startY: nat, goalX: nat, goalY: nat)
  {
    ghost predicate Valid() {
      startX < width && startY < height && goalX < width && goalY < height
    }

    predicate Inside(x: nat, y: nat) { x < width && y < height }

    /** Leaving a cell costs one, or its row number. */
    function StepCost(y: nat): nat {
      if cost == Unit then FP_ONE else y * FP_ONE
    }

    function Id(x: nat, y: nat): nat { width * y + x }

    /** The four moves in the order in which they are generated. */
    function Moves(x: nat, y: nat): seq<(nat, nat)> {
      (if x > 0 && (x - 1, y) !in obstacles then [(x - 1, y)] else [])
      + (if x + 1 < width && (x + 1, y) !in obstacles then [(x + 1, y)] else [])
      + (if y > 0 && (x, y - 1) !in obstacles then [(x, y - 1)] else [])
      + (if y + 1 < height && (x, y + 1) !in obstacles then [(x, y + 1)] else [])
    }

    /** A legal move: one step to a free cell of the grid. */
    predicate MayMove(x: nat, y: nat, c: (nat, nat)) {
      Inside(c.0, c.1) && c !in obstacles && Dist(x, c.0) + Dist(y, c.1) == 1
    }

    function EdgeTo(y: nat, c: (nat, nat)): Edge { Edge(Id(c.0, c.1), StepCost(y)) }

    function Edges(x: nat, y: nat): (r: seq<Edge>)
      ensures |r| == |Moves(x, y)|
      ensures forall i: nat :: i < |r| ==> r[i] == EdgeTo(y, Moves(x, y)[i])
    {
      seq(|Moves(x, y)|, i requires 0 <= i < |Moves(x, y)| => EdgeTo(y, Moves(x, y)[i]))
    }

    // ----- the heuristic -----

    function H(x: nat, y: nat): nat {
      if cost == Unit then (Dist(goalX, x) + Dist(goalY, y)) * FP_ONE
      else
        var down := UpOverDown(y, goalY);
        var over := UpOver(x, y, goalX, goalY);
        if down < over then down * FP_ONE else over * FP_ONE
    }
  }

  function Dist(a: nat, b: nat): nat { if a < b then b - a else a - b }

  function Least(a: nat, b: nat): nat { if a < b then a else b }

  /** The cost of moving straight from row `a` to row `b`. */
  function CostFrom(a: nat, b: nat): nat {
    var last := if a > b then b + 1 else if a < b then b - 1 else b;
    (a + last) * Dist(a, b) / 2
  }

  /** Across in the upper one of the two rows. */
  function UpOver(x: nat, y: nat, gx: nat, gy: nat): nat {
    Dist(gx, x) * Least(y, gy) + CostFrom(y, gy)
  }

  /** Across in row 0, where moving is free. */
  function UpOverDown(y: nat, gy: nat): nat {
    SquareAtLeast(y);
    SquareAtLeast(gy);
    (y * y + y + gy * gy - gy) / 2
  }

  lemma SquareAtLeast(n: nat)
    ensures n <= n * n || n == 0
    ensures n * n >= 0
  {
  }

  /** The moves are the legal ones, each of them once. */
  lemma MovesAreLegal(w: World, x: nat, y: nat)
    requires w.Inside(x, y)
    ensures forall c :: c in w.Moves(x, y) <==> w.MayMove(x, y, c)
    ensures var n := w.Moves(x, y); forall i: nat, j: nat :: i < j < |n| ==> n[i] != n[j]
  {
  }

  /** From a cell of the grid: one child for every legal move and no other, each
      once, at the cost of leaving the cell. */
  method Expand4(w: World, x: nat, y: nat) returns (children: seq<Edge>)
    ensures children == w.Edges(x, y)
    ensures w.Inside(x, y) ==> forall e :: e in children <==> exists c :: w.MayMove(x, y, c) && e == w.EdgeTo(y, c)
    ensures w.Inside(x, y) ==> forall i: nat, j: nat :: i < j < |children| ==> children[i].to != children[j].to
  {
    var cost := w.StepCost(y);
    children := [];
    if x > 0 && (x - 1, y) !in w.obstacles {
      children := children + [Edge(w.Id(x - 1, y), cost)];
    }
    if x + 1 < w.width && (x + 1, y) !in w.obstacles {
      children := children + [Edge(w.Id(x + 1, y), cost)];
    }
    if y > 0 && (x, y - 1) !in w.obstacles {
      children := children + [Edge(w.Id(x, y - 1), cost)];
    }
    if y + 1 < w.height && (x, y + 1) !in w.obstacles {
      children := children + [Edge(w.Id(x, y + 1), cost)];
    }
    if w.Inside(x, y) { EdgesAreLegal(w, x, y); }
  }

  lemma EdgesAreLegal(w: World, x: nat, y: nat)
    requires w.Inside(x, y)
    ensures forall e :: e in w.Edges(x, y) <==> exists c :: w.MayMove(x, y, c) && e == w.EdgeTo(y, c)
    ensures var es := w.Edges(x, y); forall i: nat, j: nat :: i < j < |es| ==> es[i].to != es[j].to
  {
    MovesAreLegal(w, x, y);
    var n, es := w.Moves(x, y), w.Edges(x, y);
    hide World.Moves, World.Id, World.StepCost;
    forall e | e in es ensures exists c :: w.MayMove(x, y, c) && e == w.EdgeTo(y, c) {
      var i: nat :| i < |es| && es[i] == e;
      assert n[i] in n;
    }
    forall c | w.MayMove(x, y, c) ensures w.EdgeTo(y, c) in es {
      var i: nat :| i < |n| && n[i] == c;
      assert es[i] == w.EdgeTo(y, c);
    }
    forall i: nat, j: nat | i < j < |es| ensures es[i].to != es[j].to {
      assert n[i] in n && n[j] in n;
      IdDecodes(w, n[i].0, n[i].1);
      IdDecodes(w, n[j].0, n[j].1);
    }
  }

  // ----- straight moves -----

  lemma Half(a: nat, b: nat)
    requires 2 * b == a
    ensures a / 2 == b
  {
  }

  /** The sum of all rows left, the first one included and the last one not. */
  function RowSum(a: nat, b: nat): nat
    decreases Dist(a, b)
  {
    if a == b then 0 else a + RowSum(if a > b then a - 1 else a + 1, b)
  }

  /** The closed form is that sum. */
  lemma {:induction false} CostFromIsSum(a: nat, b: nat)
    ensures CostFrom(a, b) == RowSum(a, b)
    ensures 2 * RowSum(a, b) == if a >= b then a * (a + 1) - b * (b + 1) else b * (b - 1) - a * (a - 1)
    decreases Dist(a, b)
  {
    if a > b {
      CostFromIsSum(a - 1, b);
      Squares(a, b);
      Half((a + (b + 1)) * (a - b), RowSum(a, b));
    } else if a < b {
      CostFromIsSum(a + 1, b);
      Squares(a, b);
      Half((a + (b - 1)) * (b - a), RowSum(a, b));
    }
  }

  lemma Squares(a: int, b: int)
    ensures (a + (b + 1)) * (a - b) == a * (a + 1) - b * (b + 1)
    ensures (a + (b - 1)) * (b - a) == b * (b - 1) - a * (a - 1)
    ensures (a - 1) * (a - 1 + 1) + 2 * a == a * (a + 1)
    ensures a * (a - 1) + 2 * a == (a + 1) * (a + 1 - 1)
  {
  }

  /** The cost of the way that crosses in row `m`. */
  function Crossing(dx: nat, y: nat, gy: nat, m: nat): nat {
    RowSum(y, m) + dx * m + RowSum(m, gy)
  }

  /** The two closed forms are the crossings in row 0 and in the upper of both rows. */
  lemma ClosedForms(x: nat, y: nat, gx: nat, gy: nat)
    ensures UpOverDown(y, gy) == Crossing(Dist(gx, x), y, gy, 0)
    ensures UpOver(x, y, gx, gy) == Crossing(Dist(gx, x), y, gy, Least(y, gy))
  {
    CostFromIsSum(y, gy);
    DownAndUp(y, gy);
    assert RowSum(Least(y, gy), Least(y, gy)) == 0;
    hide RowSum, CostFrom, UpOverDown;
  }

  lemma DownAndUp(y: nat, gy: nat)
    ensures UpOverDown(y, gy) == RowSum(y, 0) + RowSum(0, gy)
  {
    CostFromIsSum(y, 0);
    CostFromIsSum(0, gy);
    hide RowSum;
    Parts(y, gy);
  }

  lemma Parts(y: int, gy: int)
    ensures y * y + y + gy * gy - gy == y * (y + 1) - 0 * (0 + 1) + (gy * (gy - 1) - 0 * (0 - 1))
  {
  }

  /** The cost of crossing is concave in the row, so it is least at an end. */
  lemma Concave(dx: nat, y: nat, gy: nat, m: nat)
    requires m <= Least(y, gy)
    ensures Least(Crossing(dx, y, gy, 0), Crossing(dx, y, gy, Least(y, gy))) <= Crossing(dx, y, gy, m)
  {
    var top := Least(y, gy);
    TwiceCrossing(dx, y, gy, 0);
    TwiceCrossing(dx, y, gy, m);
    TwiceCrossing(dx, y, gy, top);
    if dx >= m {
      Scale(m, 0, dx - m);
    } else {
      Steeper(dx, m, top);
    }
  }

  lemma TwiceCrossing(dx: nat, y: nat, gy: nat, m: nat)
    requires m <= Least(y, gy)
    ensures 2 * Crossing(dx, y, gy, m) == y * (y + 1) + gy * (gy - 1) + 2 * (m * (dx - m))
  {
    CostFromIsSum(y, m);
    CostFromIsSum(m, gy);
    assert m * (m + 1) + m * (m - 1) == 2 * (m * m);
    assert m * (dx - m) == dx * m - m * m;
  }

  lemma Scale(k: nat, a: int, b: int)
    requires a <= b
    ensures k * a <= k * b
  {
  }

  lemma Steeper(dx: nat, m: nat, top: nat)
    requires dx < m <= top
    ensures top * (dx - top) <= m * (dx - m)
  {
    Scale(top, dx - top, dx - m);
    Scale(m - dx, m, top);
    assert top * (dx - m) == -((m - dx) * top) && m * (dx - m) == -((m - dx) * m);
  }

  // ----- consistency -----

  /** The life-cost estimate in whole units. */
  function LifeH(dx: nat, y: nat, gy: nat): nat {
    Least(Crossing(dx, y, gy, 0), Crossing(dx, y, gy, Least(y, gy)))
  }

  lemma HIsLifeH(w: World, x: nat, y: nat)
    requires w.cost == Life
    ensures w.H(x, y) == LifeH(Dist(w.goalX, x), y, w.goalY) * FP_ONE
  {
    ClosedForms(x, y, w.goalX, w.goalY);
  }

  /** A step up may change the row of the cheaper crossing; concavity pays for it. */
  lemma LifeUp(dx: nat, y: nat, gy: nat)
    requires y > 0
    ensures LifeH(dx, y, gy) <= y + LifeH(dx, y - 1, gy)
  {
    if y <= gy {
      Concave(dx, y, gy, y - 1);
      assert RowSum(y, y - 1) == y + RowSum(y - 1, y - 1);
    }
  }

  lemma LifeDown(dx: nat, y: nat, gy: nat)
    ensures LifeH(dx, y, gy) <= y + LifeH(dx, y + 1, gy)
  {
    if y < gy {
      Scale(dx, y, y + 1);
    }
  }

  lemma LifeAcross(dx: nat, dx': nat, y: nat, gy: nat)
    requires dx <= dx' + 1
    ensures LifeH(dx, y, gy) <= y + LifeH(dx', y, gy)
  {
    var m := Least(y, gy);
    Scale(m, dx, dx' + 1);
    assert dx * m <= dx' * m + m;
  }

  /** The heuristic is consistent: a move never costs less than the estimate falls. */
  lemma Consistent(w: World, x: nat, y: nat, i: nat)
    requires w.Inside(x, y) && i < |w.Moves(x, y)|
    ensures var (x', y') := w.Moves(x, y)[i];
            w.Inside(x', y') && w.H(x, y) <= w.StepCost(y) + w.H(x', y')
  {
    var (x', y') := w.Moves(x, y)[i];
    if w.cost == Life {
      HIsLifeH(w, x, y);
      HIsLifeH(w, x', y');
      hide World.H, LifeH;
      var dx, dx' := Dist(w.goalX, x), Dist(w.goalX, x');
      if y' == y { LifeAcross(dx, dx', y, w.goalY); }
      else if y' + 1 == y { LifeUp(dx, y, w.goalY); }
      else { LifeDown(dx, y, w.goalY); }
    }
  }

  lemma GoalIsZero(w: World)
    ensures w.H(w.goalX, w.goalY) == 0
  {
    if w.cost == Life {
      HIsLifeH(w, w.goalX, w.goalY);
    }
  }

  // ----- the grid as a state space -----

  /** States are cell numbers; numbers that are no cell have no successors. */
  function GraphOf(w: World): Graph {
    Graph(w.Id(w.startX, w.startY),
          (id: nat) => if w.width > 0 && id < w.width * w.height then w.Edges(id % w.width, id / w.width) else [],
          (id: nat) => if w.width > 0 then w.H(id % w.width, id / w.width) else 0,
          (id: nat) => id == w.Id(w.goalX, w.goalY))
  }

  lemma IdDecodes(w: World, x: nat, y: nat)
    requires w.Inside(x, y)
    ensures w.Id(x, y) < w.width * w.height
    ensures w.Id(x, y) % w.width == x && w.Id(x, y) / w.width == y
  {
    Remainder(w.Id(x, y), w.width, y, x);
    Grows(w.width, y + 1, w.height);
  }

  lemma Grows(k: nat, a: nat, b: nat)
    requires a <= b
    ensures k * a <= k * b
  {
  }

  lemma Remainder(a: nat, m: nat, q: nat, r: nat)
    requires a == m * q + r && r < m
    ensures a % m == r && a / m == q
  {
    assert a == m * (a / m) + a % m;
    Unique(m, q, r, a / m, a % m);
  }

  lemma Unique(m: nat, q: nat, r: nat, q': nat, r': nat)
    requires m * q + r == m * q' + r' && r < m && r' < m
    ensures q == q' && r == r'
  {
    if q < q' { Grows(m, q + 1, q'); } else if q' < q { Grows(m, q' + 1, q); }
  }

  lemma CellDecodes(w: World, id: nat)
    requires w.width > 0 && id < w.width * w.height
    ensures w.Inside(id % w.width, id / w.width) && w.Id(id % w.width, id / w.width) == id
  {
    if id / w.width >= w.height { Grows(w.width, w.height, id / w.width); }
    assert id == w.width * (id / w.width) + id % w.width;
  }

  /** An edge of the state space is a move, and the estimate is consistent along it. */
  lemma EdgeIsConsistent(w: World, id: nat, e: Edge)
    requires e in GraphOf(w).succ(id)
    ensures GraphOf(w).h(id) <= e.cost + GraphOf(w).h(e.to)
  {
    var x, y := id % w.width, id / w.width;
    CellDecodes(w, id);
    var i: nat :| i < |w.Edges(x, y)| && w.Edges(x, y)[i] == e;
    Consistent(w, x, y, i);
    var (x', y') := w.Moves(x, y)[i];
    IdDecodes(w, x', y');
  }

  /** The consistency that a search without reopening needs. */
  lemma HeuristicIsConsistent(w: World)
    ensures GraphOf(w).Consistent()
  {
    forall id: nat, e: Edge | e in GraphOf(w).succ(id) ensures GraphOf(w).h(id) <= e.cost + GraphOf(w).h(e.to) {
      EdgeIsConsistent(w, id, e);
    }
  }

  /** Whatever the obstacles, the estimate never exceeds the cost of a path to the goal. */
  lemma {:induction false} AdmissiblePath(w: World, id: nat, p: seq<Edge>)
    requires w.Valid() && GraphOf(w).IsSolution(id, p)
    ensures GraphOf(w).h(id) <= Cost(p)
    decreases |p|
  {
    if p == [] {
      IdDecodes(w, w.goalX, w.goalY);
      GoalIsZero(w);
    } else {
      EdgeIsConsistent(w, id, p[0]);
      AdmissiblePath(w, p[0].to, p[1..]);
    }
  }

  lemma HeuristicIsAdmissible(w: World)
    requires w.Valid()
    ensures GraphOf(w).Admissible()
  {
    forall id: nat, p: seq<Edge> | GraphOf(w).IsSolution(id, p) ensures GraphOf(w).h(id) <= Cost(p) {
      AdmissiblePath(w, id, p);
    }
  }

  // ----- the estimate is the true cost of an empty grid -----

  /** Without obstacles every neighbour inside the grid is a successor. */
  lemma EdgeTo(w: World, x: nat, y: nat, x': nat, y': nat)
    requires w.obstacles == {} && w.Inside(x, y) && w.Inside(x', y')
    requires Dist(x, x') + Dist(y, y') == 1
    ensures Edge(w.Id(x', y'), w.StepCost(y)) in GraphOf(w).succ(w.Id(x, y))
  {
    IdDecodes(w, x, y);
    var n := w.Moves(x, y);
    assert (x', y') in n;
    var i: nat :| i < |n| && n[i] == (x', y');
    assert w.Edges(x, y)[i] == Edge(w.Id(x', y'), w.StepCost(y));
  }

  /** Straight up or down. */
  lemma {:induction false} Vertical(w: World, x: nat, a: nat, b: nat) returns (p: seq<Edge>)
    requires w.obstacles == {} && w.Inside(x, a) && w.Inside(x, b)
    ensures GraphOf(w).IsPath(w.Id(x, a), p) && End(w.Id(x, a), p) == w.Id(x, b)
    ensures Cost(p) == if w.cost == Unit then Dist(a, b) * FP_ONE else RowSum(a, b) * FP_ONE
    decreases Dist(a, b)
  {
    hide GraphOf, World.Id;
    if a == b {
      p := [];
      EmptyPath(GraphOf(w), w.Id(x, a));
    } else {
      var c := if a > b then a - 1 else a + 1;
      var rest := Vertical(w, x, c, b);
      EdgeTo(w, x, a, x, c);
      var e := Edge(w.Id(x, c), w.StepCost(a));
      Prepend(GraphOf(w), w.Id(x, a), e, rest);
      p := [e] + rest;
    }
  }

  /** Straight to the left or to the right. */
  lemma {:induction false} Horizontal(w: World, a: nat, b: nat, y: nat) returns (p: seq<Edge>)
    requires w.obstacles == {} && w.Inside(a, y) && w.Inside(b, y)
    ensures GraphOf(w).IsPath(w.Id(a, y), p) && End(w.Id(a, y), p) == w.Id(b, y)
    ensures Cost(p) == Dist(b, a) * w.StepCost(y)
    decreases Dist(a, b)
  {
    hide GraphOf, World.Id, World.StepCost;
    if a == b {
      p := [];
      EmptyPath(GraphOf(w), w.Id(a, y));
    } else {
      var c := if a > b then a - 1 else a + 1;
      var rest := Horizontal(w, c, b, y);
      EdgeTo(w, a, y, c, y);
      var e := Edge(w.Id(c, y), w.StepCost(y));
      Prepend(GraphOf(w), w.Id(a, y), e, rest);
      p := [e] + rest;
      OneMore(Dist(b, a), Dist(b, c), w.StepCost(y));
    }
  }

  lemma OneMore(a: nat, b: nat, k: nat)
    requires a == b + 1
    ensures a * k == k + b * k
  {
  }

  lemma EmptyPath(gr: Graph, x: nat)
    ensures gr.IsPath(x, []) && End(x, []) == x && Cost([]) == 0
  {
  }

  /** Up, over and down, crossing in row `m`. */
  lemma Detour(w: World, x: nat, y: nat, m: nat) returns (p: seq<Edge>)
    requires w.Valid() && w.obstacles == {} && w.Inside(x, y) && m <= y && w.cost == Life
    ensures GraphOf(w).IsSolution(w.Id(x, y), p)
    ensures Cost(p) == Crossing(Dist(w.goalX, x), y, w.goalY, m) * FP_ONE
  {
    hide GraphOf, World.Id, Crossing, RowSum;
    var up := Vertical(w, x, y, m);
    var over := Horizontal(w, x, w.goalX, m);
    var down := Vertical(w, w.goalX, m, w.goalY);
    Concat(GraphOf(w), w.Id(x, y), up, over);
    Concat(GraphOf(w), w.Id(x, y), up + over, down);
    p := up + over + down;
    DetourCost(Dist(w.goalX, x), y, w.goalY, m);
    AtGoal(w);
  }

  lemma AtGoal(w: World)
    ensures GraphOf(w).goal(w.Id(w.goalX, w.goalY))
  {
  }

  lemma DetourCost(dx: nat, y: nat, gy: nat, m: nat)
    ensures RowSum(y, m) * FP_ONE + dx * (m * FP_ONE) + RowSum(m, gy) * FP_ONE == Crossing(dx, y, gy, m) * FP_ONE
  {
    hide RowSum;
  }

  /** On a grid without obstacles the estimate is exact: some path costs just that much. */
  lemma ExactWithoutObstacles(w: World, x: nat, y: nat) returns (p: seq<Edge>)
    requires w.Valid() && w.obstacles == {} && w.Inside(x, y)
    ensures GraphOf(w).IsSolution(w.Id(x, y), p) && Cost(p) == w.H(x, y)
    ensures GraphOf(w).h(w.Id(x, y)) == w.H(x, y)
  {
    IdDecodes(w, x, y);
    HAt(w, x, y);
    hide GraphOf, World.H, World.Id, Crossing;
    if w.cost == Life {
      HIsLifeH(w, x, y);
      var dx, top := Dist(w.goalX, x), Least(y, w.goalY);
      if Crossing(dx, y, w.goalY, 0) < Crossing(dx, y, w.goalY, top) {
        p := Detour(w, x, y, 0);
      } else {
        p := Detour(w, x, y, top);
      }
    } else {
      var over := Horizontal(w, x, w.goalX, y);
      var down := Vertical(w, w.goalX, y, w.goalY);
      Concat(GraphOf(w), w.Id(x, y), over, down);
      p := over + down;
      SameDist(y, w.goalY);
      AtGoal(w);
      UnitH(w, x, y);
    }
  }

  lemma HAt(w: World, x: nat, y: nat)
    requires w.Inside(x, y)
    ensures GraphOf(w).h(w.Id(x, y)) == w.H(x, y)
  {
    IdDecodes(w, x, y);
  }

  lemma UnitH(w: World, x: nat, y: nat)
    requires w.cost == Unit
    ensures w.H(x, y) == Dist(w.goalX, x) * w.StepCost(y) + Dist(w.goalY, y) * FP_ONE
  {
  }

  lemma SameDist(a: nat, b: nat)
    ensures Dist(a, b) == Dist(b, a)
  {
  }
}
