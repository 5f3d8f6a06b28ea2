/**
 Obstacles where the terrain map has no data.

 The grid of planar cells is swept in place a number of times; a cell without data grows by one in a sweep unless
 a neighbour holds less. The sweeps compute the Chebyshev distance to the nearest cell with enough data, cut off at
 one more than the number of sweeps.
 */
module TerrainErosion {

  const WIDTH := 51
  const COUNT := 2601

  function X(i: int): int { i / WIDTH }

  function Y(i: int): int { i % WIDTH }

  predicate Cell(i: int) { 0 <= i < COUNT }

  function Index(x: int, y: int): int { WIDTH * x + y }

  function Abs(n: int): nat { if n < 0 then -n else n }

  // The Chebyshev distance of two cells.
  function Apart(i: int, j: int): nat {
    var dx, dy := Abs(X(i) - X(j)), Abs(Y(i) - Y(j));
    if dx < dy then dy else dx
  }

  lemma IndexInverse(x: int, y: int)
    requires 0 <= x < WIDTH && 0 <= y < WIDTH
    ensures Cell(Index(x, y)) && X(Index(x, y)) == x && Y(Index(x, y)) == y
  {}

  lemma CellInverse(i: int)
    requires Cell(i)
    ensures 0 <= X(i) < WIDTH && 0 <= Y(i) < WIDTH && Index(X(i), Y(i)) == i
  {}

  // --------------------------------------------------------------------------
  // Distance to data

  // The cells with enough data.
  type Data = d: seq<bool> | |d| == COUNT witness seq(COUNT, _ => false)

  ghost predicate DataWithin(data: Data, i: int, d: int) {
    exists c :: Cell(c) && data[c] && Apart(i, c) <= d
  }

  // The distance from the cell to the nearest cell with data, but at most the cap.
  ghost function Distance(data: Data, i: int, cap: nat): (r: nat)
    ensures r <= cap && !DataWithin(data, i, r - 1)
    ensures r < cap ==> DataWithin(data, i, r)
  {
    if cap == 0 then 0 else
    var r := Distance(data, i, cap - 1);
    if r < cap - 1 || DataWithin(data, i, cap - 1) then r else cap
  }

  lemma WithinMonotone(data: Data, i: int, d: int, e: int)
    requires DataWithin(data, i, d) && d <= e
    ensures DataWithin(data, i, e)
  {
    var c :| Cell(c) && data[c] && Apart(i, c) <= d;
    assert Apart(i, c) <= e;
  }

  lemma DistanceBounds(data: Data, i: int, cap: nat, d: nat)
    ensures DataWithin(data, i, d) ==> Distance(data, i, cap) <= d
    ensures !DataWithin(data, i, d) && d < cap ==> Distance(data, i, cap) > d
  {
    var r := Distance(data, i, cap);
    if DataWithin(data, i, d) && r > d {
      WithinMonotone(data, i, d, r - 1);
    }
    if !DataWithin(data, i, d) && d < cap && r <= d {
      WithinMonotone(data, i, r, d);
    }
  }

  lemma NeighbourData(data: Data, i: int, n: int, d: nat)
    requires Apart(i, n) <= 1 && DataWithin(data, n, d)
    ensures DataWithin(data, i, d + 1)
  {
    var c :| Cell(c) && data[c] && Apart(n, c) <= d;
    assert Apart(i, c) <= d + 1;
  }

  function Sign(n: int): int { if n < 0 then -1 else if n > 0 then 1 else 0 }

  // Data at distance d + 1 is at distance d from some neighbour.
  lemma StepTowardsData(data: Data, i: int, d: nat) returns (n: int)
    requires Cell(i) && DataWithin(data, i, d + 1)
    ensures Cell(n) && Apart(i, n) <= 1 && DataWithin(data, n, d)
  {
    var c :| Cell(c) && data[c] && Apart(i, c) <= d + 1;
    CellInverse(i);
    CellInverse(c);
    var x, y := X(i) + Sign(X(c) - X(i)), Y(i) + Sign(Y(c) - Y(i));
    n := Index(x, y);
    IndexInverse(x, y);
    assert Apart(n, c) <= d;
  }

  // --------------------------------------------------------------------------
  // Sweeps

  type Grid = g: seq<int> | |g| == COUNT witness seq(COUNT, _ => 0)

  ghost predicate LowerNeighbour(g: Grid, i: int)
    requires Cell(i)
  {
    exists n :: Cell(n) && Apart(i, n) <= 1 && g[n] < g[i]
  }

  // What a sweep does to one cell.
  ghost function Relaxed(g: Grid, i: int): Grid
    requires Cell(i)
  {
    if g[i] >= 1 && !LowerNeighbour(g, i) then g[i := g[i] + 1] else g
  }

  ghost function Swept(g: Grid, order: seq<int>): Grid
    requires forall i :: i in order ==> Cell(i)
    decreases |order|
  {
    if order == [] then g else Swept(Relaxed(g, order[0]), order[1..])
  }

  // In the middle of a sweep: the cells done already hold the distance cut off one higher than the others.
  ghost predicate Between(data: Data, g: Grid, k: nat, done: set<int>) {
    forall i :: Cell(i) ==> g[i] == Distance(data, i, if i in done then k + 1 else k)
  }

  lemma RelaxedKeeps(data: Data, g: Grid, k: nat, done: set<int>, i: int)
    requires k >= 1 && Between(data, g, k, done) && Cell(i) && i !in done
    ensures Between(data, Relaxed(g, i), k, done + {i})
  {
    var v := Distance(data, i, k);
    DistanceBounds(data, i, k + 1, v);
    if v >= 1 {
      if DataWithin(data, i, v) {
        var n := StepTowardsData(data, i, v - 1);
        DistanceBounds(data, n, k, v - 1);
        DistanceBounds(data, n, k + 1, v - 1);
        assert LowerNeighbour(g, i);
      } else {
        forall n | Cell(n) && Apart(i, n) <= 1 ensures g[n] >= g[i] {
          if DataWithin(data, n, v - 1) {
            NeighbourData(data, i, n, v - 1);
          }
          DistanceBounds(data, n, k, v - 1);
          DistanceBounds(data, n, k + 1, v - 1);
        }
      }
    }
  }

  ghost function Elements(order: seq<int>): (e: set<int>)
    ensures forall i :: i in e <==> i in order
    decreases |order|
  {
    if order == [] then {} else {order[0]} + Elements(order[1..])
  }

  lemma {:induction false} SweptKeeps(data: Data, g: Grid, k: nat, done: set<int>, order: seq<int>)
    requires k >= 1 && Between(data, g, k, done)
    requires forall i :: i in order ==> Cell(i) && i !in done
    requires forall i, j :: 0 <= i < j < |order| ==> order[i] != order[j]
    ensures Between(data, Swept(g, order), k, done + Elements(order))
    decreases |order|
  {
    hide Between, Relaxed, Cell;
    if order == [] {
      assert done + Elements(order) == done;
    } else {
      var first, rest := order[0], order[1..];
      assert first in order && first !in rest;
      RelaxedKeeps(data, g, k, done, first);
      SweptKeeps(data, Relaxed(g, first), k, done + {first}, rest);
      assert done + {first} + Elements(rest) == done + Elements(order);
    }
  }

  // One in-place sweep over all cells, in whatever order, raises the cut-off of the distances by one.
  lemma AnySweepOrder(data: Data, g: Grid, k: nat, order: seq<int>)
    requires k >= 1 && forall i :: Cell(i) ==> g[i] == Distance(data, i, k)
    requires forall i :: i in order <==> Cell(i)
    requires forall i, j :: 0 <= i < j < |order| ==> order[i] != order[j]
    ensures forall i :: Cell(i) ==> Swept(g, order)[i] == Distance(data, i, k + 1)
  {
    SweptKeeps(data, g, k, {}, order);
    hide Swept, Distance;
  }

  // --------------------------------------------------------------------------
  // The code

  ghost function Enough(pointCounts: seq<nat>, minimum: int): Data
    requires |pointCounts| == COUNT
  {
    seq(COUNT, i requires 0 <= i < COUNT => pointCounts[i] >= minimum)
  }

  // The only cell with the coordinates, if they are on the grid.
  lemma CellAt(x: int, y: int)
    ensures 0 <= x < WIDTH && 0 <= y < WIDTH ==> Cell(Index(x, y)) && X(Index(x, y)) == x && Y(Index(x, y)) == y
    ensures forall m :: Cell(m) && X(m) == x && Y(m) == y ==> 0 <= x < WIDTH && 0 <= y < WIDTH && m == Index(x, y)
  {
    forall m | Cell(m) && X(m) == x && Y(m) == y
      ensures 0 <= x < WIDTH && 0 <= y < WIDTH && m == Index(x, y)
    {
      CellInverse(m);
    }
    if 0 <= x < WIDTH && 0 <= y < WIDTH {
      IndexInverse(x, y);
    }
  }

  method HasLowerNeighbour(edge: array<int>, i: int) returns (found: bool)
    requires edge.Length == COUNT && Cell(i)
    ensures found == LowerNeighbour(edge[..], i)
  {
    var indX, indY := i / WIDTH, i % WIDTH;
    CellInverse(i);
    found := false;
    for dX := -1 to 2
      invariant found ==> LowerNeighbour(edge[..], i)
      invariant !found ==> forall n :: Cell(n) && Apart(i, n) <= 1 && X(n) - indX < dX ==> edge[n] >= edge[i]
    {
      for dY := -1 to 2
        invariant found ==> LowerNeighbour(edge[..], i)
        invariant !found ==> forall n :: Cell(n) && Apart(i, n) <= 1 && X(n) - indX < dX ==> edge[n] >= edge[i]
        invariant !found ==>
          forall n :: Cell(n) && Apart(i, n) <= 1 && X(n) - indX == dX && Y(n) - indY < dY ==> edge[n] >= edge[i]
      {
        CellAt(indX + dX, indY + dY);
        if 0 <= indX + dX < WIDTH && 0 <= indY + dY < WIDTH {
          var n := WIDTH * (indX + dX) + indY + dY;
          if edge[n] < edge[i] {
            assert Apart(i, n) <= 1 && edge[..][n] < edge[..][i];
            found := true;
          }
        }
      }
    }
  }

  method Sweep(edge: array<int>, ghost data: Data, ghost k: nat)
    requires edge.Length == COUNT && k >= 1 && Between(data, edge[..], k, {})
    modifies edge
    ensures Between(data, edge[..], k + 1, {})
  {
    hide Distance, Between, Relaxed, LowerNeighbour;
    ghost var done := {};
    for i := 0 to COUNT
      invariant Between(data, edge[..], k, done) && forall j :: j in done <==> 0 <= j < i
    {
      RelaxedKeeps(data, edge[..], k, done, i);
      ghost var before := edge[..];
      if edge[i] >= 1 {
        var edgeVoxel := HasLowerNeighbour(edge, i);
        if !edgeVoxel {
          edge[i] := edge[i] + 1;
        }
      }
      RelaxedIs(before, edge[..], i);
      done := done + {i};
    }
    AllDone(data, edge[..], k, done);
  }

  lemma RelaxedIs(was: Grid, now: Grid, i: int)
    requires Cell(i) && now == if was[i] >= 1 && !LowerNeighbour(was, i) then was[i := was[i] + 1] else was
    ensures now == Relaxed(was, i)
  {}

  lemma AllDone(data: Data, g: Grid, k: nat, done: set<int>)
    requires Between(data, g, k, done) && forall i :: Cell(i) ==> i in done
    ensures Between(data, g, k + 1, {})
  {
    hide Distance;
  }

  // In the 51 by 51 grid, the cell is at most d cells away on either axis.
  predicate NoFarther(i: int, c: int, d: int) {
    -d <= c / 51 - i / 51 <= d && -d <= c % 51 - i % 51 <= d
  }

  // Some cell that is at most d cells away has at least the minimum of points.
  ghost predicate EnoughNear(pointCounts: seq<nat>, minimum: int, i: int, d: int)
    requires |pointCounts| == COUNT
  {
    exists c :: 0 <= c < 2601 && NoFarther(i, c, d) && pointCounts[c] >= minimum
  }

  // What it is for there to be enough data within a distance.
  lemma DataWithinMeans(pointCounts: seq<nat>, minimum: int, i: int, d: int)
    requires |pointCounts| == COUNT
    ensures DataWithin(Enough(pointCounts, minimum), i, d) <==> EnoughNear(pointCounts, minimum, i, d)
  {
    var data := Enough(pointCounts, minimum);
    if DataWithin(data, i, d) {
      var c :| Cell(c) && data[c] && Apart(i, c) <= d;
      assert NoFarther(i, c, d) && pointCounts[c] >= minimum;
    }
    if c :| 0 <= c < 2601 && NoFarther(i, c, d) && pointCounts[c] >= minimum {
      assert data[c] && Apart(i, c) <= d;
    }
  }

  method MarkEmpty(pointCounts: seq<nat>, minimum: int, edge: array<int>)
    requires |pointCounts| == COUNT && edge.Length == COUNT
    modifies edge
    ensures Between(Enough(pointCounts, minimum), edge[..], 1, {})
    ensures forall i :: Cell(i) ==> edge[i] == if pointCounts[i] < minimum then 1 else 0
  {
    for i := 0 to COUNT
      invariant forall j :: 0 <= j < i ==> edge[j] == 0
    {
      edge[i] := 0;
    }
    for i := 0 to COUNT
      invariant forall j :: 0 <= j < i ==> edge[j] == if pointCounts[j] < minimum then 1 else 0
      invariant forall j :: i <= j < COUNT ==> edge[j] == 0
    {
      if pointCounts[i] < minimum {
        edge[i] := 1;
      }
    }
    ghost var data := Enough(pointCounts, minimum);
    forall i | Cell(i) ensures edge[..][i] == Distance(data, i, 1) {
      ZeroDistance(data, i);
    }
  }

  method Collect(edge: array<int>, skip: int, ghost data: Data, ghost k: nat) returns (obstacles: seq<int>)
    requires edge.Length == COUNT && Between(data, edge[..], k, {})
    requires k >= 1 && (skip >= 0 ==> k == skip + 1)
    ensures forall i :: i in obstacles <==> Cell(i) && !DataWithin(data, i, skip)
    ensures forall i, j :: 0 <= i < j < |obstacles| ==> obstacles[i] < obstacles[j]
  {
    hide Distance, DataWithin, Between;
    BeyondSkip(data, edge[..], k, skip);
    obstacles := [];
    for i := 0 to COUNT
      invariant forall j :: j in obstacles <==> 0 <= j < i && edge[j] > skip
      invariant forall j, k :: 0 <= j < k < |obstacles| ==> obstacles[j] < obstacles[k]
    {
      if edge[i] > skip {
        assert forall j :: 0 <= j < |obstacles| ==> obstacles[j] in obstacles;
        obstacles := obstacles + [i];
      }
    }
  }

  lemma BeyondSkip(data: Data, g: Grid, k: nat, skip: int)
    requires k >= 1 && (skip >= 0 ==> k == skip + 1) && Between(data, g, k, {})
    ensures forall i :: Cell(i) ==> (g[i] > skip <==> !DataWithin(data, i, skip))
  {
    forall i | Cell(i)
      ensures g[i] > skip <==> !DataWithin(data, i, skip)
    {
      if skip >= 0 {
        DistanceBounds(data, i, k, skip);
      }
    }
  }

  // The cells reported as obstacles are, in ascending order, exactly those without enough data in any cell up to
  // the given distance.
  method NoDataObstacles(pointCounts: seq<nat>, minimum: int, skip: int, edge: array<int>) returns (obstacles: seq<int>)
    requires |pointCounts| == COUNT && edge.Length == COUNT
    modifies edge
    ensures var data := Enough(pointCounts, minimum);
      && (forall i :: 0 <= i < COUNT ==> edge[i] == Distance(data, i, if skip < 0 then 1 else skip + 1))
      && (forall i :: i in obstacles <==> Cell(i) && !DataWithin(data, i, skip))
      && (forall i, j :: 0 <= i < j < |obstacles| ==> obstacles[i] < obstacles[j])
    ensures forall i :: i in obstacles <==> 0 <= i < 2601 && !EnoughNear(pointCounts, minimum, i, skip)
  {
    ghost var data := Enough(pointCounts, minimum);
    MarkEmpty(pointCounts, minimum, edge);
    hide Enough, Distance, DataWithin, EnoughNear, Between;
    var count := 0;
    while count < skip
      invariant 0 <= count && (count <= skip || (skip < 0 && count == 0))
      invariant Between(data, edge[..], count + 1, {})
      decreases skip - count
    {
      Sweep(edge, data, count + 1);
      count := count + 1;
    }
    obstacles := Collect(edge, skip, data, count + 1);
    ObstaclesAre(pointCounts, minimum, edge[..], count + 1, skip, obstacles);
    hide Cell;
    assert forall i :: 0 <= i < COUNT ==> edge[i] == edge[..][i];
  }

  lemma ObstaclesAre(pointCounts: seq<nat>, minimum: int, g: Grid, k: nat, skip: int, obstacles: seq<int>)
    requires |pointCounts| == COUNT && Between(Enough(pointCounts, minimum), g, k, {})
    requires forall i :: i in obstacles <==> Cell(i) && !DataWithin(Enough(pointCounts, minimum), i, skip)
    ensures forall i :: 0 <= i < COUNT ==> g[i] == Distance(Enough(pointCounts, minimum), i, k)
    ensures forall i :: i in obstacles <==> 0 <= i < 2601 && !EnoughNear(pointCounts, minimum, i, skip)
  {
    hide Enough, Distance, DataWithin, EnoughNear;
    forall i | 0 <= i < COUNT
      ensures g[i] == Distance(Enough(pointCounts, minimum), i, k)
    {
      assert Cell(i);
    }
    forall i
      ensures DataWithin(Enough(pointCounts, minimum), i, skip) <==> EnoughNear(pointCounts, minimum, i, skip)
    {
      DataWithinMeans(pointCounts, minimum, i, skip);
    }
  }

  lemma ZeroDistance(data: Data, i: int)
    requires Cell(i)
    ensures Distance(data, i, 1) == if data[i] then 0 else 1
  {
    if data[i] {
      assert Apart(i, i) <= 0;
    } else {
      forall c | Cell(c) && data[c] ensures Apart(i, c) > 0 {
        CellInverse(i);
        CellInverse(c);
      }
    }
  }
}
