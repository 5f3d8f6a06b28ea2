/**
 Removing ceilings from the terrain map: a flood fill over the planar cells, from the cell under the vehicle.

 A visited cell judges the populated cells in a window around it: a small step in elevation connects, a large one
 excludes, anything between leaves the cell open. The first visited cell that connects or excludes a cell decides.
 */
module TerrainConnectivity {

  const WIDTH := 101
  const COUNT := 10201
  const REACH := 10
  const CENTRE := 5100

  predicate Cell(i: int) { 0 <= i < COUNT }

  function X(i: int): int { i / WIDTH }

  function Y(i: int): int { i % WIDTH }

  predicate Near(f: int, c: int) {
    -REACH <= X(c) - X(f) <= REACH && -REACH <= Y(c) - Y(f) <= REACH
  }

  lemma IndexInverse(x: int, y: int)
    requires 0 <= x < WIDTH && 0 <= y < WIDTH
    ensures Cell(WIDTH * x + y) && X(WIDTH * x + y) == x && Y(WIDTH * x + y) == y
  {}

  lemma CellInverse(i: int)
    requires Cell(i)
    ensures 0 <= X(i) < WIDTH && 0 <= Y(i) < WIDTH && WIDTH * X(i) + Y(i) == i
  {}

  datatype Terrain = Terrain(elevation: seq<real>, populated: seq<bool>, connect: real, ceiling: real)
  {
    predicate Valid() { |elevation| == COUNT && |populated| == COUNT }

    function Gap(f: int, c: int): real
      requires Valid() && Cell(f) && Cell(c)
    {
      var d := elevation[f] - elevation[c];
      if d < 0.0 then -d else d
    }
  }

  // What f says about c: 1 connects it, -1 excludes it, 0 leaves it open.
  function Judge(t: Terrain, f: int, c: int): int
    requires t.Valid() && Cell(f) && Cell(c)
  {
    if !Near(f, c) || !t.populated[c] then 0
    else if t.Gap(f, c) < t.connect then 1
    else if t.Gap(f, c) > t.ceiling then -1
    else 0
  }

  ghost predicate Cells(order: seq<int>) { forall k :: 0 <= k < |order| ==> Cell(order[k]) }

  // The first cell of the order that does not leave c open decides.
  function Verdict(t: Terrain, order: seq<int>, c: int): int
    requires t.Valid() && Cells(order) && Cell(c)
    decreases |order|
  {
    if order == [] then 0 else
    var last := |order| - 1;
    var v := Verdict(t, order[..last], c);
    if v != 0 then v else Judge(t, order[last], c)
  }

  // --------------------------------------------------------------------------
  // The state of the fill: the cells in the order in which they were queued, the first n of them visited

  // The cell has the verdict of the first m cells of the order.
  ghost predicate Settled(t: Terrain, conn: seq<int>, order: seq<int>, n: nat, c: int, m: nat)
    requires t.Valid() && |conn| == COUNT && Cells(order) && m <= n <= |order| && Cell(c)
  {
    var v := Verdict(t, order[..m], c);
    if c == CENTRE then conn[c] == if n == 0 then 1 else 2
    else if c in order then v == 1 && conn[c] == if c in order[..n] then 2 else 1
    else v != 1 && conn[c] == v
  }

  ghost predicate Distinct(order: seq<int>) {
    forall i, j :: 0 <= i < j < |order| ==> order[i] != order[j]
  }

  // Every queued cell but the first was connected by one queued before it.
  ghost predicate Discovered(t: Terrain, order: seq<int>)
    requires t.Valid() && Cells(order)
  {
    && order != [] && order[0] == CENTRE
    && forall k :: 0 < k < |order| ==> exists j :: 0 <= j < k && Judge(t, order[j], order[k]) == 1
  }

  // The cells looked at from the n-th cell have its verdict, the others not yet.
  ghost function Seen(n: nat, looked: set<int>, c: int): (m: nat)
    ensures m <= n
  {
    if n == 0 || c in looked then n else n - 1
  }

  ghost predicate AllSettled(t: Terrain, conn: seq<int>, order: seq<int>, n: nat, looked: set<int>)
    requires t.Valid() && |conn| == COUNT && Cells(order) && n <= |order|
  {
    forall c :: Cell(c) ==> Settled(t, conn, order, n, c, Seen(n, looked, c))
  }

  ghost predicate Filling(t: Terrain, conn: seq<int>, order: seq<int>, n: nat, looked: set<int>)
    requires t.Valid()
  {
    && |conn| == COUNT && Cells(order) && Distinct(order) && n <= |order| && Discovered(t, order)
    && AllSettled(t, conn, order, n, looked)
  }

  ghost function AllCells(): (s: set<int>)
    ensures forall c :: c in s <==> Cell(c)
  {
    set c | 0 <= c < COUNT && Cell(c)
  }

  ghost predicate Filled(t: Terrain, conn: seq<int>, order: seq<int>)
    requires t.Valid()
  {
    Filling(t, conn, order, |order|, AllCells())
  }

  lemma VerdictOfNext(t: Terrain, order: seq<int>, n: nat, c: int)
    requires t.Valid() && Cells(order) && 0 < n <= |order| && Cell(c)
    ensures var v := Verdict(t, order[..n - 1], c);
      Verdict(t, order[..n], c) == if v != 0 then v else Judge(t, order[n - 1], c)
  {
    assert order[..n][..n - 1] == order[..n - 1];
  }

  lemma StartFilling(t: Terrain, conn: seq<int>)
    requires t.Valid() && |conn| == COUNT && forall c :: Cell(c) ==> conn[c] == if c == CENTRE then 1 else 0
    ensures Filling(t, conn, [CENTRE], 0, AllCells())
  {}

  // The front cell is visited; nothing has been looked at from it yet.
  lemma VisitKeeps(t: Terrain, conn: seq<int>, order: seq<int>, n: nat, c: int)
    requires t.Valid() && |conn| == COUNT && Cells(order) && Distinct(order) && order != [] && order[0] == CENTRE
    requires n < |order| && Cell(c) && Settled(t, conn, order, n, c, n)
    ensures Settled(t, conn[order[n] := 2], order, n + 1, c, n)
  {
    hide Verdict;
    assert order[..n + 1] == order[..n] + [order[n]];
    assert n > 0 ==> order[n] != CENTRE;
  }

  lemma Visit(t: Terrain, conn: seq<int>, order: seq<int>, n: nat)
    requires t.Valid() && Filling(t, conn, order, n, AllCells()) && n < |order|
    ensures Filling(t, conn[order[n] := 2], order, n + 1, {})
  {
    assert order[0] == CENTRE;
    hide Settled, Discovered;
    forall c | Cell(c) ensures Settled(t, conn[order[n] := 2], order, n + 1, c, n) {
      assert Settled(t, conn, order, n, c, Seen(n, AllCells(), c));
      VisitKeeps(t, conn, order, n, c);
    }
  }

  // What looking at c from the front cell does to the marks and the queue.
  function Marked(t: Terrain, conn: seq<int>, front: int, c: int): seq<int>
    requires t.Valid() && |conn| == COUNT && Cell(front) && Cell(c)
  {
    if conn[c] == 0 then conn[c := Judge(t, front, c)] else conn
  }

  function Queued(t: Terrain, conn: seq<int>, order: seq<int>, front: int, c: int): seq<int>
    requires t.Valid() && |conn| == COUNT && Cell(front) && Cell(c)
  {
    if conn[c] == 0 && Judge(t, front, c) == 1 then order + [c] else order
  }

  // Looking at one cell settles it and leaves the others as they are.
  lemma LookKeeps(t: Terrain, conn: seq<int>, order: seq<int>, n: nat, c: int, d: int, m: nat)
    requires t.Valid() && |conn| == COUNT && Cells(order) && 0 < n <= |order| && order[0] == CENTRE
    requires Cell(c) && Cell(d) && n - 1 <= m <= n
    requires Settled(t, conn, order, n, c, n - 1) && Settled(t, conn, order, n, d, m)
    ensures var next := Queued(t, conn, order, order[n - 1], c);
      && Cells(next) && next[..n] == order[..n]
      && Settled(t, Marked(t, conn, order[n - 1], c), next, n, d, if c == d then n else m)
  {
    var next := Queued(t, conn, order, order[n - 1], c);
    assert next[..n] == order[..n] && next[..n - 1] == order[..n - 1];
    VerdictOfNext(t, order, n, c);
    hide Verdict, Judge;
  }

  lemma LookSettles(t: Terrain, conn: seq<int>, order: seq<int>, n: nat, looked: set<int>, c: int)
    requires t.Valid() && |conn| == COUNT && Cells(order) && 0 < n <= |order| && order[0] == CENTRE
    requires AllSettled(t, conn, order, n, looked) && Cell(c) && c !in looked
    ensures var next := Queued(t, conn, order, order[n - 1], c);
      && Cells(next) && AllSettled(t, Marked(t, conn, order[n - 1], c), next, n, looked + {c})
      && (next != order ==> c !in order)
  {
    var front := order[n - 1];
    var next := Queued(t, conn, order, front, c);
    assert Settled(t, conn, order, n, c, Seen(n, looked, c));
    LookKeeps(t, conn, order, n, c, c, n - 1);
    forall d | Cell(d)
      ensures Settled(t, Marked(t, conn, front, c), next, n, d, Seen(n, looked + {c}, d))
    {
      assert Settled(t, conn, order, n, d, Seen(n, looked, d));
      LookKeeps(t, conn, order, n, c, d, Seen(n, looked, d));
    }
  }

  lemma Look(t: Terrain, conn: seq<int>, order: seq<int>, n: nat, looked: set<int>, c: int)
    requires t.Valid() && Filling(t, conn, order, n, looked) && 0 < n && Cell(c) && c !in looked
    ensures var front := order[n - 1];
      Filling(t, Marked(t, conn, front, c), Queued(t, conn, order, front, c), n, looked + {c})
  {
    LookSettles(t, conn, order, n, looked, c);
    hide AllSettled;
    if conn[c] == 0 && Judge(t, order[n - 1], c) == 1 {
      assert c !in order;
      DiscoversOne(t, order, c, n - 1);
      DistinctOneMore(order, c);
    }
    hide Discovered, Distinct, Judge;
  }

  lemma DistinctOneMore(order: seq<int>, c: int)
    requires Distinct(order) && c !in order
    ensures Distinct(order + [c])
  {}

  lemma DiscoversOne(t: Terrain, order: seq<int>, c: int, j: nat)
    requires t.Valid() && Cells(order) && Cell(c) && Discovered(t, order) && j < |order| && Judge(t, order[j], c) == 1
    ensures Cells(order + [c]) && Discovered(t, order + [c])
  {
    var next := order + [c];
    hide Judge;
    forall k | 0 < k < |next| ensures exists i :: 0 <= i < k && Judge(t, next[i], next[k]) == 1 {
      if k < |order| {
        var i :| 0 <= i < k && Judge(t, order[i], order[k]) == 1;
        assert Judge(t, next[i], next[k]) == 1;
      } else {
        assert Judge(t, next[j], next[k]) == 1;
      }
    }
  }

  // A cell out of the window is left open.
  lemma LookAway(t: Terrain, conn: seq<int>, order: seq<int>, n: nat, looked: set<int>, more: set<int>)
    requires t.Valid() && Filling(t, conn, order, n, looked) && 0 < n
    requires forall c :: c in more && Cell(c) ==> !Near(order[n - 1], c)
    ensures Filling(t, conn, order, n, looked + more)
  {
    hide Verdict, Discovered;
    forall c | Cell(c) ensures Settled(t, conn, order, n, c, Seen(n, looked + more, c)) {
      assert Settled(t, conn, order, n, c, Seen(n, looked, c));
      VerdictOfNext(t, order, n, c);
    }
  }

  // --------------------------------------------------------------------------
  // The order in which the cells are visited, as a function of the terrain

  // After the visits before it, the front cell connects c, and none of them has decided about c.
  predicate Connects(t: Terrain, before: seq<int>, front: int, c: int)
    requires t.Valid() && Cells(before) && Cell(front) && Cell(c)
  {
    c != CENTRE && Verdict(t, before, c) == 0 && Judge(t, front, c) == 1
  }

  // Of the cells looked at, those below m that the front cell connects, in ascending order.
  ghost function Picked(t: Terrain, before: seq<int>, front: int, looked: set<int>, m: nat): (picked: seq<int>)
    requires t.Valid() && Cells(before) && Cell(front) && m <= COUNT
    ensures Cells(picked)
  {
    if m == 0 then [] else
    Picked(t, before, front, looked, m - 1)
    + if m - 1 in looked && Connects(t, before, front, m - 1) then [m - 1] else []
  }

  // The queue, with the cells that have left it, after n visits.
  ghost function Visits(t: Terrain, n: nat): (order: seq<int>)
    requires t.Valid()
    ensures Cells(order) && order != [] && order[0] == CENTRE
  {
    if n == 0 then [CENTRE] else
    var q := Visits(t, n - 1);
    if n - 1 < |q| then q + Picked(t, q[..n - 1], q[n - 1], AllCells(), COUNT) else q
  }

  // All cells visited, in order.
  ghost function VisitOrder(t: Terrain): (order: seq<int>)
    requires t.Valid()
    ensures Cells(order)
  {
    Visits(t, COUNT)
  }

  // The order so far is that of the n-1 first visits and of what was picked among the cells looked at since.
  ghost predicate InTurn(t: Terrain, order: seq<int>, n: nat, looked: set<int>)
    requires t.Valid()
  {
    if n == 0 then order == [CENTRE] else
    var q := Visits(t, n - 1);
    n - 1 < |q| && order == q + Picked(t, q[..n - 1], q[n - 1], looked, COUNT)
  }

  lemma InTurnAfterVisit(t: Terrain, order: seq<int>, n: nat)
    requires t.Valid() && InTurn(t, order, n, AllCells())
    ensures order == Visits(t, n)
  {}

  lemma {:induction false} NothingPicked(t: Terrain, before: seq<int>, front: int, m: nat)
    requires t.Valid() && Cells(before) && Cell(front) && m <= COUNT
    ensures Picked(t, before, front, {}, m) == []
  {
    if m > 0 {
      NothingPicked(t, before, front, m - 1);
    }
  }

  lemma VisitInTurn(t: Terrain, order: seq<int>, n: nat)
    requires t.Valid() && InTurn(t, order, n, AllCells()) && n < |order|
    ensures InTurn(t, order, n + 1, {})
  {
    InTurnAfterVisit(t, order, n);
    var q := Visits(t, n);
    NothingPicked(t, q[..n], q[n], COUNT);
    hide Picked, Visits;
    assert q + [] == q;
  }

  // Looking at a cell above all those looked at picks it last, if at all.
  lemma {:induction false} PickedOneMore(t: Terrain, before: seq<int>, front: int, looked: set<int>, c: int, m: nat)
    requires t.Valid() && Cells(before) && Cell(front) && m <= COUNT && Cell(c) && forall e <- looked :: e < c
    ensures Picked(t, before, front, looked + {c}, m)
         == Picked(t, before, front, looked, m) + if c < m && Connects(t, before, front, c) then [c] else []
  {
    hide Connects, Verdict, Judge;
    if m > 0 {
      PickedOneMore(t, before, front, looked, c, m - 1);
    }
  }

  lemma {:induction false} PickedSame(t: Terrain, before: seq<int>, front: int, looked: set<int>, more: set<int>,
                                      m: nat)
    requires t.Valid() && Cells(before) && Cell(front) && m <= COUNT
    requires forall e <- more :: Cell(e) ==> Judge(t, front, e) != 1
    ensures Picked(t, before, front, looked + more, m) == Picked(t, before, front, looked, m)
  {
    hide Verdict, Judge;
    if m > 0 {
      PickedSame(t, before, front, looked, more, m - 1);
    }
  }

  // A cell not yet looked at is open if and only if the visits before the last one leave it open.
  lemma OpenIffUndecided(t: Terrain, conn: seq<int>, order: seq<int>, n: nat, looked: set<int>, c: int)
    requires t.Valid() && Filling(t, conn, order, n, looked) && 0 < n && Cell(c) && c !in looked
    ensures conn[c] == 0 <==> c != CENTRE && Verdict(t, order[..n - 1], c) == 0
  {
    hide Verdict, Discovered, Distinct;
    assert Settled(t, conn, order, n, c, Seen(n, looked, c));
  }

  lemma LookInTurn(t: Terrain, conn: seq<int>, order: seq<int>, n: nat, looked: set<int>, c: int)
    requires t.Valid() && Filling(t, conn, order, n, looked) && 0 < n && Cell(c) && c !in looked
    requires InTurn(t, order, n, looked) && forall e <- looked :: e < c
    ensures InTurn(t, Queued(t, conn, order, order[n - 1], c), n, looked + {c})
  {
    hide Verdict, Judge, AllSettled, Discovered, Distinct, Picked;
    var q := Visits(t, n - 1);
    OpenIffUndecided(t, conn, order, n, looked, c);
    PickedOneMore(t, q[..n - 1], q[n - 1], looked, c, COUNT);
    assert order[..n - 1] == q[..n - 1] && order[n - 1] == q[n - 1];
    hide Filling, Visits;
  }

  lemma LookKeepsBoth(t: Terrain, conn: seq<int>, order: seq<int>, n: nat, looked: set<int>, c: int)
    requires t.Valid() && Filling(t, conn, order, n, looked) && 0 < n && Cell(c) && c !in looked
    requires InTurn(t, order, n, looked) && forall e <- looked :: e < c
    ensures var front := order[n - 1];
      && Filling(t, Marked(t, conn, front, c), Queued(t, conn, order, front, c), n, looked + {c})
      && InTurn(t, Queued(t, conn, order, front, c), n, looked + {c})
  {
    LookInTurn(t, conn, order, n, looked, c);
    hide InTurn;
    Look(t, conn, order, n, looked, c);
  }

  lemma VisitKeepsBoth(t: Terrain, conn: seq<int>, order: seq<int>, n: nat)
    requires t.Valid() && Filling(t, conn, order, n, AllCells()) && n < |order| && InTurn(t, order, n, AllCells())
    ensures Filling(t, conn[order[n] := 2], order, n + 1, {}) && InTurn(t, order, n + 1, {})
    ensures Open(conn[order[n] := 2]) == Open(conn)
  {
    VisitInTurn(t, order, n);
    hide InTurn;
    OpenAfterVisit(t, conn, order, n);
    Visit(t, conn, order, n);
  }

  lemma LookAwayInTurn(t: Terrain, order: seq<int>, n: nat, looked: set<int>, more: set<int>)
    requires t.Valid() && Cells(order) && 0 < n <= |order| && InTurn(t, order, n, looked)
    requires forall c :: c in more && Cell(c) ==> !Near(order[n - 1], c)
    ensures InTurn(t, order, n, looked + more)
  {
    var q := Visits(t, n - 1);
    assert order[n - 1] == q[n - 1];
    hide Visits, Picked;
    PickedSame(t, q[..n - 1], q[n - 1], looked, more, COUNT);
  }

  ghost function FirstNumbers(m: nat): (numbers: set<int>)
    ensures |numbers| == m && forall c :: c in numbers <==> 0 <= c < m
  {
    if m == 0 then {} else FirstNumbers(m - 1) + {m - 1}
  }

  ghost function Elements(order: seq<int>): set<int> { set c | c in order }

  lemma {:induction false} DistinctElements(order: seq<int>)
    requires Distinct(order)
    ensures |Elements(order)| == |order|
    decreases |order|
  {
    if order != [] {
      var last := |order| - 1;
      DistinctElements(order[..last]);
      assert Elements(order) == Elements(order[..last]) + {order[last]};
    }
  }

  // No cell is visited twice, so there are no more visits than cells.
  lemma NoMoreThanAll(order: seq<int>)
    requires Cells(order) && Distinct(order)
    ensures |order| <= COUNT
  {
    DistinctElements(order);
    assert Elements(order) <= FirstNumbers(COUNT);
    SubsetIsSmaller(Elements(order), FirstNumbers(COUNT));
  }

  lemma {:induction false} SubsetIsSmaller(a: set<int>, b: set<int>)
    requires a <= b
    ensures |a| <= |b|
  {
    assert b == a + (b - a);
  }

  lemma {:induction false} VisitsAreDone(t: Terrain, n: nat, m: nat)
    requires t.Valid() && |Visits(t, n)| == n <= m
    ensures Visits(t, m) == Visits(t, n)
    decreases m
  {
    hide Picked, AllCells;
    if n < m {
      VisitsAreDone(t, n, m - 1);
    }
  }

  // When the queue is empty, the cells visited are all that are ever visited.
  lemma EmptyQueueIsVisitOrder(t: Terrain, conn: seq<int>, order: seq<int>)
    requires t.Valid() && Filled(t, conn, order) && InTurn(t, order, |order|, AllCells())
    ensures order == VisitOrder(t)
  {
    hide AllSettled, Discovered, Visits, Picked;
    InTurnAfterVisit(t, order, |order|);
    NoMoreThanAll(order);
    VisitsAreDone(t, |order|, COUNT);
  }

  // --------------------------------------------------------------------------
  // The code

  class Fill {
    const planarVoxelConn: array<int>
    var planarVoxelQueue: seq<int>
    ghost var order: seq<int>

    ghost predicate State(t: Terrain, n: nat, looked: set<int>)
      reads this, planarVoxelConn
      requires t.Valid()
    {
      && planarVoxelConn.Length == COUNT && n <= |order| && Cells(order)
      && Filling(t, planarVoxelConn[..], order, n, looked) && InTurn(t, order, n, looked)
      && planarVoxelQueue == order[n..]
    }

    method LookAt(t: Terrain, front: int, c: int, ghost n: nat, ghost looked: set<int>)
      requires t.Valid() && 0 < n && State(t, n, looked) && order[n - 1] == front
      requires Cell(c) && c !in looked && Near(front, c) && forall e <- looked :: e < c
      modifies this, planarVoxelConn
      ensures State(t, n, looked + {c})
      ensures Progress(old(order), old(planarVoxelConn[..]), order, planarVoxelConn[..])
    {
      hide Filling, InTurn, Judge, Near, Progress, Open;
      ghost var conn, was := planarVoxelConn[..], order;
      LookKeepsBoth(t, conn, was, n, looked, c);
      JudgeCases(t, front, c);
      ProgressRefl(was, conn);
      if planarVoxelConn[c] == 0 && t.populated[c] {
        var gap := t.Gap(front, c);
        if gap < t.connect {
          planarVoxelQueue := planarVoxelQueue + [c];
          order := order + [c];
          planarVoxelConn[c] := 1;
          OpenShrinks(was, conn, c, 1);
        } else if gap > t.ceiling {
          planarVoxelConn[c] := -1;
          OpenShrinks(was, conn, c, -1);
        }
      }
      assert planarVoxelConn[..] == Marked(t, conn, front, c);
      assert order == Queued(t, conn, was, front, c);
    }

    // One cell of the window, if it is on the grid.
    method ScanCell(t: Terrain, front: int, dX: int, dY: int, ghost n: nat, ghost before: set<int>)
      returns (ghost looked: set<int>)
      requires t.Valid() && 0 < n && State(t, n, before) && order[n - 1] == front && Cell(front)
      requires -REACH <= dX <= REACH && -REACH <= dY <= REACH
      requires forall c :: c in before <==> Cell(c) && Before(front, dX, dY, c)
      modifies this, planarVoxelConn
      ensures State(t, n, looked) && order[n - 1] == front
      ensures forall c :: c in looked <==> Cell(c) && Before(front, dX, dY + 1, c)
      ensures Progress(old(order), old(planarVoxelConn[..]), order, planarVoxelConn[..])
    {
      var indX, indY := front / WIDTH, front % WIDTH;
      NextBefore(front, indX, indY, dX, dY);
      ProgressRefl(order, planarVoxelConn[..]);
      hide Filling, InTurn, Before, Near, Cells, Progress;
      looked := before;
      if 0 <= indX + dX < WIDTH && 0 <= indY + dY < WIDTH {
        var c := WIDTH * (indX + dX) + indY + dY;
        BeforeIsLess(front, indX, indY, dX, dY);
        ghost var was, conn := order, planarVoxelConn[..];
        LookAt(t, front, c, n, looked);
        ProgressExtends(was, conn, order, planarVoxelConn[..]);
        looked := looked + {c};
      }
    }

    // One row of the window.
    method ScanRow(t: Terrain, front: int, dX: int, ghost n: nat, ghost before: set<int>)
      returns (ghost looked: set<int>)
      requires t.Valid() && 0 < n && State(t, n, before) && order[n - 1] == front && Cell(front)
      requires -REACH <= dX <= REACH
      requires forall c :: c in before <==> Cell(c) && Before(front, dX, -REACH, c)
      modifies this, planarVoxelConn
      ensures State(t, n, looked) && forall c :: c in looked <==> Cell(c) && Before(front, dX + 1, -REACH, c)
      ensures order[n - 1] == front
      ensures Progress(old(order), old(planarVoxelConn[..]), order, planarVoxelConn[..])
    {
      hide Filling, InTurn, Cells, Before, Progress;
      ProgressRefl(order, planarVoxelConn[..]);
      looked := before;
      for dY := -REACH to REACH + 1
        invariant State(t, n, looked) && order[n - 1] == front
        invariant Progress(old(order), old(planarVoxelConn[..]), order, planarVoxelConn[..])
        invariant forall c :: c in looked <==> Cell(c) && Before(front, dX, dY, c)
      {
        ghost var was, conn := order, planarVoxelConn[..];
        looked := ScanCell(t, front, dX, dY, n, looked);
        ProgressTrans(old(order), old(planarVoxelConn[..]), was, conn, order, planarVoxelConn[..]);
      }
      RowDone(front, dX, dX + 1, -REACH, REACH + 1);
    }

    // Looks at every cell of the window around the front cell.
    method ScanWindow(t: Terrain, front: int, ghost n: nat)
      requires t.Valid() && 0 < n && State(t, n, {}) && order[n - 1] == front && Cell(front)
      modifies this, planarVoxelConn
      ensures State(t, n, AllCells())
      ensures Progress(old(order), old(planarVoxelConn[..]), order, planarVoxelConn[..])
    {
      hide Filling, InTurn, Cells, Before, Progress;
      ProgressRefl(order, planarVoxelConn[..]);
      NothingBefore(front, -REACH, REACH + 1);
      ghost var looked := {};
      for dX := -REACH to REACH + 1
        invariant State(t, n, looked) && order[n - 1] == front
        invariant Progress(old(order), old(planarVoxelConn[..]), order, planarVoxelConn[..])
        invariant forall c :: c in looked <==> Cell(c) && Before(front, dX, -REACH, c)
      {
        ghost var was, conn := order, planarVoxelConn[..];
        looked := ScanRow(t, front, dX, n, looked);
        ProgressTrans(old(order), old(planarVoxelConn[..]), was, conn, order, planarVoxelConn[..]);
      }
      LookAway(t, planarVoxelConn[..], order, n, looked, AllCells() - looked);
      FillingIsOrdered(t, planarVoxelConn[..], order, n, looked);
      LookAwayInTurn(t, order, n, looked, AllCells() - looked);
      assert looked + (AllCells() - looked) == AllCells();
    }

    // Visits the queued cells, first come first served, until none is left.
    method Spread(t: Terrain)
      requires t.Valid() && State(t, 0, AllCells())
      modifies this, planarVoxelConn
      ensures planarVoxelQueue == [] && planarVoxelConn.Length == COUNT && Filled(t, planarVoxelConn[..], order)
      ensures order == VisitOrder(t)
    {
      hide Filling, InTurn, AllCells, Open;
      ghost var n := 0;
      while planarVoxelQueue != []
        invariant State(t, n, AllCells())
        decreases Open(planarVoxelConn[..]), |planarVoxelQueue|
      {
        var front := planarVoxelQueue[0];
        assert front == order[n];
        VisitKeepsBoth(t, planarVoxelConn[..], order, n);
        planarVoxelConn[front] := 2;
        planarVoxelQueue := planarVoxelQueue[1..];
        n := n + 1;
        ScanWindow(t, front, n);
      }
      assert n == |order|;
      EmptyQueueIsVisitOrder(t, planarVoxelConn[..], order);
    }

    // The whole fill, from the cell under the vehicle; without points there, the ground below the vehicle counts.
    method FloodFill(elevation: array<real>, pointCounts: seq<nat>, ground: real, connect: real, ceiling: real)
      returns (t: Terrain)
      requires elevation.Length == planarVoxelConn.Length == |pointCounts| == COUNT && planarVoxelQueue == []
      modifies this, planarVoxelConn, elevation
      ensures elevation[..]
           == if pointCounts[CENTRE] == 0 then old(elevation[..])[CENTRE := ground] else old(elevation[..])
      ensures t == Terrain(elevation[..], seq(COUNT, i requires 0 <= i < COUNT => pointCounts[i] > 0), connect, ceiling)
      ensures planarVoxelQueue == [] && Filled(t, planarVoxelConn[..], order) && order == VisitOrder(t)
      ensures MarksMean(t, planarVoxelConn[..])
    {
      for i := 0 to COUNT
        invariant forall j :: 0 <= j < i ==> planarVoxelConn[j] == 0
        invariant planarVoxelQueue == [] && elevation[..] == old(elevation[..])
      {
        planarVoxelConn[i] := 0;
      }
      if pointCounts[CENTRE] == 0 {
        elevation[CENTRE] := ground;
      }
      t := Terrain(elevation[..], seq(COUNT, i requires 0 <= i < COUNT => pointCounts[i] > 0), connect, ceiling);
      planarVoxelQueue, order := planarVoxelQueue + [CENTRE], [CENTRE];
      planarVoxelConn[CENTRE] := 1;
      StartFilling(t, planarVoxelConn[..]);
      hide Filling, Visits, MarksMean;
      Spread(t);
      FilledMeans(t, planarVoxelConn[..], order);
    }
  }

  predicate Before(front: int, dX: int, dY: int, c: int) {
    Near(front, c) && (X(c) - X(front) < dX || (X(c) - X(front) == dX && Y(c) - Y(front) < dY))
  }

  lemma NextBefore(front: int, x: int, y: int, dX: int, dY: int)
    requires Cell(front) && x == X(front) && y == Y(front) && -REACH <= dX <= REACH && -REACH <= dY <= REACH
    ensures var c := WIDTH * (x + dX) + y + dY;
      if 0 <= x + dX < WIDTH && 0 <= y + dY < WIDTH then
        && Cell(c) && Near(front, c) && !Before(front, dX, dY, c)
        && forall e :: Cell(e) ==> (Before(front, dX, dY + 1, e) <==> Before(front, dX, dY, e) || e == c)
      else
        forall e :: Cell(e) ==> (Before(front, dX, dY + 1, e) <==> Before(front, dX, dY, e))
  {
    if 0 <= x + dX < WIDTH && 0 <= y + dY < WIDTH {
      IndexInverse(x + dX, y + dY);
    }
    forall e | Cell(e) && Before(front, dX, dY + 1, e) && !Before(front, dX, dY, e)
      ensures 0 <= x + dX < WIDTH && 0 <= y + dY < WIDTH && e == WIDTH * (x + dX) + y + dY
    {
      CellInverse(e);
    }
  }

  // The scan goes through the window in ascending order.
  lemma BeforeIsLess(front: int, x: int, y: int, dX: int, dY: int)
    requires Cell(front) && x == X(front) && y == Y(front)
    requires 0 <= x + dX < WIDTH && 0 <= y + dY < WIDTH
    ensures forall e :: Cell(e) && Before(front, dX, dY, e) ==> e < WIDTH * (x + dX) + y + dY
  {
    forall e | Cell(e) && Before(front, dX, dY, e)
      ensures e < WIDTH * (x + dX) + y + dY
    {
      CellInverse(e);
    }
  }

  lemma FillingIsOrdered(t: Terrain, conn: seq<int>, order: seq<int>, n: nat, looked: set<int>)
    requires t.Valid() && Filling(t, conn, order, n, looked)
    ensures Cells(order) && n <= |order|
  {}

  lemma NothingBefore(front: int, first: int, end: int)
    requires first == -REACH && end == REACH + 1
    ensures forall c :: !Before(front, first, first, c)
    ensures forall c :: Before(front, end, first, c) <==> Near(front, c)
  {}

  lemma RowDone(front: int, dX: int, next: int, first: int, end: int)
    requires next == dX + 1 && first == -REACH && end == REACH + 1
    ensures forall c :: Before(front, dX, end, c) <==> Before(front, next, first, c)
  {}

  lemma OpenAfterVisit(t: Terrain, conn: seq<int>, order: seq<int>, n: nat)
    requires t.Valid() && Filling(t, conn, order, n, AllCells()) && n < |order|
    ensures Open(conn[order[n] := 2]) == Open(conn)
  {
    assert Settled(t, conn, order, n, order[n], Seen(n, AllCells(), order[n]));
    assert order[n] in order;
  }

  // The cells neither queued nor excluded yet.
  ghost function Open(conn: seq<int>): set<int> {
    set c | 0 <= c < |conn| && conn[c] == 0
  }

  // The order only grows, and each cell that joins it was open.
  ghost predicate Progress(order: seq<int>, conn: seq<int>, later: seq<int>, laterConn: seq<int>) {
    order <= later && Open(laterConn) <= Open(conn) && (order != later ==> Open(laterConn) != Open(conn))
  }

  lemma ProgressRefl(order: seq<int>, conn: seq<int>)
    ensures Progress(order, conn, order, conn)
  {}

  lemma ProgressTrans(o1: seq<int>, c1: seq<int>, o2: seq<int>, c2: seq<int>, o3: seq<int>, c3: seq<int>)
    requires Progress(o1, c1, o2, c2) && Progress(o2, c2, o3, c3)
    ensures Progress(o1, c1, o3, c3) && o2 <= o3
  {}

  lemma ProgressExtends(o1: seq<int>, c1: seq<int>, o2: seq<int>, c2: seq<int>)
    requires Progress(o1, c1, o2, c2)
    ensures o1 <= o2
  {}

  lemma OpenShrinks(order: seq<int>, conn: seq<int>, c: int, v: int)
    requires 0 <= c < |conn| && conn[c] == 0 && v != 0
    ensures Progress(order, conn, order, conn[c := v]) && Progress(order, conn, order + [c], conn[c := v])
  {
    assert Open(conn[c := v]) == Open(conn) - {c} && c in Open(conn);
  }

  lemma JudgeCases(t: Terrain, f: int, c: int)
    requires t.Valid() && Cell(f) && Cell(c) && Near(f, c)
    ensures !t.populated[c] ==> Judge(t, f, c) == 0
    ensures t.populated[c] && t.Gap(f, c) < t.connect ==> Judge(t, f, c) == 1
    ensures t.populated[c] && t.Gap(f, c) >= t.connect && t.Gap(f, c) > t.ceiling ==> Judge(t, f, c) == -1
    ensures t.populated[c] && t.connect <= t.Gap(f, c) <= t.ceiling ==> Judge(t, f, c) == 0
  {}

  // --------------------------------------------------------------------------
  // What a judgement means for the elevations

  // The cell is in the window of 21 by 21 cells around another one, on the grid of 101 by 101.
  predicate InWindow(f: int, c: int) {
    -10 <= c / 101 - f / 101 <= 10 && -10 <= c % 101 - f % 101 <= 10
  }

  // One cell is less than the height above the other, and less than the height below it.
  predicate Within(t: Terrain, f: int, c: int, height: real)
    requires t.Valid() && Cell(f) && Cell(c)
  {
    -height < t.elevation[c] - t.elevation[f] < height
  }

  // One cell is more than the height above or below the other.
  predicate Beyond(t: Terrain, f: int, c: int, height: real)
    requires t.Valid() && Cell(f) && Cell(c)
  {
    t.elevation[c] > t.elevation[f] + height || t.elevation[c] < t.elevation[f] - height
  }

  lemma JudgeMeans(t: Terrain, f: int, c: int)
    requires t.Valid() && Cell(f) && Cell(c)
    ensures Judge(t, f, c) == 1 <==> InWindow(f, c) && t.populated[c] && Within(t, f, c, t.connect)
    ensures Judge(t, f, c) == -1 <==>
      InWindow(f, c) && t.populated[c] && !Within(t, f, c, t.connect) && Beyond(t, f, c, t.ceiling)
    ensures -1 <= Judge(t, f, c) <= 1
  {}

  // --------------------------------------------------------------------------
  // What the fill leaves behind

  // Steps between near cells, populated from the second on, each below the connection threshold.
  ghost predicate Chain(t: Terrain, chain: seq<int>)
    requires t.Valid()
  {
    && chain != [] && Cells(chain) && chain[0] == CENTRE
    && forall k :: 0 < k < |chain| ==> Judge(t, chain[k - 1], chain[k]) == 1
  }

  // The cell can be reached from the centre through cells that are not excluded.
  ghost predicate ReachedAvoiding(t: Terrain, conn: seq<int>, c: int)
    requires t.Valid() && |conn| == COUNT
  {
    exists chain :: Chain(t, chain) && chain[|chain| - 1] == c && forall k :: 0 <= k < |chain| ==> conn[chain[k]] != -1
  }

  ghost predicate Reachable(t: Terrain, c: int)
    requires t.Valid()
  {
    exists chain :: Chain(t, chain) && chain[|chain| - 1] == c
  }

  lemma FilledCell(t: Terrain, conn: seq<int>, order: seq<int>, c: int)
    requires t.Valid() && Filled(t, conn, order) && Cell(c)
    ensures conn[c] == if c == CENTRE then 2 else
      var v := Verdict(t, order, c); if v == 1 then 2 else v
    ensures c in order <==> conn[c] == 2
  {
    var n := |order|;
    JudgeRange(t, order, c);
    assert order[0] == CENTRE && c in AllCells();
    assert AllSettled(t, conn, order, n, AllCells());
    hide Verdict, Discovered, Distinct, AllCells;
    assert Settled(t, conn, order, n, c, Seen(n, AllCells(), c));
    assert order[..n] == order;
  }

  lemma {:induction false} VerdictHasWitness(t: Terrain, order: seq<int>, c: int)
    requires t.Valid() && Cells(order) && Cell(c) && Verdict(t, order, c) != 0
    ensures exists k :: 0 <= k < |order| && Judge(t, order[k], c) == Verdict(t, order, c)
    decreases |order|
  {
    var last := |order| - 1;
    if Verdict(t, order[..last], c) != 0 {
      VerdictHasWitness(t, order[..last], c);
      var k :| 0 <= k < last && Judge(t, order[..last][k], c) == Verdict(t, order[..last], c);
      assert order[k] == order[..last][k];
    } else {
      assert Judge(t, order[last], c) == Verdict(t, order, c);
    }
  }

  lemma {:induction false} JudgedIsDecided(t: Terrain, order: seq<int>, c: int, k: nat)
    requires t.Valid() && Cells(order) && Cell(c) && k < |order| && Judge(t, order[k], c) != 0
    ensures Verdict(t, order, c) != 0
    decreases |order|
  {
    var last := |order| - 1;
    if k < last {
      assert order[..last][k] == order[k];
      JudgedIsDecided(t, order[..last], c, k);
    }
  }

  // An excluded cell is excluded by a connected cell in its window, from which it is more than the ceiling threshold up
  // or down.
  lemma ExcludedHasWitness(t: Terrain, conn: seq<int>, order: seq<int>, c: int)
    requires t.Valid() && Filled(t, conn, order) && Cell(c) && conn[c] == -1
    ensures exists f :: Cell(f) && conn[f] == 2 && InWindow(f, c) && Beyond(t, f, c, t.ceiling)
  {
    FilledCell(t, conn, order, c);
    VerdictHasWitness(t, order, c);
    var k :| 0 <= k < |order| && Judge(t, order[k], c) == -1;
    FilledCell(t, conn, order, order[k]);
    JudgeMeans(t, order[k], c);
  }

  // A populated cell left open is, from every connected cell in its window, neither a small step up or down nor more
  // than the ceiling threshold.
  lemma OpenCellIsBetween(t: Terrain, conn: seq<int>, order: seq<int>, c: int, f: int)
    requires t.Valid() && Filled(t, conn, order) && Cell(c) && Cell(f)
    requires conn[c] == 0 && t.populated[c] && conn[f] == 2 && InWindow(f, c)
    ensures !Within(t, f, c, t.connect) && !Beyond(t, f, c, t.ceiling)
  {
    JudgeMeans(t, f, c);
    FilledCell(t, conn, order, c);
    FilledCell(t, conn, order, f);
    var k :| 0 <= k < |order| && order[k] == f;
    if Judge(t, f, c) != 0 {
      JudgedIsDecided(t, order, c, k);
    }
  }

  lemma {:induction false} QueuedIsReached(t: Terrain, conn: seq<int>, order: seq<int>, k: nat)
    returns (chain: seq<int>)
    requires t.Valid() && Filled(t, conn, order) && k < |order|
    ensures Chain(t, chain) && chain[|chain| - 1] == order[k] && forall i :: 0 <= i < |chain| ==> conn[chain[i]] == 2
    decreases k
  {
    FilledCell(t, conn, order, order[k]);
    if k == 0 {
      chain := [CENTRE];
    } else {
      assert Discovered(t, order);
      var j :| 0 <= j < k && Judge(t, order[j], order[k]) == 1;
      var before := QueuedIsReached(t, conn, order, j);
      ChainExtends(t, before, order[k]);
      hide Filled, Filling, Judge, Discovered, Chain;
      chain := before + [order[k]];
    }
  }

  // What the marks say about the elevations: which connected cell a cell was connected or excluded from, and that none
  // would do either to a cell left open.
  ghost predicate MarksMean(t: Terrain, conn: seq<int>)
    requires t.Valid()
  {
    && |conn| == COUNT && conn[CENTRE] == 2
    && forall c :: Cell(c) && c != CENTRE ==> MarkMeans(t, conn, c)
  }

  ghost predicate MarkMeans(t: Terrain, conn: seq<int>, c: int)
    requires t.Valid() && |conn| == COUNT && Cell(c)
  {
    && conn[c] in {-1, 0, 2} && (conn[c] != 0 ==> t.populated[c])
    && (conn[c] == 2 ==> exists f :: Cell(f) && conn[f] == 2 && InWindow(f, c) && Within(t, f, c, t.connect))
    && (conn[c] == -1 ==> exists f :: Cell(f) && conn[f] == 2 && InWindow(f, c) && Beyond(t, f, c, t.ceiling))
    && (conn[c] == 0 && t.populated[c] ==> forall f :: Cell(f) && conn[f] == 2 && InWindow(f, c) ==>
          !Within(t, f, c, t.connect) && !Beyond(t, f, c, t.ceiling))
  }

  lemma FilledMeans(t: Terrain, conn: seq<int>, order: seq<int>)
    requires t.Valid() && Filled(t, conn, order)
    ensures MarksMean(t, conn)
  {
    FilledShape(t, conn, order);
    FilledCell(t, conn, order, CENTRE);
    hide Filled, MarkMeans;
    forall c | Cell(c) && c != CENTRE
      ensures MarkMeans(t, conn, c)
    {
      FilledMarkMeans(t, conn, order, c);
    }
  }

  lemma FilledMarkMeans(t: Terrain, conn: seq<int>, order: seq<int>, c: int)
    requires t.Valid() && Filled(t, conn, order) && |conn| == COUNT && Cells(order) && Cell(c) && c != CENTRE
    ensures MarkMeans(t, conn, c)
  {
    hide Filled, Verdict, InWindow, Within, Beyond, Judge;
    FilledCell(t, conn, order, c);
    JudgeRange(t, order, c);
    if Verdict(t, order, c) != 0 {
      VerdictHasWitness(t, order, c);
      var k :| 0 <= k < |order| && Judge(t, order[k], c) == Verdict(t, order, c);
      FilledCell(t, conn, order, order[k]);
      JudgeMeans(t, order[k], c);
    } else if t.populated[c] {
      forall f | Cell(f) && conn[f] == 2 && InWindow(f, c)
        ensures !Within(t, f, c, t.connect) && !Beyond(t, f, c, t.ceiling)
      {
        OpenCellIsBetween(t, conn, order, c, f);
      }
    }
  }

  // Each step of a chain is to a populated cell in the window, less than the connection threshold up or down.
  lemma ChainSteps(t: Terrain, chain: seq<int>, k: nat)
    requires t.Valid() && Chain(t, chain) && 0 < k < |chain|
    ensures InWindow(chain[k - 1], chain[k]) && t.populated[chain[k]] && Within(t, chain[k - 1], chain[k], t.connect)
  {
    JudgeMeans(t, chain[k - 1], chain[k]);
  }

  lemma ChainExtends(t: Terrain, chain: seq<int>, c: int)
    requires t.Valid() && Chain(t, chain) && Cell(c) && Judge(t, chain[|chain| - 1], c) == 1
    ensures Chain(t, chain + [c])
  {
    hide Judge;
  }

  // A cell that a connected cell connects to is connected or excluded.
  lemma StepStaysInside(t: Terrain, conn: seq<int>, order: seq<int>, f: int, c: int)
    requires t.Valid() && Filled(t, conn, order) && Cell(f) && Cell(c) && conn[f] == 2 && Judge(t, f, c) == 1
    ensures conn[c] == 2 || conn[c] == -1
  {
    FilledCell(t, conn, order, f);
    FilledCell(t, conn, order, c);
    var k :| 0 <= k < |order| && order[k] == f;
    JudgedIsDecided(t, order, c, k);
    JudgeRange(t, order, c);
  }

  lemma {:induction false} JudgeRange(t: Terrain, order: seq<int>, c: int)
    requires t.Valid() && Cells(order) && Cell(c)
    ensures -1 <= Verdict(t, order, c) <= 1
    decreases |order|
  {
    if order != [] {
      JudgeRange(t, order[..|order| - 1], c);
    }
  }

  lemma {:induction false} ChainStaysInside(t: Terrain, conn: seq<int>, order: seq<int>, chain: seq<int>)
    requires t.Valid() && Filled(t, conn, order) && Chain(t, chain)
    requires forall k :: 0 <= k < |chain| ==> conn[chain[k]] != -1
    ensures conn[chain[|chain| - 1]] == 2
    decreases |chain|
  {
    if |chain| == 1 {
      FilledCell(t, conn, order, CENTRE);
    } else {
      var last := |chain| - 1;
      var before := chain[..last];
      assert Chain(t, before);
      ChainStaysInside(t, conn, order, before);
      assert Judge(t, chain[last - 1], chain[last]) == 1;
      StepStaysInside(t, conn, order, chain[last - 1], chain[last]);
    }
  }

  // The connected cells are exactly those reachable from the centre without entering an excluded cell.
  lemma ConnectedIffReached(t: Terrain, conn: seq<int>, order: seq<int>, c: int)
    requires t.Valid() && Filled(t, conn, order) && Cell(c)
    ensures conn[c] == 2 <==> ReachedAvoiding(t, conn, c)
  {
    FilledCell(t, conn, order, c);
    if conn[c] == 2 {
      var k :| 0 <= k < |order| && order[k] == c;
      var chain := QueuedIsReached(t, conn, order, k);
      hide Filled, Chain;
      assert Chain(t, chain) && chain[|chain| - 1] == c;
    }
    if ReachedAvoiding(t, conn, c) {
      var chain :| Chain(t, chain) && chain[|chain| - 1] == c && forall k :: 0 <= k < |chain| ==> conn[chain[k]] != -1;
      ChainStaysInside(t, conn, order, chain);
    }
  }

  lemma ConnectedIsReachable(t: Terrain, conn: seq<int>, order: seq<int>, c: int)
    requires t.Valid() && Filled(t, conn, order) && Cell(c) && conn[c] == 2
    ensures Reachable(t, c)
  {
    hide Filled;
    ConnectedIffReached(t, conn, order, c);
  }

  lemma ReachableExtends(t: Terrain, f: int, c: int)
    requires t.Valid() && Reachable(t, f) && Cell(c) && Cell(f) && Judge(t, f, c) == 1
    ensures Reachable(t, c)
  {
    hide Judge;
    var chain :| Chain(t, chain) && chain[|chain| - 1] == f;
    ChainExtends(t, chain, c);
    assert Chain(t, chain + [c]);
  }

  // Some connected cell is a small step away from an excluded one: the exclusion, which came first, cut it off.
  ghost predicate CutOff(t: Terrain, conn: seq<int>, c: int)
    requires t.Valid() && |conn| == COUNT && Cell(c)
  {
    conn[c] == -1 && exists f :: Cell(f) && conn[f] == 2 && Judge(t, f, c) == 1
  }

  lemma {:induction false} NothingCutOff(t: Terrain, conn: seq<int>, order: seq<int>, chain: seq<int>)
    requires t.Valid() && Filled(t, conn, order) && Chain(t, chain)
    requires forall c :: Cell(c) ==> !CutOff(t, conn, c)
    ensures conn[chain[|chain| - 1]] == 2
    decreases |chain|
  {
    if |chain| == 1 {
      FilledCell(t, conn, order, CENTRE);
    } else {
      var last := |chain| - 1;
      assert Chain(t, chain[..last]);
      NothingCutOff(t, conn, order, chain[..last]);
      assert Judge(t, chain[last - 1], chain[last]) == 1;
      StepStaysInside(t, conn, order, chain[last - 1], chain[last]);
      assert !CutOff(t, conn, chain[last]);
    }
  }

  // The fill finds everything reachable exactly when it leaves no excluded cell a small step away from a connected one.
  lemma FindsAllIffNothingCutOff(t: Terrain, conn: seq<int>, order: seq<int>)
    requires t.Valid() && Filled(t, conn, order)
    ensures (forall c :: Cell(c) ==> (conn[c] == 2 <==> Reachable(t, c)))
       <==> (forall c :: Cell(c) ==> !CutOff(t, conn, c))
  {
    forall c | Cell(c) && conn[c] == 2 ensures Reachable(t, c) {
      ConnectedIsReachable(t, conn, order, c);
    }
    if forall c :: Cell(c) ==> !CutOff(t, conn, c) {
      forall c | Cell(c) && Reachable(t, c) ensures conn[c] == 2 {
        var chain :| Chain(t, chain) && chain[|chain| - 1] == c;
        NothingCutOff(t, conn, order, chain);
      }
    }
    forall c | Cell(c) && CutOff(t, conn, c) ensures Reachable(t, c) {
      var f :| Cell(f) && conn[f] == 2 && Judge(t, f, c) == 1;
      ConnectedIsReachable(t, conn, order, f);
      ReachableExtends(t, f, c);
    }
  }

  // --------------------------------------------------------------------------
  // When the fill finds everything, by the terrain

  // The fill marks what can be reached, and nothing else.
  ghost predicate FindsAll(t: Terrain, conn: seq<int>)
    requires t.Valid() && |conn| == COUNT
  {
    forall c :: Cell(c) ==> (conn[c] == 2 <==> Reachable(t, c))
  }

  // The first cell of the order that decides about c is the i-th.
  ghost predicate DecidesFirst(t: Terrain, order: seq<int>, c: int, i: nat)
    requires t.Valid() && Cells(order) && Cell(c)
  {
    i < |order| && Judge(t, order[i], c) != 0 && forall k :: 0 <= k < i ==> Judge(t, order[k], c) == 0
  }

  // The i-th cell visited excludes c, and a cell visited later is a small step away from it.
  ghost predicate ExcludedTooEarly(t: Terrain, c: int, i: nat, j: nat)
    requires t.Valid()
  {
    var order := VisitOrder(t);
    && Cell(c) && c != CENTRE && i < j < |order|
    && DecidesFirst(t, order, c, i) && Judge(t, order[i], c) == -1 && Judge(t, order[j], c) == 1
  }

  lemma {:induction false} VerdictIsFirst(t: Terrain, order: seq<int>, c: int) returns (i: nat)
    requires t.Valid() && Cells(order) && Cell(c) && Verdict(t, order, c) != 0
    ensures DecidesFirst(t, order, c, i) && Judge(t, order[i], c) == Verdict(t, order, c)
    decreases |order|
  {
    hide Judge;
    var last := |order| - 1;
    if Verdict(t, order[..last], c) != 0 {
      i := VerdictIsFirst(t, order[..last], c);
    } else {
      i := last;
      forall k | 0 <= k < last
        ensures Judge(t, order[k], c) == 0
      {
        if Judge(t, order[..last][k], c) != 0 {
          JudgedIsDecided(t, order[..last], c, k);
        }
      }
    }
  }

  lemma {:induction false} FirstIsVerdict(t: Terrain, order: seq<int>, c: int, i: nat)
    requires t.Valid() && Cells(order) && Cell(c) && DecidesFirst(t, order, c, i)
    ensures Verdict(t, order, c) == Judge(t, order[i], c)
    decreases |order|
  {
    hide Judge;
    var last := |order| - 1;
    if i < last {
      FirstIsVerdict(t, order[..last], c, i);
    } else if Verdict(t, order[..last], c) != 0 {
      var k := VerdictIsFirst(t, order[..last], c);
    }
  }

  lemma FilledShape(t: Terrain, conn: seq<int>, order: seq<int>)
    requires t.Valid() && Filled(t, conn, order)
    ensures |conn| == COUNT && Cells(order) && order != [] && order[0] == CENTRE
  {}

  lemma FirstIsBefore(t: Terrain, order: seq<int>, c: int, i: nat, j: nat)
    requires t.Valid() && Cells(order) && Cell(c) && DecidesFirst(t, order, c, i) && j < |order|
    requires Judge(t, order[i], c) == -1 && Judge(t, order[j], c) == 1
    ensures i < j
  {
    hide Judge;
  }

  lemma CutOffIsTooEarly(t: Terrain, conn: seq<int>, order: seq<int>, c: int) returns (i: nat, j: nat)
    requires t.Valid() && Filled(t, conn, order) && order == VisitOrder(t) && Cell(c)
    requires |conn| == COUNT && CutOff(t, conn, c)
    ensures ExcludedTooEarly(t, c, i, j)
  {
    FilledShape(t, conn, order);
    hide Judge, Filled, VisitOrder;
    var f :| Cell(f) && conn[f] == 2 && Judge(t, f, c) == 1;
    FilledCell(t, conn, order, c);
    FilledCell(t, conn, order, f);
    i := VerdictIsFirst(t, order, c);
    hide DecidesFirst, Cells, Verdict;
    j :| 0 <= j < |order| && order[j] == f;
    FirstIsBefore(t, order, c, i, j);
  }

  lemma TooEarlyIsCutOff(t: Terrain, conn: seq<int>, order: seq<int>, c: int, i: nat, j: nat)
    requires t.Valid() && Filled(t, conn, order) && order == VisitOrder(t) && ExcludedTooEarly(t, c, i, j)
    ensures |conn| == COUNT && CutOff(t, conn, c)
  {
    FilledShape(t, conn, order);
    hide Judge, Filled, VisitOrder;
    FirstIsVerdict(t, order, c, i);
    FilledCell(t, conn, order, c);
    FilledCell(t, conn, order, order[j]);
  }

  // The fill finds everything reachable if and only if, in the order of visits that the terrain gives, no cell is
  // excluded by a cell that is visited before one a small step away from it.
  lemma FindsAllIffNoneTooEarly(t: Terrain, conn: seq<int>, order: seq<int>)
    requires t.Valid() && Filled(t, conn, order) && order == VisitOrder(t)
    ensures |conn| == COUNT
    ensures FindsAll(t, conn) <==> forall c, i, j :: !ExcludedTooEarly(t, c, i, j)
  {
    FindsAllIffNothingCutOff(t, conn, order);
    hide Filled, CutOff, Reachable, ExcludedTooEarly, VisitOrder;
    forall c | Cell(c) && CutOff(t, conn, c)
      ensures exists i, j :: ExcludedTooEarly(t, c, i, j)
    {
      var i, j := CutOffIsTooEarly(t, conn, order, c);
    }
    forall c, i, j | ExcludedTooEarly(t, c, i, j)
      ensures Cell(c) && CutOff(t, conn, c)
    {
      TooEarlyIsCutOff(t, conn, order, c, i, j);
      CellOfTooEarly(t, c, i, j);
    }
  }

  lemma CellOfTooEarly(t: Terrain, c: int, i: nat, j: nat)
    requires t.Valid() && ExcludedTooEarly(t, c, i, j)
    ensures Cell(c)
  {}

  // Without looking at the order: if no reachable cell is across a large gap from a reachable cell near it, the fill
  // finds everything.
  lemma FindsAllWithoutCeilings(t: Terrain, conn: seq<int>, order: seq<int>)
    requires t.Valid() && Filled(t, conn, order)
    requires forall f, c :: Cell(f) && Cell(c) && Reachable(t, f) && Reachable(t, c) ==> Judge(t, f, c) != -1
    ensures |conn| == COUNT && FindsAll(t, conn)
  {
    FilledShape(t, conn, order);
    hide Judge, Filled, Reachable;
    FindsAllIffNothingCutOff(t, conn, order);
    forall c | Cell(c) && CutOff(t, conn, c)
      ensures false
    {
      CutOffIsReachable(t, conn, order, c);
    }
  }

  // An excluded cell that is a small step away from a connected one can be reached, and so can the one that excludes
  // it.
  lemma CutOffIsReachable(t: Terrain, conn: seq<int>, order: seq<int>, c: int)
    requires t.Valid() && Filled(t, conn, order) && Cell(c) && |conn| == COUNT && CutOff(t, conn, c)
    ensures Reachable(t, c) && exists f :: Cell(f) && Reachable(t, f) && Judge(t, f, c) == -1
  {
    FilledShape(t, conn, order);
    hide Judge, Filled;
    hide Reachable, Verdict;
    var f :| Cell(f) && conn[f] == 2 && Judge(t, f, c) == 1;
    ConnectedIsReachable(t, conn, order, f);
    ReachableExtends(t, f, c);
    FilledCell(t, conn, order, c);
    VerdictHasWitness(t, order, c);
    var k :| 0 <= k < |order| && Judge(t, order[k], c) == -1;
    FilledCell(t, conn, order, order[k]);
    ConnectedIsReachable(t, conn, order, order[k]);
  }

  // --------------------------------------------------------------------------
  // A ramp that the fill does not climb

  // The height of seven cells in a row, from the centre on; the others have no points.
  function RampHeight(i: int): real {
    if i == CENTRE + 1 then 0.4 else if i == CENTRE + 2 then 0.8 else if i == CENTRE + 3 then 1.2
    else if i == CENTRE + 4 then 1.6 else if i == CENTRE + 5 then 2.0 else if i == CENTRE + 6 then 2.3 else 0.0
  }

  function Ramp(): Terrain {
    Terrain(seq(COUNT, i => RampHeight(i)), seq(COUNT, i => CENTRE <= i <= CENTRE + 6), 0.5, 2.0)
  }

  lemma RampJudges(f: int, c: int)
    requires CENTRE <= f <= CENTRE + 6 && CENTRE <= c <= CENTRE + 6
    ensures Ramp().Valid() && Near(f, c)
    ensures c == f + 1 ==> Judge(Ramp(), f, c) == 1
    ensures f == CENTRE && c == CENTRE + 6 ==> Judge(Ramp(), f, c) == -1
  {
    assert X(f) == X(CENTRE) == X(c) && Y(f) == Y(CENTRE) + (f - CENTRE) && Y(c) == Y(CENTRE) + (c - CENTRE);
    assert Ramp().elevation[f] == RampHeight(f) && Ramp().elevation[c] == RampHeight(c);
  }

  lemma {:induction false} RampIsReachable(n: nat) returns (chain: seq<int>)
    requires n <= 6
    ensures Ramp().Valid() && Chain(Ramp(), chain) && chain[|chain| - 1] == CENTRE + n
  {
    RampJudges(CENTRE, CENTRE);
    hide Judge, Ramp;
    if n == 0 {
      chain := [CENTRE];
    } else {
      var before := RampIsReachable(n - 1);
      RampJudges(CENTRE + n - 1, CENTRE + n);
      ChainExtends(Ramp(), before, CENTRE + n);
      chain := before + [CENTRE + n];
    }
  }

  // The last cell of the ramp is reachable by steps of at most 0.4; yet the centre, which is visited first, is 2.3
  // below it and excludes it, in whatever order the others are visited.
  lemma RampExample(conn: seq<int>, order: seq<int>)
    requires Ramp().Valid() && Filled(Ramp(), conn, order)
    ensures conn[CENTRE + 6] == -1 && Reachable(Ramp(), CENTRE + 6)
  {
    var chain := RampIsReachable(6);
    RampJudges(CENTRE, CENTRE + 6);
    FilledCell(Ramp(), conn, order, CENTRE + 6);
    FilledShape(Ramp(), conn, order);
    hide Ramp, Judge, Filled, Filling, Chain;
    FirstIsVerdict(Ramp(), order, CENTRE + 6, 0);
  }

  // --------------------------------------------------------------------------
  // A drop that the fill does not go down

  // The centre at 0 and all other cells 3 below it.
  function Drop(): Terrain {
    Terrain(seq(COUNT, i => if i == CENTRE then 0.0 else -3.0), seq(COUNT, _ => true), 0.5, 2.0)
  }

  // Every other cell in the window of the centre is excluded, and nothing is connected but the centre.
  lemma DropExample(conn: seq<int>, order: seq<int>, c: int)
    requires Drop().Valid() && Filled(Drop(), conn, order) && Cell(c) && c != CENTRE
    ensures conn[c] == if InWindow(CENTRE, c) then -1 else 0
  {
    OnlyCentre(conn, order);
    assert order[..0] == [];
    FilledCell(Drop(), conn, order, c);
    CentreJudges(c);
    hide Filled, Judge, Drop;
  }

  lemma CentreJudges(c: int)
    requires Drop().Valid() && Cell(c) && c != CENTRE
    ensures Judge(Drop(), CENTRE, c) == if InWindow(CENTRE, c) then -1 else 0
  {
    var t := Drop();
    assert t.elevation[CENTRE] == 0.0 && t.elevation[c] == -3.0;
    JudgeMeans(t, CENTRE, c);
  }

  lemma OnlyCentre(conn: seq<int>, order: seq<int>)
    requires Drop().Valid() && Filled(Drop(), conn, order)
    ensures order == [CENTRE]
  {
    FilledShape(Drop(), conn, order);
    assert Distinct(order) && Discovered(Drop(), order);
    forall c | Cell(c) && c != CENTRE
      ensures Judge(Drop(), CENTRE, c) != 1
    {
      CentreJudges(c);
    }
    hide Drop, Filled, Filling, Discovered;
    if |order| > 1 {
      var second := SecondIsConnected(Drop(), order);
      assert false;
    }
  }

  lemma SecondIsConnected(t: Terrain, order: seq<int>) returns (second: int)
    requires t.Valid() && Cells(order) && Distinct(order) && Discovered(t, order) && |order| > 1
    ensures Cell(second) && second != CENTRE && Judge(t, CENTRE, second) == 1
  {
    hide Judge;
    second := order[1];
    assert second != order[0];
  }
}
