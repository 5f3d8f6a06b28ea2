/**
 The rolling window of terrain voxels: a square grid of point clouds that follows the vehicle by rotating the
 pointers to the clouds, line by line, and clearing the cloud that enters at the edge.
 */
module RollingWindow {

  datatype Point = Point(x: real, y: real, z: real, intensity: real)

  const WIDTH := 21
  const HALF := 10
  const COUNT := 441

  predicate OnGrid(x: int, y: int) { 0 <= x < WIDTH && 0 <= y < WIDTH }

  function Index(x: int, y: int): int { WIDTH * x + y }

  lemma IndexInverse(x: int, y: int)
    requires OnGrid(x, y)
    ensures 0 <= Index(x, y) < COUNT && Index(x, y) / WIDTH == x && Index(x, y) % WIDTH == y
  {}

  // A line of voxels along the X or along the Y axis, and the k-th voxel on it.
  function Slot(alongX: bool, line: int, k: int): int {
    if alongX then Index(k, line) else Index(line, k)
  }

  function LineOf(alongX: bool, i: int): int { if alongX then i % WIDTH else i / WIDTH }

  function PlaceOf(alongX: bool, i: int): int { if alongX then i / WIDTH else i % WIDTH }

  lemma SlotInverse(alongX: bool, i: int)
    requires 0 <= i < COUNT
    ensures 0 <= LineOf(alongX, i) < WIDTH && 0 <= PlaceOf(alongX, i) < WIDTH
    ensures Slot(alongX, LineOf(alongX, i), PlaceOf(alongX, i)) == i
  {}

  lemma InverseSlot(alongX: bool, line: int, k: int)
    requires 0 <= line < WIDTH && 0 <= k < WIDTH
    ensures 0 <= Slot(alongX, line, k) < COUNT
    ensures LineOf(alongX, Slot(alongX, line, k)) == line && PlaceOf(alongX, Slot(alongX, line, k)) == k
  {}

  // Where the content of place k comes from when every line moves by one, up or down, and wraps around.
  function Source(up: bool, k: int): int {
    if up then (if k == WIDTH - 1 then 0 else k + 1) else (if k == 0 then WIDTH - 1 else k - 1)
  }

  // The place at which the window is extended.
  function Entry(up: bool): int { if up then WIDTH - 1 else 0 }

  function SourceIndex(alongX: bool, up: bool, i: int): (j: int)
    requires 0 <= i < COUNT
    ensures 0 <= j < COUNT
  {
    SlotInverse(alongX, i);
    var k := Source(up, PlaceOf(alongX, i));
    InverseSlot(alongX, LineOf(alongX, i), k);
    Slot(alongX, LineOf(alongX, i), k)
  }

  lemma SourceIsInjective(alongX: bool, up: bool, i: int, j: int)
    requires 0 <= i < COUNT && 0 <= j < COUNT && SourceIndex(alongX, up, i) == SourceIndex(alongX, up, j)
    ensures i == j
  {
    SlotInverse(alongX, i);
    SlotInverse(alongX, j);
    InverseSlot(alongX, LineOf(alongX, i), Source(up, PlaceOf(alongX, i)));
    InverseSlot(alongX, LineOf(alongX, j), Source(up, PlaceOf(alongX, j)));
  }

  lemma SourceIsSurjective(alongX: bool, up: bool, j: int) returns (i: int)
    requires 0 <= j < COUNT
    ensures 0 <= i < COUNT && SourceIndex(alongX, up, i) == j
  {
    SlotInverse(alongX, j);
    var k := Source(!up, PlaceOf(alongX, j));
    i := Slot(alongX, LineOf(alongX, j), k);
    InverseSlot(alongX, LineOf(alongX, j), k);
    assert Source(up, k) == PlaceOf(alongX, j);
  }

  // Of one line, the places from lo up to hi have been moved.
  ghost predicate Moved<T>(now: seq<T>, was: seq<T>, alongX: bool, up: bool, line: int, lo: int, hi: int)
    requires |now| == |was| == COUNT
  {
    forall i :: 0 <= i < COUNT ==>
      now[i] ==
        was[if LineOf(alongX, i) == line && lo <= PlaceOf(alongX, i) < hi then SourceIndex(alongX, up, i) else i]
  }

  lemma MoveOne<T>(now: seq<T>, was: seq<T>, alongX: bool, up: bool, line: int, lo: int, hi: int, k: int, v: T)
    requires |now| == |was| == COUNT && Moved(now, was, alongX, up, line, lo, hi)
    requires 0 <= line < WIDTH && 0 <= k < WIDTH && (k == hi || k == lo - 1) && lo <= hi
    requires 0 <= Slot(alongX, line, k) < COUNT && 0 <= Slot(alongX, line, Source(up, k)) < COUNT
    requires v == was[Slot(alongX, line, Source(up, k))]
    ensures Moved(now[Slot(alongX, line, k) := v], was, alongX, up, line, if k == hi then lo else k,
                  if k == hi then hi + 1 else hi)
  {
    var s := Slot(alongX, line, k);
    InverseSlot(alongX, line, k);
    forall i | 0 <= i < COUNT && LineOf(alongX, i) == line && PlaceOf(alongX, i) == k ensures i == s {
      SlotInverse(alongX, i);
    }
  }

  lemma Unmoved0<T>(was: seq<T>, alongX: bool, up: bool, line: int, at: int, k: int)
    requires |was| == COUNT && 0 <= line < WIDTH && 0 <= k < WIDTH
    ensures Moved(was, was, alongX, up, line, at, at) && 0 <= Slot(alongX, line, k) < COUNT
  {
    InverseSlot(alongX, line, k);
  }

  lemma Unmoved<T>(now: seq<T>, was: seq<T>, alongX: bool, up: bool, line: int, lo: int, hi: int, k: int)
    requires |now| == |was| == COUNT && Moved(now, was, alongX, up, line, lo, hi)
    requires 0 <= line < WIDTH && 0 <= k < WIDTH && !(lo <= k < hi)
    ensures 0 <= Slot(alongX, line, k) < COUNT && now[Slot(alongX, line, k)] == was[Slot(alongX, line, k)]
  {
    InverseSlot(alongX, line, k);
  }

  // The first n lines have been moved.
  ghost predicate LinesMoved<T>(now: seq<T>, was: seq<T>, alongX: bool, up: bool, n: int)
    requires |now| == |was| == COUNT
  {
    forall i :: 0 <= i < COUNT ==> now[i] == was[if LineOf(alongX, i) < n then SourceIndex(alongX, up, i) else i]
  }

  lemma OneMoreLine<T>(next: seq<T>, now: seq<T>, was: seq<T>, alongX: bool, up: bool, n: int)
    requires |next| == |now| == |was| == COUNT && 0 <= n < WIDTH
    requires LinesMoved(now, was, alongX, up, n) && Moved(next, now, alongX, up, n, 0, WIDTH)
    ensures LinesMoved(next, was, alongX, up, n + 1)
  {
    forall i | 0 <= i < COUNT
      ensures next[i] == was[if LineOf(alongX, i) < n + 1 then SourceIndex(alongX, up, i) else i]
    {
      SlotInverse(alongX, i);
      SourceKeepsLine(alongX, up, i);
    }
  }

  lemma SourceKeepsLine(alongX: bool, up: bool, i: int)
    requires 0 <= i < COUNT
    ensures LineOf(alongX, SourceIndex(alongX, up, i)) == LineOf(alongX, i)
    ensures PlaceOf(alongX, SourceIndex(alongX, up, i)) == Source(up, PlaceOf(alongX, i))
  {
    SlotInverse(alongX, i);
    InverseSlot(alongX, LineOf(alongX, i), Source(up, PlaceOf(alongX, i)));
  }

  ghost predicate Distinct<T>(s: seq<T>) {
    forall i, j :: 0 <= i < j < |s| ==> s[i] != s[j]
  }

  ghost function Elements<T>(s: seq<T>): set<T> { set x | x in s }

  // Moving all lines permutes the elements.
  lemma MovedIsPermutation<T>(now: seq<T>, was: seq<T>, alongX: bool, up: bool)
    requires |now| == |was| == COUNT && LinesMoved(now, was, alongX, up, WIDTH) && Distinct(was)
    ensures Distinct(now) && Elements(now) == Elements(was)
    ensures forall i :: 0 <= i < COUNT ==> now[i] == was[SourceIndex(alongX, up, i)]
  {
    forall i | 0 <= i < COUNT ensures now[i] == was[SourceIndex(alongX, up, i)] {
      SlotInverse(alongX, i);
    }
    forall i, j | 0 <= i < j < COUNT ensures now[i] != now[j] {
      if SourceIndex(alongX, up, i) == SourceIndex(alongX, up, j) {
        SourceIsInjective(alongX, up, i, j);
      }
    }
    forall x | x in was ensures x in now {
      var j :| 0 <= j < COUNT && was[j] == x;
      var i := SourceIsSurjective(alongX, up, j);
      assert now[i] == x;
    }
    forall x | x in now ensures x in was {
      var i :| 0 <= i < COUNT && now[i] == x;
    }
  }

  // --------------------------------------------------------------------------
  // The map of the world seen through the window

  type Contents = g: seq<seq<Point>> | |g| == COUNT witness seq(COUNT, _ => [])

  function Shifted(g: Contents, alongX: bool, up: bool): Contents {
    seq(COUNT, i requires 0 <= i < COUNT =>
      if PlaceOf(alongX, i) == Entry(up) then [] else g[SourceIndex(alongX, up, i)])
  }

  // World cell (x, y) through a window centred at (centreX, centreY).
  predicate Visible(centreX: int, centreY: int, x: int, y: int) {
    OnGrid(x - centreX + HALF, y - centreY + HALF)
  }

  function Seen(g: Contents, centreX: int, centreY: int, x: int, y: int): seq<Point>
    requires Visible(centreX, centreY, x, y)
  {
    IndexInverse(x - centreX + HALF, y - centreY + HALF);
    g[Index(x - centreX + HALF, y - centreY + HALF)]
  }

  // The later window shows what the earlier one showed wherever they overlap, and nothing elsewhere.
  ghost predicate Follows(g0: Contents, x0: int, y0: int, g: Contents, cx: int, cy: int) {
    forall x, y :: Visible(cx, cy, x, y) ==>
      Seen(g, cx, cy, x, y) == if Visible(x0, y0, x, y) then Seen(g0, x0, y0, x, y) else []
  }

  // In terms of the 21 by 21 arrays: a voxel shows what the voxel as many places further did before the centre moved,
  // or nothing if there was none.
  lemma FollowsMeans(g0: Contents, x0: int, y0: int, g: Contents, cx: int, cy: int, px: int, py: int)
    requires Follows(g0, x0, y0, g, cx, cy) && 0 <= px < 21 && 0 <= py < 21
    ensures 0 <= 21 * px + py < 441
    ensures var qx, qy := px + (cx - x0), py + (cy - y0);
      g[21 * px + py] == if 0 <= qx < 21 && 0 <= qy < 21 then g0[21 * qx + qy] else []
  {
    var x, y := px + cx - 10, py + cy - 10;
    assert Visible(cx, cy, x, y);
    assert Seen(g, cx, cy, x, y) == g[21 * px + py];
    IndexInverse(px, py);
    if Visible(x0, y0, x, y) {
      assert Seen(g0, x0, y0, x, y) == g0[21 * (px + (cx - x0)) + (py + (cy - y0))];
    }
  }

  lemma ShiftFollows(g0: Contents, x0: int, y0: int, g: Contents, cx: int, cy: int, alongX: bool, up: bool)
    requires Follows(g0, x0, y0, g, cx, cy)
    requires if alongX then (if up then cx >= x0 else cx <= x0) else (if up then cy >= y0 else cy <= y0)
    ensures var d := if up then 1 else -1;
      Follows(g0, x0, y0, Shifted(g, alongX, up), if alongX then cx + d else cx, if alongX then cy else cy + d)
  {
    var d := if up then 1 else -1;
    var nx, ny := if alongX then cx + d else cx, if alongX then cy else cy + d;
    forall x, y | Visible(nx, ny, x, y)
      ensures Seen(Shifted(g, alongX, up), nx, ny, x, y)
           == if Visible(x0, y0, x, y) then Seen(g0, x0, y0, x, y) else []
    {
      var px, py := x - nx + HALF, y - ny + HALF;
      IndexInverse(px, py);
      var i := Index(px, py);
      if PlaceOf(alongX, i) != Entry(up) {
        assert Visible(cx, cy, x, y);
        assert SourceIndex(alongX, up, i) == Index(x - cx + HALF, y - cy + HALF);
        assert Seen(g, cx, cy, x, y) == g[SourceIndex(alongX, up, i)];
      }
    }
  }

  // --------------------------------------------------------------------------
  // The code

  class Cloud {
    var points: seq<Point>

    constructor ()
      ensures points == []
    {
      points := [];
    }
  }

  // One line of the array is rotated by one place, towards the low end.
  method RotateUp<T>(clouds: array<T>, alongX: bool, line: int) returns (entered: T)
    requires clouds.Length == COUNT && 0 <= line < WIDTH
    modifies clouds
    ensures 0 <= Slot(alongX, line, WIDTH - 1) < COUNT && entered == clouds[Slot(alongX, line, WIDTH - 1)]
    ensures Moved(clouds[..], old(clouds[..]), alongX, true, line, 0, WIDTH)
  {
    ghost var was := clouds[..];
    hide Moved, Slot;
    Unmoved0(was, alongX, true, line, 0, 0);
    entered := clouds[Slot(alongX, line, 0)];
    for k := 0 to WIDTH - 1
      invariant Moved(clouds[..], was, alongX, true, line, 0, k)
    {
      Unmoved(clouds[..], was, alongX, true, line, 0, k, k);
      Unmoved(clouds[..], was, alongX, true, line, 0, k, k + 1);
      ghost var now := clouds[..];
      MoveOne(now, was, alongX, true, line, 0, k, k, now[Slot(alongX, line, k + 1)]);
      clouds[Slot(alongX, line, k)] := clouds[Slot(alongX, line, k + 1)];
      assert clouds[..] == now[Slot(alongX, line, k) := now[Slot(alongX, line, k + 1)]];
    }
    ghost var now := clouds[..];
    Unmoved(now, was, alongX, true, line, 0, WIDTH - 1, WIDTH - 1);
    MoveOne(now, was, alongX, true, line, 0, WIDTH - 1, WIDTH - 1, entered);
    clouds[Slot(alongX, line, WIDTH - 1)] := entered;
    assert clouds[..] == now[Slot(alongX, line, WIDTH - 1) := entered];
  }

  // One line of the array is rotated by one place, towards the high end.
  method RotateDown<T>(clouds: array<T>, alongX: bool, line: int) returns (entered: T)
    requires clouds.Length == COUNT && 0 <= line < WIDTH
    modifies clouds
    ensures 0 <= Slot(alongX, line, 0) < COUNT && entered == clouds[Slot(alongX, line, 0)]
    ensures Moved(clouds[..], old(clouds[..]), alongX, false, line, 0, WIDTH)
  {
    ghost var was := clouds[..];
    hide Moved, Slot;
    Unmoved0(was, alongX, false, line, WIDTH, WIDTH - 1);
    entered := clouds[Slot(alongX, line, WIDTH - 1)];
    for k := WIDTH downto 1
      invariant Moved(clouds[..], was, alongX, false, line, k, WIDTH)
    {
      Unmoved(clouds[..], was, alongX, false, line, k + 1, WIDTH, k);
      Unmoved(clouds[..], was, alongX, false, line, k + 1, WIDTH, k - 1);
      ghost var now := clouds[..];
      MoveOne(now, was, alongX, false, line, k + 1, WIDTH, k, now[Slot(alongX, line, k - 1)]);
      clouds[Slot(alongX, line, k)] := clouds[Slot(alongX, line, k - 1)];
      assert clouds[..] == now[Slot(alongX, line, k) := now[Slot(alongX, line, k - 1)]];
    }
    ghost var now := clouds[..];
    Unmoved(now, was, alongX, false, line, 1, WIDTH, 0);
    MoveOne(now, was, alongX, false, line, 1, WIDTH, 0, entered);
    clouds[Slot(alongX, line, 0)] := entered;
    assert clouds[..] == now[Slot(alongX, line, 0) := entered];
  }

  ghost function PointsOf(clouds: seq<Cloud>): Contents
    reads Elements(clouds)
    requires |clouds| == COUNT
  {
    seq(COUNT, i requires 0 <= i < COUNT && |clouds| == COUNT reads Elements(clouds) => clouds[i].points)
  }

  // The clouds on the far ends of the first n lines are empty, the others as before.
  function Cleared(before: Contents, alongX: bool, up: bool, n: int): Contents {
    seq(COUNT, i requires 0 <= i < COUNT =>
      if LineOf(alongX, i) < n && PlaceOf(alongX, i) == Source(up, Entry(up)) then [] else before[i])
  }

  lemma NoLineMoved<T>(was: seq<T>, before: Contents, alongX: bool, up: bool)
    requires |was| == COUNT
    ensures LinesMoved(was, was, alongX, up, 0) && Cleared(before, alongX, up, 0) == before
  {
    forall i | 0 <= i < COUNT ensures LineOf(alongX, i) >= 0 {
      SlotInverse(alongX, i);
    }
  }

  // The cloud that has entered on the last line moved, by its place before.
  lemma EnteredFrom<T>(now: seq<T>, was: seq<T>, alongX: bool, up: bool, line: int) returns (e: int)
    requires |now| == |was| == COUNT && 0 <= line < WIDTH && LinesMoved(now, was, alongX, up, line + 1)
    ensures 0 <= e < COUNT && LineOf(alongX, e) == line && PlaceOf(alongX, e) == Source(up, Entry(up))
    ensures 0 <= Slot(alongX, line, Entry(up)) < COUNT && now[Slot(alongX, line, Entry(up))] == was[e]
  {
    var slot := Slot(alongX, line, Entry(up));
    InverseSlot(alongX, line, Entry(up));
    SourceKeepsLine(alongX, up, slot);
    e := SourceIndex(alongX, up, slot);
  }

  lemma OneMoreCleared(before: Contents, alongX: bool, up: bool, line: int, e: int)
    requires 0 <= e < COUNT && LineOf(alongX, e) == line && PlaceOf(alongX, e) == Source(up, Entry(up))
    ensures Cleared(before, alongX, up, line + 1) == Cleared(before, alongX, up, line)[e := []]
  {
    SlotInverse(alongX, e);
    forall i | 0 <= i < COUNT && LineOf(alongX, i) == line && PlaceOf(alongX, i) == Source(up, Entry(up))
      ensures i == e
    {
      SlotInverse(alongX, i);
    }
  }

  lemma OnlyOneCleared(clouds: seq<Cloud>, points: Contents, e: int)
    requires |clouds| == COUNT && Distinct(clouds) && 0 <= e < COUNT && clouds[e].points == []
    requires forall i :: 0 <= i < COUNT && clouds[i] != clouds[e] ==> clouds[i].points == points[i]
    ensures PointsOf(clouds) == points[e := []]
  {}

  class Window {
    const terrainVoxelCloud: array<Cloud>
    var terrainVoxelShiftX: int
    var terrainVoxelShiftY: int

    // As many different clouds as there are voxels.
    ghost predicate Valid()
      reads this, terrainVoxelCloud
    {
      terrainVoxelCloud.Length == COUNT && Distinct(terrainVoxelCloud[..])
    }

    ghost function Clouds(): set<Cloud>
      reads this, terrainVoxelCloud
    {
      Elements(terrainVoxelCloud[..])
    }

    ghost function Grid(): Contents
      reads this, terrainVoxelCloud, Clouds()
      requires Valid()
    {
      PointsOf(terrainVoxelCloud[..])
    }

    constructor ()
      ensures Valid() && terrainVoxelShiftX == terrainVoxelShiftY == 0
      ensures fresh(terrainVoxelCloud) && fresh(Clouds()) && forall i :: 0 <= i < COUNT ==> Grid()[i] == []
    {
      var first := new Cloud();
      var clouds := new Cloud[COUNT](_ => first);
      for i := 0 to COUNT
        invariant fresh(clouds) && clouds.Length == COUNT
        invariant forall j :: 0 <= j < i ==> fresh(clouds[j]) && clouds[j].points == []
        invariant Distinct(clouds[..i])
      {
        var cloud := new Cloud();
        clouds[i] := cloud;
        assert clouds[..i + 1] == clouds[..i] + [cloud];
      }
      terrainVoxelCloud := clouds;
      terrainVoxelShiftX, terrainVoxelShiftY := 0, 0;
      new;
      assert terrainVoxelCloud[..] == clouds[..COUNT];
    }

    // One line is rotated; the cloud that enters the window on it is returned with its place before.
    method RotateLine(alongX: bool, up: bool, line: int, ghost was: seq<Cloud>) returns (entered: Cloud, ghost e: int)
      requires terrainVoxelCloud.Length == |was| == COUNT && 0 <= line < WIDTH
      requires LinesMoved(terrainVoxelCloud[..], was, alongX, up, line)
      modifies terrainVoxelCloud
      ensures LinesMoved(terrainVoxelCloud[..], was, alongX, up, line + 1)
      ensures 0 <= e < COUNT && LineOf(alongX, e) == line && PlaceOf(alongX, e) == Source(up, Entry(up))
      ensures entered == was[e]
    {
      hide Moved, LinesMoved, Slot;
      ghost var now := terrainVoxelCloud[..];
      if up {
        entered := RotateUp(terrainVoxelCloud, alongX, line);
      } else {
        entered := RotateDown(terrainVoxelCloud, alongX, line);
      }
      OneMoreLine(terrainVoxelCloud[..], now, was, alongX, up, line);
      e := EnteredFrom(terrainVoxelCloud[..], was, alongX, up, line);
    }

    // One line is rotated, and the cloud that enters the window on it is cleared.
    method RollLine(alongX: bool, up: bool, line: int, ghost was: seq<Cloud>, ghost before: Contents)
      requires terrainVoxelCloud.Length == |was| == COUNT && 0 <= line < WIDTH && Distinct(was)
      requires LinesMoved(terrainVoxelCloud[..], was, alongX, up, line)
      requires PointsOf(was) == Cleared(before, alongX, up, line)
      modifies terrainVoxelCloud, Elements(was)
      ensures LinesMoved(terrainVoxelCloud[..], was, alongX, up, line + 1)
      ensures PointsOf(was) == Cleared(before, alongX, up, line + 1)
    {
      hide LinesMoved, Distinct, PointsOf, LineOf, PlaceOf, Source, Cleared;
      var entered;
      ghost var e;
      entered, e := RotateLine(alongX, up, line, was);
      assert entered in Elements(was);
      ClearEntered(entered, was, before, alongX, up, line, e);
    }

    // Every line is rotated, and the clouds that enter the window are cleared.
    method RotateLines(alongX: bool, up: bool)
      requires Valid()
      modifies terrainVoxelCloud, Clouds()
      ensures LinesMoved(terrainVoxelCloud[..], old(terrainVoxelCloud[..]), alongX, up, WIDTH)
      ensures PointsOf(old(terrainVoxelCloud[..])) == Cleared(old(Grid()), alongX, up, WIDTH)
    {
      ghost var was, before := terrainVoxelCloud[..], Grid();
      hide LinesMoved, Distinct, PointsOf, Cleared;
      NoLineMoved(was, before, alongX, up);
      for line := 0 to WIDTH
        invariant LinesMoved(terrainVoxelCloud[..], was, alongX, up, line)
        invariant PointsOf(was) == Cleared(before, alongX, up, line)
      {
        RollLine(alongX, up, line, was, before);
      }
    }

    method ClearEntered(entered: Cloud, ghost was: seq<Cloud>, ghost before: Contents, ghost alongX: bool,
                        ghost up: bool, ghost line: int, ghost e: int)
      requires |was| == COUNT && Distinct(was) && 0 <= e < COUNT && entered == was[e]
      requires LineOf(alongX, e) == line && PlaceOf(alongX, e) == Source(up, Entry(up))
      requires PointsOf(was) == Cleared(before, alongX, up, line)
      modifies entered
      ensures PointsOf(was) == Cleared(before, alongX, up, line + 1)
    {
      ghost var points := PointsOf(was);
      PointsAt(was);
      hide Cleared, LineOf, PlaceOf, Source;
      entered.points := [];
      OnlyOneCleared(was, points, e);
      OneMoreCleared(before, alongX, up, line, e);
    }

    // The window moves by one voxel.
    method Shift(alongX: bool, up: bool)
      requires Valid()
      modifies this, terrainVoxelCloud, Clouds()
      ensures Valid() && Clouds() == old(Clouds()) && Grid() == Shifted(old(Grid()), alongX, up)
      ensures terrainVoxelShiftX == old(terrainVoxelShiftX) + if alongX then (if up then 1 else -1) else 0
      ensures terrainVoxelShiftY == old(terrainVoxelShiftY) + if alongX then 0 else (if up then 1 else -1)
    {
      ghost var was, before := terrainVoxelCloud[..], Grid();
      RotateLines(alongX, up);
      MovedIsPermutation(terrainVoxelCloud[..], was, alongX, up);
      if alongX {
        terrainVoxelShiftX := terrainVoxelShiftX + if up then 1 else -1;
      } else {
        terrainVoxelShiftY := terrainVoxelShiftY + if up then 1 else -1;
      }
      ShiftedPoints(terrainVoxelCloud[..], was, before, alongX, up);
    }

    // Brings the window to within one voxel of the vehicle, on both axes.
    method RollOver(vehicleX: real, vehicleY: real, voxelSize: real)
      requires Valid() && voxelSize > 0.0
      modifies this, terrainVoxelCloud, Clouds()
      ensures Valid() && Clouds() == old(Clouds())
      ensures Follows(old(Grid()), old(terrainVoxelShiftX), old(terrainVoxelShiftY),
                      Grid(), terrainVoxelShiftX, terrainVoxelShiftY)
      ensures -voxelSize <= vehicleX - voxelSize * terrainVoxelShiftX as real <= voxelSize
      ensures -voxelSize <= vehicleY - voxelSize * terrainVoxelShiftY as real <= voxelSize
    {
      FollowAxis(true, vehicleX, voxelSize, Grid(), terrainVoxelShiftX, terrainVoxelShiftY);
      FollowAxis(false, vehicleY, voxelSize, old(Grid()), old(terrainVoxelShiftX), old(terrainVoxelShiftY));
    }

    // The two loops of one axis: first down, then up.
    method FollowAxis(alongX: bool, vehicle: real, voxelSize: real, ghost g0: Contents, ghost x0: int, ghost y0: int)
      requires Valid() && voxelSize > 0.0
      requires Follows(g0, x0, y0, Grid(), terrainVoxelShiftX, terrainVoxelShiftY)
      requires if alongX then terrainVoxelShiftX == x0 else terrainVoxelShiftY == y0
      modifies this, terrainVoxelCloud, Clouds()
      ensures Valid() && Clouds() == old(Clouds())
      ensures Follows(g0, x0, y0, Grid(), terrainVoxelShiftX, terrainVoxelShiftY)
      ensures if alongX then terrainVoxelShiftY == old(terrainVoxelShiftY)
              else terrainVoxelShiftX == old(terrainVoxelShiftX)
      ensures -voxelSize <= Offset(vehicle, voxelSize, Position(alongX)) <= voxelSize
    {
      hide Follows, Shifted, Offset;
      ghost var start := Position(alongX);
      ghost var target := (vehicle / voxelSize).Floor;
      while Offset(vehicle, voxelSize, Position(alongX)) < -voxelSize
        invariant Valid() && Clouds() == old(Clouds())
        invariant Follows(g0, x0, y0, Grid(), terrainVoxelShiftX, terrainVoxelShiftY)
        invariant if alongX then terrainVoxelShiftY == old(terrainVoxelShiftY)
                  else terrainVoxelShiftX == old(terrainVoxelShiftX)
        invariant Position(alongX) <= start
        invariant Position(alongX) < start ==> Offset(vehicle, voxelSize, Position(alongX)) < 0.0
        decreases Position(alongX) - target
      {
        OffsetStep(vehicle, voxelSize, Position(alongX) - 1);
        TargetBelow(vehicle, voxelSize, Position(alongX));
        ShiftFollows(g0, x0, y0, Grid(), terrainVoxelShiftX, terrainVoxelShiftY, alongX, false);
        Shift(alongX, false);
      }
      while Offset(vehicle, voxelSize, Position(alongX)) > voxelSize
        invariant Valid() && Clouds() == old(Clouds())
        invariant Follows(g0, x0, y0, Grid(), terrainVoxelShiftX, terrainVoxelShiftY)
        invariant if alongX then terrainVoxelShiftY == old(terrainVoxelShiftY)
                  else terrainVoxelShiftX == old(terrainVoxelShiftX)
        invariant -voxelSize <= Offset(vehicle, voxelSize, Position(alongX))
        invariant Position(alongX) < start ==> Offset(vehicle, voxelSize, Position(alongX)) < 0.0
        decreases target - Position(alongX)
      {
        OffsetStep(vehicle, voxelSize, Position(alongX));
        TargetAbove(vehicle, voxelSize, Position(alongX));
        ShiftFollows(g0, x0, y0, Grid(), terrainVoxelShiftX, terrainVoxelShiftY, alongX, true);
        Shift(alongX, true);
      }
    }

    function Position(alongX: bool): int
      reads this
    {
      if alongX then terrainVoxelShiftX else terrainVoxelShiftY
    }
  }

  // The vehicle relative to the centre of the window.
  function Offset(vehicle: real, voxelSize: real, shift: int): real {
    vehicle - voxelSize * shift as real
  }

  lemma OffsetStep(vehicle: real, voxelSize: real, shift: int)
    ensures Offset(vehicle, voxelSize, shift + 1) == Offset(vehicle, voxelSize, shift) - voxelSize
  {
    assert (shift + 1) as real == shift as real + 1.0;
  }

  lemma Scale(a: real, b: real, size: real)
    requires size > 0.0 && a * size < b * size
    ensures a < b
  {}

  lemma TargetBelow(vehicle: real, voxelSize: real, shift: int)
    requires voxelSize > 0.0 && Offset(vehicle, voxelSize, shift) < -voxelSize
    ensures (vehicle / voxelSize).Floor < shift
  {
    var q := vehicle / voxelSize;
    assert q * voxelSize == vehicle;
    Scale(q, shift as real, voxelSize);
  }

  lemma TargetAbove(vehicle: real, voxelSize: real, shift: int)
    requires voxelSize > 0.0 && Offset(vehicle, voxelSize, shift) > voxelSize
    ensures (vehicle / voxelSize).Floor > shift
  {
    var q := vehicle / voxelSize;
    assert q * voxelSize == vehicle;
    assert (shift + 1) as real == shift as real + 1.0;
    assert (shift as real + 1.0) * voxelSize == shift as real * voxelSize + voxelSize;
    Scale(shift as real + 1.0, q, voxelSize);
  }

  lemma PointsAt(clouds: seq<Cloud>)
    requires |clouds| == COUNT
    ensures forall i :: 0 <= i < COUNT ==> PointsOf(clouds)[i] == clouds[i].points
  {}

  lemma ShiftedPoints(now: seq<Cloud>, was: seq<Cloud>, before: Contents, alongX: bool, up: bool)
    requires |now| == |was| == COUNT
    requires forall i :: 0 <= i < COUNT ==> now[i] == was[SourceIndex(alongX, up, i)]
    requires PointsOf(was) == Cleared(before, alongX, up, WIDTH)
    ensures PointsOf(now) == Shifted(before, alongX, up)
  {
    forall i | 0 <= i < COUNT ensures PointsOf(now)[i] == Shifted(before, alongX, up)[i] {
      var j := SourceIndex(alongX, up, i);
      SlotInverse(alongX, i);
      SourceKeepsLine(alongX, up, i);
      assert now[i].points == PointsOf(was)[j] == Cleared(before, alongX, up, WIDTH)[j];
    }
  }
}
