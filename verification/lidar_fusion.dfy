/**
 Pairing the frames of the two lidars.

 The fuser walks two queues of frames, each ordered by time, and fuses their heads when the stamps are less than
 WINDOW apart; otherwise it drops one head. Drain is the sequence of pairs it produces on two complete streams.
 */
module LidarFusion {

  datatype Point = Point(x: real, y: real, z: real, curvature: real)

  type Cloud = seq<Point>

  datatype Frame = Frame(cloud: Cloud, stamp: real)

  datatype Pair = Pair(right: Frame, left: Frame)

  const WINDOW := 0.005

  predicate Close(right: Frame, left: Frame) {
    -WINDOW < left.stamp - right.stamp < WINDOW
  }

  // The head of the right queue is dropped only when the left one is strictly more than the window later.
  predicate DropsRight(right: Frame, left: Frame) {
    left.stamp - right.stamp > WINDOW
  }

  function Drain(right: seq<Frame>, left: seq<Frame>): seq<Pair>
    decreases |right| + |left|
  {
    if right == [] || left == [] then []
    else if Close(right[0], left[0]) then [Pair(right[0], left[0])] + Drain(right[1..], left[1..])
    else if DropsRight(right[0], left[0]) then Drain(right[1..], left)
    else Drain(right, left[1..])
  }

  // --------------------------------------------------------------------------
  // The fused cloud

  // A rigid motion: the rows of its matrix and its origin.
  datatype Transform = Transform(
    xx: real, xy: real, xz: real,
    yx: real, yy: real, yz: real,
    zx: real, zy: real, zz: real,
    x: real, y: real, z: real)
  {
    function Apply(p: Point): Point {
      Point(Row(xx, xy, xz, x, p), Row(yx, yy, yz, y, p), Row(zx, zy, zz, z, p), p.curvature)
    }
  }

  function Row(a: real, b: real, c: real, o: real, p: Point): real { a * p.x + b * p.y + c * p.z + o }

  // Where the origin and the unit points go: the columns of the matrix are the axes of the left lidar as the right one
  // sees them.
  lemma ApplyTakesAxes(tf: Transform, c: real)
    ensures tf.Apply(Point(0.0, 0.0, 0.0, c)) == Point(tf.x, tf.y, tf.z, c)
    ensures tf.Apply(Point(1.0, 0.0, 0.0, c)) == Point(tf.x + tf.xx, tf.y + tf.yx, tf.z + tf.zx, c)
    ensures tf.Apply(Point(0.0, 1.0, 0.0, c)) == Point(tf.x + tf.xy, tf.y + tf.yy, tf.z + tf.zy, c)
    ensures tf.Apply(Point(0.0, 0.0, 1.0, c)) == Point(tf.x + tf.xz, tf.y + tf.yz, tf.z + tf.zz, c)
  {}

  // The point at a proportion of the way from p to q.
  function OnLine(p: Point, q: Point, t: real): Point {
    p.(x := p.x + t * (q.x - p.x), y := p.y + t * (q.y - p.y), z := p.z + t * (q.z - p.z))
  }

  lemma RowIsAffine(a: real, b: real, c: real, o: real, p: Point, q: Point, t: real)
    ensures Row(a, b, c, o, OnLine(p, q, t)) == Row(a, b, c, o, p) + t * (Row(a, b, c, o, q) - Row(a, b, c, o, p))
  {
    Distributes(a, p.x, q.x, t);
    Distributes(b, p.y, q.y, t);
    Distributes(c, p.z, q.z, t);
  }

  lemma Distributes(a: real, from: real, to: real, t: real)
    ensures a * (from + t * (to - from)) == a * from + t * (a * to - a * from)
  {
    assert a * (t * (to - from)) == t * (a * (to - from));
  }

  // Lines go to lines, in proportion; with the images of the axes this fixes where every point goes.
  lemma ApplyIsAffine(tf: Transform, p: Point, q: Point, t: real)
    ensures tf.Apply(OnLine(p, q, t)) == OnLine(tf.Apply(p), tf.Apply(q), t)
  {
    RowIsAffine(tf.xx, tf.xy, tf.xz, tf.x, p, q, t);
    RowIsAffine(tf.yx, tf.yy, tf.yz, tf.y, p, q, t);
    RowIsAffine(tf.zx, tf.zy, tf.zz, tf.z, p, q, t);
    hide Row;
  }

  // A left point in the right frame; its time offset becomes relative to the right stamp.
  function Move(tf: Transform, dt: real, p: Point): Point {
    var q := tf.Apply(p);
    q.(curvature := p.curvature + dt * 1000.0)
  }

  function Moved(tf: Transform, dt: real, cloud: Cloud): (moved: Cloud)
    ensures |moved| == |cloud| && forall i :: 0 <= i < |cloud| ==> moved[i] == Move(tf, dt, cloud[i])
  {
    seq(|cloud|, i requires 0 <= i < |cloud| => Move(tf, dt, cloud[i]))
  }

  function Insert(p: Point, sorted: Cloud): Cloud {
    if sorted == [] || p.curvature <= sorted[0].curvature then [p] + sorted
    else [sorted[0]] + Insert(p, sorted[1..])
  }

  function SortByCurvature(cloud: Cloud): Cloud {
    if cloud == [] then [] else Insert(cloud[0], SortByCurvature(cloud[1..]))
  }

  function FusedScan(pair: Pair, tf: Transform): Frame {
    var dt := pair.left.stamp - pair.right.stamp;
    Frame(SortByCurvature(pair.right.cloud + Moved(tf, dt, pair.left.cloud)), pair.right.stamp)
  }

  ghost predicate ByCurvature(cloud: Cloud) {
    forall i, j :: 0 <= i < j < |cloud| ==> cloud[i].curvature <= cloud[j].curvature
  }

  lemma {:induction false} InsertAdds(p: Point, sorted: Cloud)
    ensures multiset(Insert(p, sorted)) == multiset(sorted) + multiset{p}
    decreases |sorted|
  {
    if sorted != [] && p.curvature > sorted[0].curvature {
      InsertAdds(p, sorted[1..]);
      assert sorted == [sorted[0]] + sorted[1..];
    }
  }

  lemma {:induction false} InsertSorts(p: Point, sorted: Cloud)
    requires ByCurvature(sorted)
    ensures ByCurvature(Insert(p, sorted))
    decreases |sorted|
  {
    if sorted != [] && p.curvature > sorted[0].curvature {
      var head, tail := sorted[0], sorted[1..];
      var rest := Insert(p, tail);
      InsertSorts(p, tail);
      InsertAdds(p, tail);
      forall i | 0 <= i < |rest| ensures head.curvature <= rest[i].curvature {
        assert rest[i] in multiset(rest);
        assert rest[i] in tail || rest[i] == p;
      }
    }
  }

  // The fused scan holds the points of both clouds, the left ones moved, in order of their time offset.
  lemma {:induction false} SortIsSortedPermutation(cloud: Cloud)
    ensures ByCurvature(SortByCurvature(cloud)) && multiset(SortByCurvature(cloud)) == multiset(cloud)
    decreases |cloud|
  {
    if cloud != [] {
      SortIsSortedPermutation(cloud[1..]);
      InsertSorts(cloud[0], SortByCurvature(cloud[1..]));
      InsertAdds(cloud[0], SortByCurvature(cloud[1..]));
      assert cloud == [cloud[0]] + cloud[1..];
    }
  }

  // When a point was measured, in seconds.
  function MeasuredAt(stamp: real, p: Point): real { stamp + p.curvature / 1000.0 }

  // That q is p as the right lidar sees it: from the origin of the left lidar along its axes.
  predicate Lands(tf: Transform, p: Point, q: Point) {
    && q.x == tf.x + (p.x * tf.xx + p.y * tf.xy + p.z * tf.xz)
    && q.y == tf.y + (p.x * tf.yx + p.y * tf.yy + p.z * tf.yz)
    && q.z == tf.z + (p.x * tf.zx + p.y * tf.zy + p.z * tf.zz)
  }

  lemma MoveKeepsTime(tf: Transform, right: real, left: real, p: Point)
    ensures MeasuredAt(right, Move(tf, left - right, p)) == MeasuredAt(left, p)
    ensures Lands(tf, p, Move(tf, left - right, p))
  {}

  // The points of both clouds in order of their time offset, each left one where the right lidar sees it and later by
  // dt.
  ghost predicate IsMerged(fused: Cloud, right: Cloud, left: Cloud, tf: Transform, dt: real) {
    && ByCurvature(fused)
    && exists moved: Cloud ::
         && |moved| == |left| && multiset(fused) == multiset(right) + multiset(moved)
         && forall i :: 0 <= i < |left| ==>
              Lands(tf, left[i], moved[i]) && moved[i].curvature == left[i].curvature + dt * 1000.0
  }

  lemma SortIsMerged(right: Cloud, left: Cloud, tf: Transform, dt: real)
    ensures IsMerged(SortByCurvature(right + Moved(tf, dt, left)), right, left, tf, dt)
  {
    var moved := Moved(tf, dt, left);
    SortIsSortedPermutation(right + moved);
    assert multiset(right + moved) == multiset(right) + multiset(moved);
    forall i | 0 <= i < |left|
      ensures Lands(tf, left[i], moved[i])
    {
      MoveKeepsTime(tf, 0.0, dt, left[i]);
    }
    hide Lands, SortByCurvature, ByCurvature;
  }

  // Putting both clouds under the right stamp changes no point's time of measurement, drops and adds no point, and puts
  // the left points where the right lidar sees them.
  lemma FusedScanKeepsTimes(pair: Pair, tf: Transform)
    ensures var scan, dt := FusedScan(pair, tf), pair.left.stamp - pair.right.stamp;
      && scan.stamp == pair.right.stamp
      && multiset(scan.cloud) == multiset(pair.right.cloud) + multiset(Moved(tf, dt, pair.left.cloud))
      && |scan.cloud| == |pair.right.cloud| + |pair.left.cloud| && ByCurvature(scan.cloud)
      && (forall p <- pair.right.cloud ::
            p in scan.cloud && MeasuredAt(scan.stamp, p) == MeasuredAt(pair.right.stamp, p))
      && (forall p <- pair.left.cloud ::
            var moved := Move(tf, dt, p);
            && moved in scan.cloud && Lands(tf, p, moved)
            && MeasuredAt(scan.stamp, moved) == MeasuredAt(pair.left.stamp, p))
  {
    var dt := pair.left.stamp - pair.right.stamp;
    var moved := Moved(tf, dt, pair.left.cloud);
    var all := pair.right.cloud + moved;
    SortIsSortedPermutation(all);
    hide SortByCurvature, ByCurvature, Move, MeasuredAt, Lands;
    var sorted := SortByCurvature(all);
    assert |sorted| == |multiset(sorted)| == |all|;
    assert multiset(all) == multiset(pair.right.cloud) + multiset(moved);
    forall p <- pair.right.cloud
      ensures p in sorted
    {
      assert p in all;
      assert p in multiset(all);
    }
    forall p <- pair.left.cloud
      ensures Move(tf, dt, p) in sorted
      ensures MeasuredAt(pair.right.stamp, Move(tf, dt, p)) == MeasuredAt(pair.left.stamp, p)
      ensures Lands(tf, p, Move(tf, dt, p))
    {
      MoveKeepsTime(tf, pair.right.stamp, pair.left.stamp, p);
      var i :| 0 <= i < |pair.left.cloud| && pair.left.cloud[i] == p;
      assert moved[i] == all[|pair.right.cloud| + i];
      assert Move(tf, dt, p) in multiset(all);
    }
  }

  // --------------------------------------------------------------------------
  // One call of the fuser

  datatype Queues = Queues(right: seq<Frame>, left: seq<Frame>)

  // What one call of the fuser drops before it finds a pair or runs out of frames.
  function Skip(right: seq<Frame>, left: seq<Frame>): (q: Queues)
    ensures q.right == [] || q.left == [] || Close(q.right[0], q.left[0])
    decreases |right| + |left|
  {
    if right == [] || left == [] || Close(right[0], left[0]) then Queues(right, left)
    else if DropsRight(right[0], left[0]) then Skip(right[1..], left)
    else Skip(right, left[1..])
  }

  lemma {:induction false} DrainAfterSkip(right: seq<Frame>, left: seq<Frame>,
                                          moreRight: seq<Frame>, moreLeft: seq<Frame>)
    ensures var q := Skip(right, left);
      Drain(right + moreRight, left + moreLeft) == Drain(q.right + moreRight, q.left + moreLeft)
    decreases |right| + |left|
  {
    if right != [] && left != [] && !Close(right[0], left[0]) {
      if DropsRight(right[0], left[0]) {
        assert (right + moreRight)[1..] == right[1..] + moreRight;
        DrainAfterSkip(right[1..], left, moreRight, moreLeft);
      } else {
        assert (left + moreLeft)[1..] == left[1..] + moreLeft;
        DrainAfterSkip(right, left[1..], moreRight, moreLeft);
      }
    }
  }

  // --------------------------------------------------------------------------
  // Optimality

  ghost predicate Ordered(frames: seq<Frame>) {
    forall i, j :: 0 <= i < j < |frames| ==> frames[i].stamp <= frames[j].stamp
  }

  // A set of disjoint pairs of close frames, by position, from the i-th right and the j-th left frame on.
  ghost predicate IsMatching(m: set<(nat, nat)>, right: seq<Frame>, left: seq<Frame>, i: nat, j: nat) {
    && (forall p :: p in m ==> i <= p.0 < |right| && j <= p.1 < |left| && Close(right[p.0], left[p.1]))
    && (forall p, q :: p in m && q in m && (p.0 == q.0 || p.1 == q.1) ==> p == q)
  }

  ghost predicate FusesMost(right: seq<Frame>, left: seq<Frame>) {
    forall m :: IsMatching(m, right, left, 0, 0) ==> |m| <= |Drain(right, left)|
  }

  // Somewhere on its way the fuser compares a left frame that is exactly the window later than the right one,
  // and drops it although a later right frame is still close to it.
  ghost predicate HarmfulTie(right: seq<Frame>, left: seq<Frame>)
    decreases |right| + |left|
  {
    && right != [] && left != []
    && if Close(right[0], left[0]) then HarmfulTie(right[1..], left[1..])
       else if DropsRight(right[0], left[0]) then HarmfulTie(right[1..], left)
       else (left[0].stamp - right[0].stamp == WINDOW && exists k :: 0 < k < |right| && Close(right[k], left[0]))
            || HarmfulTie(right, left[1..])
  }

  // A matching of later frames is one of earlier frames too, and the heads can be added to it if they are close.
  lemma MatchingFrom(m: set<(nat, nat)>, right: seq<Frame>, left: seq<Frame>, i: nat, j: nat, k: nat, n: nat)
    requires i <= k && j <= n && IsMatching(m, right, left, k, n)
    ensures IsMatching(m, right, left, i, j)
  {}

  lemma HeadsAdded(m: set<(nat, nat)>, right: seq<Frame>, left: seq<Frame>, i: nat, j: nat)
    requires i < |right| && j < |left| && Close(right[i], left[j]) && IsMatching(m, right, left, i + 1, j + 1)
    ensures IsMatching(m + {(i, j)}, right, left, i, j) && |m + {(i, j)}| == |m| + 1
  {
    assert (i, j) !in m;
  }

  // The pairs of the two heads are replaced by the pair of their partners.
  lemma Swap(m: set<(nat, nat)>, right: seq<Frame>, left: seq<Frame>, i: nat, j: nat, p: (nat, nat), q: (nat, nat))
    returns (rest: set<(nat, nat)>)
    requires Ordered(right) && Ordered(left) && i < |right| && j < |left| && Close(right[i], left[j])
    requires IsMatching(m, right, left, i, j)
    requires p in m && p.0 == i && q in m && q.1 == j && p != q
    ensures IsMatching(rest, right, left, i + 1, j + 1) && |m| == |rest| + 1
  {
    var others := (m - {p}) - {q};
    var r := (q.0, p.1);
    assert r !in others;
    assert right[i].stamp <= right[q.0].stamp && left[j].stamp <= left[p.1].stamp;
    assert Close(right[q.0], left[p.1]);
    rest := others + {r};
  }

  // An exchange: with the heads fused, some matching that leaves both heads out is at most one pair smaller.
  lemma Exchange(m: set<(nat, nat)>, right: seq<Frame>, left: seq<Frame>, i: nat, j: nat)
    returns (rest: set<(nat, nat)>)
    requires Ordered(right) && Ordered(left) && i < |right| && j < |left| && Close(right[i], left[j])
    requires IsMatching(m, right, left, i, j)
    ensures IsMatching(rest, right, left, i + 1, j + 1) && |m| <= |rest| + 1
  {
    if p :| p in m && p.0 == i {
      if q :| q in m && q.1 == j && q != p {
        rest := Swap(m, right, left, i, j, p, q);
      } else {
        rest := m - {p};
      }
    } else if q :| q in m && q.1 == j {
      rest := m - {q};
    } else {
      rest := m;
    }
  }

  lemma {:induction false} NoMatchingIsLarger(m: set<(nat, nat)>, right: seq<Frame>, left: seq<Frame>, i: nat, j: nat)
    requires Ordered(right) && Ordered(left) && i <= |right| && j <= |left|
    requires IsMatching(m, right, left, i, j)
    requires !HarmfulTie(right[i..], left[j..])
    ensures |m| <= |Drain(right[i..], left[j..])|
    decreases |right| + |left| - i - j
  {
    if i == |right| || j == |left| {
      assert m == {};
    } else {
      assert right[i..][1..] == right[i + 1..] && left[j..][1..] == left[j + 1..];
      if Close(right[i], left[j]) {
        var rest := Exchange(m, right, left, i, j);
        NoMatchingIsLarger(rest, right, left, i + 1, j + 1);
      } else if DropsRight(right[i], left[j]) {
        NoMatchingIsLarger(m, right, left, i + 1, j);
      } else {
        forall p | p in m ensures p.1 != j {
          assert right[i..][p.0 - i] == right[p.0];
        }
        NoMatchingIsLarger(m, right, left, i, j + 1);
      }
    }
  }

  // The fused pairs themselves are such a matching: close, and no frame is used twice.
  lemma {:induction false} DrainIsMatching(right: seq<Frame>, left: seq<Frame>, i: nat, j: nat)
    returns (m: set<(nat, nat)>)
    requires i <= |right| && j <= |left|
    ensures var pairs := Drain(right[i..], left[j..]);
      && IsMatching(m, right, left, i, j) && |m| == |pairs|
      && forall pair :: pair in pairs ==> exists p :: p in m && pair == Pair(right[p.0], left[p.1])
    decreases |right| + |left| - i - j
  {
    m := {};
    if i < |right| && j < |left| {
      assert right[i..][1..] == right[i + 1..] && left[j..][1..] == left[j + 1..];
      if Close(right[i], left[j]) {
        var rest := DrainIsMatching(right, left, i + 1, j + 1);
        HeadsAdded(rest, right, left, i, j);
        m := rest + {(i, j)};
      } else if DropsRight(right[i], left[j]) {
        m := DrainIsMatching(right, left, i + 1, j);
      } else {
        m := DrainIsMatching(right, left, i, j + 1);
      }
    }
  }

  lemma {:induction false} TieOfPrefix(right: seq<Frame>, left: seq<Frame>, n: nat)
    requires n <= |left| && HarmfulTie(right, left[..n])
    ensures HarmfulTie(right, left)
    decreases |right| + |left|
  {
    if Close(right[0], left[0]) {
      assert left[..n][1..] == left[1..][..n - 1];
      TieOfPrefix(right[1..], left[1..], n - 1);
    } else if DropsRight(right[0], left[0]) {
      TieOfPrefix(right[1..], left, n);
    } else if HarmfulTie(right, left[..n][1..]) {
      assert left[..n][1..] == left[1..][..n - 1];
      TieOfPrefix(right, left[1..], n - 1);
    }
  }

  // The tie itself: the left frame could have been paired, and nothing is fused so far.
  lemma LostPair(right: seq<Frame>, left: seq<Frame>, i: nat, j: nat) returns (n: nat, m: set<(nat, nat)>)
    requires i < |right| && j < |left| && !Close(right[i], left[j]) && !DropsRight(right[i], left[j])
    requires exists k :: 0 < k < |right[i..]| && Close(right[i..][k], left[j..][0])
    ensures n == j + 1 && IsMatching(m, right, left[..n], i, j) && |m| > |Drain(right[i..], left[j..n])|
  {
    var k :| 0 < k < |right[i..]| && Close(right[i..][k], left[j..][0]);
    n, m := j + 1, {(i + k, j)};
    assert right[i..][k] == right[i + k] && right[i..][0] == right[i];
    assert left[j..n][1..] == [] && left[j..n][0] == left[j];
    assert Drain(right[i..], left[j..n]) == [];
  }

  // After a harmful tie the fuser has, on the left frames seen so far, fused fewer pairs than possible.
  lemma {:induction false} TieCostsAPair(right: seq<Frame>, left: seq<Frame>, i: nat, j: nat)
    returns (n: nat, m: set<(nat, nat)>)
    requires i <= |right| && j <= |left| && HarmfulTie(right[i..], left[j..])
    ensures j < n <= |left| && IsMatching(m, right, left[..n], i, j) && |m| > |Drain(right[i..], left[j..n])|
    decreases |right| + |left| - i - j
  {
    hide IsMatching, Close;
    assert right[i..][1..] == right[i + 1..] && left[j..][1..] == left[j + 1..];
    if Close(right[i], left[j]) {
      n, m := TieCostsAPair(right, left, i + 1, j + 1);
      assert left[j..n][1..] == left[j + 1..n];
      HeadsAdded(m, right, left[..n], i, j);
      m := m + {(i, j)};
    } else if DropsRight(right[i], left[j]) {
      n, m := TieCostsAPair(right, left, i + 1, j);
      MatchingFrom(m, right, left[..n], i, j, i + 1, j);
    } else if HarmfulTie(right[i..], left[j + 1..]) {
      n, m := TieCostsAPair(right, left, i, j + 1);
      assert left[j..n][1..] == left[j + 1..n];
      MatchingFrom(m, right, left[..n], i, j, i, j + 1);
    } else {
      n, m := LostPair(right, left, i, j);
    }
  }

  // The fuser produces, at every length of the left stream, as many pairs as any disjoint pairing of close
  // frames, exactly when it never meets a harmful tie.
  lemma FusesMostIffNoHarmfulTie(right: seq<Frame>, left: seq<Frame>)
    requires Ordered(right) && Ordered(left)
    ensures (forall n :: 0 <= n <= |left| ==> FusesMost(right, left[..n])) <==> !HarmfulTie(right, left)
  {
    assert right[0..] == right && left[0..] == left;
    if HarmfulTie(right, left) {
      var n, m := TieCostsAPair(right, left, 0, 0);
      assert left[0..n] == left[..n];
      assert !FusesMost(right, left[..n]);
    } else {
      forall n | 0 <= n <= |left| ensures FusesMost(right, left[..n]) {
        if HarmfulTie(right, left[..n]) {
          TieOfPrefix(right, left, n);
        }
        forall m | IsMatching(m, right, left[..n], 0, 0) ensures |m| <= |Drain(right, left[..n])| {
          assert left[..n][0..] == left[..n];
          NoMatchingIsLarger(m, right, left[..n], 0, 0);
        }
      }
    }
  }

  lemma {:induction false} NoTieNoHarm(right: seq<Frame>, left: seq<Frame>)
    requires forall i, j :: 0 <= i < |right| && 0 <= j < |left| ==> left[j].stamp - right[i].stamp != WINDOW
    ensures !HarmfulTie(right, left)
    decreases |right| + |left|
  {
    if right != [] && left != [] {
      if Close(right[0], left[0]) {
        NoTieNoHarm(right[1..], left[1..]);
      } else if DropsRight(right[0], left[0]) {
        NoTieNoHarm(right[1..], left);
      } else {
        NoTieNoHarm(right, left[1..]);
      }
    }
  }

  // Without stamps exactly the window apart the fuser is optimal.
  lemma OptimalWithoutTies(right: seq<Frame>, left: seq<Frame>)
    requires Ordered(right) && Ordered(left)
    requires forall i, j :: 0 <= i < |right| && 0 <= j < |left| ==> left[j].stamp - right[i].stamp != WINDOW
    ensures FusesMost(right, left)
  {
    NoTieNoHarm(right, left);
    FusesMostIffNoHarmfulTie(right, left);
    assert left[..|left|] == left;
  }

  // --------------------------------------------------------------------------
  // Optimality on the streams as they are given

  // The fuser with the tie broken the other way: the head of the right queue is dropped as soon as the left one is the
  // window later.
  function DrainLate(right: seq<Frame>, left: seq<Frame>): seq<Pair>
    decreases |right| + |left|
  {
    if right == [] || left == [] then []
    else if Close(right[0], left[0]) then [Pair(right[0], left[0])] + DrainLate(right[1..], left[1..])
    else if left[0].stamp - right[0].stamp >= WINDOW then DrainLate(right[1..], left)
    else DrainLate(right, left[1..])
  }

  // A head that is the window or more before the other one is in no pair.
  lemma HeadLeftOut(m: set<(nat, nat)>, right: seq<Frame>, left: seq<Frame>, i: nat, j: nat)
    requires Ordered(right) && Ordered(left) && i < |right| && j < |left| && IsMatching(m, right, left, i, j)
    ensures left[j].stamp - right[i].stamp >= WINDOW ==> IsMatching(m, right, left, i + 1, j)
    ensures right[i].stamp - left[j].stamp >= WINDOW ==> IsMatching(m, right, left, i, j + 1)
  {}

  // On ordered streams, no pairing is larger than what that fuser finds, ties or not.
  lemma {:induction false} LateIsOptimal(m: set<(nat, nat)>, right: seq<Frame>, left: seq<Frame>, i: nat, j: nat)
    requires Ordered(right) && Ordered(left) && i <= |right| && j <= |left|
    requires IsMatching(m, right, left, i, j)
    ensures |m| <= |DrainLate(right[i..], left[j..])|
    decreases |right| + |left| - i - j
  {
    if i == |right| || j == |left| {
      assert m == {};
    } else {
      HeadLeftOut(m, right, left, i, j);
      hide IsMatching, Ordered;
      assert right[i..][1..] == right[i + 1..] && left[j..][1..] == left[j + 1..];
      if Close(right[i], left[j]) {
        var rest := Exchange(m, right, left, i, j);
        LateIsOptimal(rest, right, left, i + 1, j + 1);
      } else if left[j].stamp - right[i].stamp >= WINDOW {
        LateIsOptimal(m, right, left, i + 1, j);
      } else {
        LateIsOptimal(m, right, left, i, j + 1);
      }
    }
  }

  lemma {:induction false} LateIsMatching(right: seq<Frame>, left: seq<Frame>, i: nat, j: nat)
    returns (m: set<(nat, nat)>)
    requires i <= |right| && j <= |left|
    ensures IsMatching(m, right, left, i, j) && |m| == |DrainLate(right[i..], left[j..])|
    decreases |right| + |left| - i - j
  {
    if i == |right| || j == |left| {
      m := {};
    } else {
      hide IsMatching;
      assert right[i..][1..] == right[i + 1..] && left[j..][1..] == left[j + 1..];
      if Close(right[i], left[j]) {
        var rest := LateIsMatching(right, left, i + 1, j + 1);
        HeadsAdded(rest, right, left, i, j);
        m := rest + {(i, j)};
      } else if left[j].stamp - right[i].stamp >= WINDOW {
        m := LateIsMatching(right, left, i + 1, j);
        MatchingFrom(m, right, left, i, j, i + 1, j);
      } else {
        m := LateIsMatching(right, left, i, j + 1);
        MatchingFrom(m, right, left, i, j, i, j + 1);
      }
    }
  }

  // So on the streams as they are given, the fuser produces as many pairs as possible exactly when it produces as many
  // as with the tie broken the other way; it never produces more.
  lemma FusesMostIffAsManyAsLate(right: seq<Frame>, left: seq<Frame>)
    requires Ordered(right) && Ordered(left)
    ensures FusesMost(right, left) <==> |Drain(right, left)| == |DrainLate(right, left)|
    ensures |Drain(right, left)| <= |DrainLate(right, left)|
  {
    assert right[0..] == right && left[0..] == left;
    hide Drain, DrainLate, IsMatching, Ordered;
    var late := LateIsMatching(right, left, 0, 0);
    var drained := DrainIsMatching(right, left, 0, 0);
    LateIsOptimal(drained, right, left, 0, 0);
    forall m | IsMatching(m, right, left, 0, 0)
      ensures |m| <= |DrainLate(right, left)|
    {
      LateIsOptimal(m, right, left, 0, 0);
    }
  }

  // --------------------------------------------------------------------------
  // Which ties are never made up for

  // How many right frames are the window or more before a left one.
  function TooEarly(right: seq<Frame>, left: Frame): (k: nat)
    ensures k <= |right|
    ensures forall i :: 0 <= i < k ==> left.stamp - right[i].stamp >= WINDOW
    ensures k < |right| ==> left.stamp - right[k].stamp < WINDOW
  {
    if right == [] || left.stamp - right[0].stamp < WINDOW then 0 else 1 + TooEarly(right[1..], left)
  }

  // In the end a right frame is left over: each left frame is close to the two right frames that it stands between, up
  // to the first right frame to which the next left frame is not close.
  predicate Stranded(right: seq<Frame>, left: seq<Frame>) {
    right != [] &&
    (|| left == []
     || !Close(right[0], left[0])
     || (|right| > 1 && Close(right[1], left[0]) && Stranded(right[1..], left[1..])))
  }

  // The left head is dropped in a tie; the first right frame close to it is left over, or another one that gives way.
  predicate IsCostly(right: seq<Frame>, left: seq<Frame>)
    requires right != [] && left != []
  {
    var k := TooEarly(right, left[0]);
    && left[0].stamp - right[0].stamp == WINDOW
    && k < |right| && Close(right[k], left[0]) && Stranded(right[k..], left[1..])
  }

  // How often that is so on the way of the fuser.
  function CostlyTies(right: seq<Frame>, left: seq<Frame>): nat
    decreases |right| + |left|
  {
    if right == [] || left == [] then 0
    else if Close(right[0], left[0]) then CostlyTies(right[1..], left[1..])
    else if DropsRight(right[0], left[0]) then CostlyTies(right[1..], left)
    else CostlyTies(right, left[1..]) + if IsCostly(right, left) then 1 else 0
  }

  lemma {:induction false} LateDropsEarly(right: seq<Frame>, left: seq<Frame>, k: nat)
    requires k <= |right|
    requires left != [] ==> forall i :: 0 <= i < k ==> left[0].stamp - right[i].stamp >= WINDOW
    ensures DrainLate(right, left) == DrainLate(right[k..], left)
    decreases k
  {
    if k > 0 && left != [] {
      assert right[1..][k - 1..] == right[k..];
      LateDropsEarly(right[1..], left, k - 1);
    }
  }

  // One right frame more at the head makes one pair more, unless a frame is left over for it.
  lemma {:induction false} OneMoreRight(right: seq<Frame>, left: seq<Frame>)
    requires Ordered(right) && Ordered(left) && right != []
    requires left != [] ==> right[0].stamp - left[0].stamp < WINDOW
    ensures |DrainLate(right, left)| == |DrainLate(right[1..], left)| + if Stranded(right, left) then 0 else 1
    decreases |right|
  {
    if left != [] && Close(right[0], left[0]) && |right| > 1 && Close(right[1], left[0]) {
      assert right[1..][0] == right[1] && right[1..][1..] == right[2..];
      OneMoreRight(right[1..], left[1..]);
    }
  }

  // A tie costs a pair if and only if it is costly.
  lemma TieCosts(right: seq<Frame>, left: seq<Frame>)
    requires Ordered(right) && Ordered(left) && right != [] && left != []
    requires left[0].stamp - right[0].stamp == WINDOW
    ensures |DrainLate(right, left)| == |DrainLate(right, left[1..])| + if IsCostly(right, left) then 1 else 0
  {
    var k := TooEarly(right, left[0]);
    LateDropsEarly(right, left, k);
    LateDropsEarly(right, left[1..], k);
    if k < |right| {
      assert right[k..][0] == right[k];
      if Close(right[k], left[0]) {
        assert right[k..][1..] == right[k + 1..];
        OneMoreRight(right[k..], left[1..]);
      }
    }
  }

  // On ordered streams, the fuser falls short of the most pairs possible by exactly one for each costly tie.
  lemma {:induction false} EachCostlyTieCostsAPair(right: seq<Frame>, left: seq<Frame>)
    requires Ordered(right) && Ordered(left)
    ensures |DrainLate(right, left)| == |Drain(right, left)| + CostlyTies(right, left)
    decreases |right| + |left|
  {
    if right != [] && left != [] {
      hide IsCostly, Ordered;
      TailsAreOrdered(right, left);
      if Close(right[0], left[0]) {
        EachCostlyTieCostsAPair(right[1..], left[1..]);
      } else if DropsRight(right[0], left[0]) {
        EachCostlyTieCostsAPair(right[1..], left);
      } else {
        EachCostlyTieCostsAPair(right, left[1..]);
        if left[0].stamp - right[0].stamp == WINDOW {
          TieCosts(right, left);
        } else {
          NoTieIsCostly(right, left);
        }
      }
    }
  }

  lemma TailsAreOrdered(right: seq<Frame>, left: seq<Frame>)
    requires Ordered(right) && Ordered(left) && right != [] && left != []
    ensures Ordered(right[1..]) && Ordered(left[1..])
  {}

  lemma NoTieIsCostly(right: seq<Frame>, left: seq<Frame>)
    requires right != [] && left != [] && left[0].stamp - right[0].stamp != WINDOW
    ensures !IsCostly(right, left)
  {}

  // So on the streams as they are given, the pairs are as many as possible exactly when no tie is costly.
  lemma FusesMostIffNoCostlyTie(right: seq<Frame>, left: seq<Frame>)
    requires Ordered(right) && Ordered(left)
    ensures FusesMost(right, left) <==> CostlyTies(right, left) == 0
  {
    hide FusesMost, Drain, DrainLate, CostlyTies, Ordered;
    FusesMostIffAsManyAsLate(right, left);
    EachCostlyTieCostsAPair(right, left);
  }

  // A later left frame can make up for a tie: then the pairs are as many as possible in the end, though not before.
  lemma TieMadeUpForExample()
    ensures var right, left := [Frame([], 0.0), Frame([], 0.004)], [Frame([], 0.005), Frame([], 0.006)];
      HarmfulTie(right, left) && FusesMost(right, left) && !FusesMost(right, left[..1])
  {
    var r0, r1, l0, l1 := Frame([], 0.0), Frame([], 0.004), Frame([], 0.005), Frame([], 0.006);
    assert Close(r1, l0) && Close(r1, l1) && !Close(r0, l0);
    assert [r0, r1][1] == r1;
    assert [l0, l1][1..] == [l1] && [r0, r1][1..] == [r1] && [l0, l1][..1] == [l0];
    FusesMostIffAsManyAsLate([r0, r1], [l0, l1]);
    FusesMostIffAsManyAsLate([r0, r1], [l0]);
    assert Drain([r0, r1], [l0]) == Drain([r0, r1], []) == [];
    assert DrainLate([r0, r1], [l0]) == DrainLate([r1], [l0]) == [Pair(r1, l0)] + DrainLate([], []);
    assert Drain([r0, r1], [l0, l1]) == Drain([r0, r1], [l1]) == Drain([r1], [l1]) == [Pair(r1, l1)] + Drain([], []);
    assert DrainLate([r0, r1], [l0, l1]) == DrainLate([r1], [l0, l1]) == [Pair(r1, l0)] + DrainLate([], [l1]);
  }

  // A pair lost to a tie: the left frame is close to the second right frame, yet nothing is fused.
  lemma TieExample()
    ensures var right, left := [Frame([], 0.0), Frame([], 0.004)], [Frame([], 0.005)];
      Drain(right, left) == [] && IsMatching({(1, 0)}, right, left, 0, 0) && !FusesMost(right, left)
  {
    var right, left := [Frame([], 0.0), Frame([], 0.004)], [Frame([], 0.005)];
    assert Drain(right, left[1..]) == [];
    assert Close(right[1], left[0]);
    var m: set<(nat, nat)> := {(1, 0)};
    assert IsMatching(m, right, left, 0, 0) && |m| == 1;
  }
}
