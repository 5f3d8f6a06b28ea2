/**
 The backward sweep that moves every lidar point of a scan to where the sensor is at the end of the scan, pose interval
 by pose interval. The compensation itself is a parameter.
 */
module Undistort {

  // A point with its time since the start of the scan; the sweep changes the position only.
  datatype Sample<P> = Sample(time: real, position: P)

  // What is known of the sensor at an offset from the start of the scan.
  datatype Pose<S> = Pose(offset: real, state: S)

  // Moves a point by the motion from a pose, with the rates of the pose after it, over a time.
  type Compensation<!P, !S> = (Pose<S>, Pose<S>, real, P) -> P

  ghost predicate PosesInOrder<S>(poses: seq<Pose<S>>) {
    forall i, j :: 0 <= i < j < |poses| ==> poses[i].offset <= poses[j].offset
  }

  ghost predicate PointsInOrder<P>(points: seq<Sample<P>>) {
    forall i, j :: 0 <= i < j < |points| ==> points[i].time <= points[j].time
  }

  // --------------------------------------------------------------------------
  // What is to be done to a point

  // One more than the index of the latest of the first k poses that is strictly before the time; 0 if there is none.
  function Latest<S>(poses: seq<Pose<S>>, time: real, k: nat): (c: nat)
    requires k <= |poses|
    ensures c <= k && (c > 0 ==> poses[c - 1].offset < time)
    ensures forall h :: c <= h < k ==> poses[h].offset >= time
  {
    if k == 0 || poses[k - 1].offset < time then k else Latest(poses, time, k - 1)
  }

  function Compensated<P, S>(poses: seq<Pose<S>>, f: Compensation<P, S>, s: Sample<P>, head: nat): Sample<P>
    requires head + 1 < |poses|
  {
    s.(position := f(poses[head], poses[head + 1], s.time - poses[head].offset, s.position))
  }

  // Compensated with the latest pose before it but the final one; as it is if there is no such pose.
  function Once<P, S>(poses: seq<Pose<S>>, f: Compensation<P, S>, s: Sample<P>): Sample<P>
    requires poses != []
  {
    var c := Latest(poses, s.time, |poses| - 1);
    if c == 0 then s else Compensated(poses, f, s, c - 1)
  }

  // Compensated with each of the first c poses, the latest first.
  function ForEach<P, S>(poses: seq<Pose<S>>, f: Compensation<P, S>, s: Sample<P>, c: nat): Sample<P>
    requires c < |poses|
    decreases c
  {
    if c == 0 then s else ForEach(poses, f, Compensated(poses, f, s, c - 1), c - 1)
  }

  // What the sweep makes of the points: the first one is compensated with every pose before it but the final one.
  function Swept<P, S>(poses: seq<Pose<S>>, f: Compensation<P, S>, points: seq<Sample<P>>): seq<Sample<P>>
    requires poses != []
  {
    seq(|points|, i requires 0 <= i < |points| =>
      if i == 0 then ForEach(poses, f, points[0], Latest(poses, points[0].time, |poses| - 1))
      else Once(poses, f, points[i]))
  }

  // --------------------------------------------------------------------------
  // The sweep

  // With the poses in order, a time is strictly after pose h exactly if h is before the latest.
  lemma LatestIsCount<S>(poses: seq<Pose<S>>, time: real, k: nat, h: nat)
    requires PosesInOrder(poses) && h < k <= |poses|
    ensures poses[h].offset < time <==> h < Latest(poses, time, k)
  {
    var c := Latest(poses, time, k);
    if h + 1 < c {
      assert poses[h].offset <= poses[c - 1].offset;
    }
  }

  // The first point still has to be compensated with the poses before it that are below kp.
  ghost predicate FirstLeft<P, S>(poses: seq<Pose<S>>, f: Compensation<P, S>, before: Sample<P>, now: Sample<P>,
                                  kp: nat)
    requires kp < |poses|
  {
    var c := Latest(poses, before.time, |poses| - 1);
    && now.time == before.time
    && ForEach(poses, f, now, if c < kp then c else kp) == ForEach(poses, f, before, c)
  }

  // The points after `at` are done, and those up to it are untouched, but that the first one may have been compensated
  // with poses from kp on.
  ghost predicate SweptTo<P, S>(poses: seq<Pose<S>>, f: Compensation<P, S>, before: seq<Sample<P>>,
                                now: seq<Sample<P>>, at: nat, kp: nat)
    requires at < |before| && kp < |poses|
  {
    && |now| == |before|
    && (forall j :: at < j < |now| && j > 0 ==> now[j] == Once(poses, f, before[j]))
    && (forall j :: 0 < j <= at ==> now[j] == before[j])
    && FirstLeft(poses, f, before[0], now[0], kp)
    && (at > 0 ==> now[0] == before[0])
  }

  // No point up to `at` but the first is later than pose kp, unless that is the final pose.
  ghost predicate NoneLater<P, S>(poses: seq<Pose<S>>, points: seq<Sample<P>>, at: nat, kp: nat)
    requires at < |points| && kp < |poses|
  {
    kp + 1 < |poses| ==> forall j :: 0 < j <= at ==> points[j].time <= poses[kp].offset
  }

  lemma NothingSwept<P, S>(poses: seq<Pose<S>>, f: Compensation<P, S>, points: seq<Sample<P>>)
    requires poses != [] && points != []
    ensures SweptTo(poses, f, points, points, |points| - 1, |poses| - 1)
    ensures NoneLater(poses, points, |points| - 1, |poses| - 1)
  {}

  lemma AllSwept<P, S>(poses: seq<Pose<S>>, f: Compensation<P, S>, before: seq<Sample<P>>, now: seq<Sample<P>>, at: nat)
    requires poses != [] && at < |before| && PosesInOrder(poses)
    requires SweptTo(poses, f, before, now, at, 0) && NoneLater(poses, before, at, 0)
    ensures now == Swept(poses, f, before)
  {
    forall j | 0 < j < |now|
      ensures now[j] == Once(poses, f, before[j])
    {
      if j <= at && |poses| > 1 {
        LatestIsCount(poses, before[j].time, |poses| - 1, 0);
      }
    }
  }

  // Compensating a point that is not the first with the pose before kp is the one compensation that it is due.
  lemma SweepsPoint<P, S>(poses: seq<Pose<S>>, f: Compensation<P, S>, before: seq<Sample<P>>, now: seq<Sample<P>>,
                          at: nat, kp: nat)
    requires 0 < at < |before| && 0 < kp < |poses| && PosesInOrder(poses)
    requires SweptTo(poses, f, before, now, at, kp) && NoneLater(poses, before, at, kp)
    requires now[at].time > poses[kp - 1].offset
    ensures SweptTo(poses, f, before, now[at := Compensated(poses, f, now[at], kp - 1)], at - 1, kp)
    ensures NoneLater(poses, before, at - 1, kp)
  {
    hide FirstLeft, PosesInOrder;
    LatestIsCount(poses, before[at].time, |poses| - 1, kp - 1);
    if kp + 1 < |poses| {
      LatestIsCount(poses, before[at].time, |poses| - 1, kp);
    }
  }

  // Compensating the first point with the pose before kp is the next of its compensations.
  lemma SweepsFirst<P, S>(poses: seq<Pose<S>>, f: Compensation<P, S>, before: seq<Sample<P>>, now: seq<Sample<P>>,
                          kp: nat)
    requires before != [] && 0 < kp < |poses| && PosesInOrder(poses)
    requires SweptTo(poses, f, before, now, 0, kp) && now[0].time > poses[kp - 1].offset
    ensures SweptTo(poses, f, before, now[0 := Compensated(poses, f, now[0], kp - 1)], 0, kp - 1)
    ensures NoneLater(poses, before, 0, kp - 1)
  {
    LatestIsCount(poses, before[0].time, |poses| - 1, kp - 1);
  }

  // Once a point is not later than the pose, no point before it is.
  lemma SweepsOn<P, S>(poses: seq<Pose<S>>, f: Compensation<P, S>, before: seq<Sample<P>>, now: seq<Sample<P>>,
                       at: nat, kp: nat)
    requires at < |before| && 0 < kp < |poses| && PosesInOrder(poses) && PointsInOrder(before)
    requires SweptTo(poses, f, before, now, at, kp) && now[at].time <= poses[kp - 1].offset
    ensures SweptTo(poses, f, before, now, at, kp - 1) && NoneLater(poses, before, at, kp - 1)
  {
    assert before[0].time <= before[at].time;
    hide ForEach, PosesInOrder, Once;
    LatestIsCount(poses, before[0].time, |poses| - 1, kp - 1);
  }

  method Sweep<P, S>(points: array<Sample<P>>, poses: seq<Pose<S>>, f: Compensation<P, S>)
    requires poses != [] && PosesInOrder(poses) && PointsInOrder(points[..])
    modifies points
    ensures points[..] == Swept(poses, f, old(points[..]))
  {
    hide SweptTo, NoneLater, PosesInOrder, PointsInOrder, Swept;
    if points.Length == 0 {
      NothingToSweep(poses, f, points[..]);
      return;
    }
    var at := points.Length - 1;
    var kp := |poses| - 1;
    ghost var before := points[..];
    NothingSwept(poses, f, before);
    while kp != 0
      invariant 0 <= kp < |poses| && 0 <= at < points.Length
      invariant SweptTo(poses, f, before, points[..], at, kp) && NoneLater(poses, before, at, kp)
    {
      var head, tail := poses[kp - 1], poses[kp];
      while points[at].time > head.offset
        invariant 0 <= at < points.Length
        invariant SweptTo(poses, f, before, points[..], at, kp) && NoneLater(poses, before, at, kp)
        decreases at
      {
        var p := points[at];
        var dt := p.time - head.offset;
        ghost var now := points[..];
        points[at] := p.(position := f(head, tail, dt, p.position));
        assert points[..] == now[at := Compensated(poses, f, now[at], kp - 1)];
        if at == 0 {
          SweepsFirst(poses, f, before, now, kp);
          break;
        }
        SweepsPoint(poses, f, before, now, at, kp);
        at := at - 1;
      }
      if points[at].time <= head.offset {
        SweepsOn(poses, f, before, points[..], at, kp);
      }
      kp := kp - 1;
    }
    AllSwept(poses, f, before, points[..], at);
  }

  lemma NothingToSweep<P, S>(poses: seq<Pose<S>>, f: Compensation<P, S>, points: seq<Sample<P>>)
    requires poses != [] && points == []
    ensures Swept(poses, f, points) == points
  {}

  // --------------------------------------------------------------------------
  // How often each point is compensated

  // What a compensation is used with: the pose it starts from, the pose whose rates it takes, and the time between the
  // first one and the point.
  datatype Note = Note(head: Pose<()>, tail: Pose<()>, dt: real)

  // The compensation that only notes what it is used with.
  const RECORD: Compensation<seq<Note>, ()> :=
    (head: Pose<()>, tail: Pose<()>, dt: real, noted: seq<Note>) => noted + [Note(head, tail, dt)]

  // The notes of a point at a time for the first c poses, the latest first.
  function NotesDown(poses: seq<Pose<()>>, time: real, c: nat): (notes: seq<Note>)
    requires c < |poses|
    ensures |notes| == c
    ensures forall i :: 0 <= i < c ==> notes[i] == Note(poses[c - 1 - i], poses[c - i], time - poses[c - 1 - i].offset)
  {
    if c == 0 then []
    else [Note(poses[c - 1], poses[c], time - poses[c - 1].offset)] + NotesDown(poses, time, c - 1)
  }

  lemma RecordsOne(poses: seq<Pose<()>>, s: Sample<seq<Note>>, head: nat)
    requires head + 1 < |poses|
    ensures Compensated(poses, RECORD, s, head)
         == s.(position := s.position + [Note(poses[head], poses[head + 1], s.time - poses[head].offset)])
  {}

  // The first point is compensated once with every pose before it but the final one.
  lemma {:induction false} FirstPointIsRecorded(poses: seq<Pose<()>>, s: Sample<seq<Note>>, c: nat)
    requires c < |poses|
    ensures ForEach(poses, RECORD, s, c) == s.(position := s.position + NotesDown(poses, s.time, c))
    decreases c
  {
    hide Compensated;
    if c == 0 {
      assert s.position + NotesDown(poses, s.time, 0) == s.position;
    } else {
      var note := Note(poses[c - 1], poses[c], s.time - poses[c - 1].offset);
      var rest := NotesDown(poses, s.time, c - 1);
      RecordsOne(poses, s, c - 1);
      FirstPointIsRecorded(poses, s.(position := s.position + [note]), c - 1);
      assert (s.position + [note]) + rest == s.position + ([note] + rest);
    }
  }

  // Every other point is compensated once: from the latest pose that is strictly before it and not the final one, with
  // the rates of the next pose, over the time since that pose. If there is no such pose, it stays as it is.
  lemma OnceIs<P, S>(poses: seq<Pose<S>>, f: Compensation<P, S>, s: Sample<P>, h: nat)
    requires PosesInOrder(poses) && h + 1 < |poses|
    requires poses[h].offset < s.time && (h + 2 == |poses| || s.time <= poses[h + 1].offset)
    ensures Once(poses, f, s).time == s.time
    ensures Once(poses, f, s).position == f(poses[h], poses[h + 1], s.time - poses[h].offset, s.position)
  {
    LatestIsCount(poses, s.time, |poses| - 1, h);
    if h + 2 < |poses| {
      LatestIsCount(poses, s.time, |poses| - 1, h + 1);
    }
  }

  lemma OnceIsNot<P, S>(poses: seq<Pose<S>>, f: Compensation<P, S>, s: Sample<P>)
    requires PosesInOrder(poses) && poses != [] && (|poses| == 1 || s.time <= poses[0].offset)
    ensures Once(poses, f, s) == s
  {
    if |poses| > 1 {
      LatestIsCount(poses, s.time, |poses| - 1, 0);
    }
  }

  // The sweep treats the first point like the others, whatever the compensation is, if that point is not later than
  // the second pose or that pose is the final one.
  lemma FirstLikeOthers<P, S>(poses: seq<Pose<S>>, f: Compensation<P, S>, points: seq<Sample<P>>)
    requires PosesInOrder(poses) && poses != [] && points != []
    requires |poses| <= 2 || points[0].time <= poses[1].offset
    ensures forall i :: 0 <= i < |points| ==> Swept(poses, f, points)[i] == Once(poses, f, points[i])
  {
    var c := Latest(poses, points[0].time, |poses| - 1);
    if |poses| > 2 {
      LatestIsCount(poses, points[0].time, |poses| - 1, 1);
    }
    assert c <= 1;
    if c == 1 {
      assert ForEach(poses, f, points[0], 1) == ForEach(poses, f, Compensated(poses, f, points[0], 0), 0);
    }
  }

  // And only then is every point compensated at most once.
  lemma AllAtMostOnceIff(poses: seq<Pose<()>>, points: seq<Sample<seq<Note>>>)
    requires PosesInOrder(poses) && poses != [] && points != []
    ensures (forall i :: 0 <= i < |points| ==>
              |Swept(poses, RECORD, points)[i].position| <= |points[i].position| + 1)
       <==> |poses| <= 2 || points[0].time <= poses[1].offset
  {
    var c := Latest(poses, points[0].time, |poses| - 1);
    var swept := Swept(poses, RECORD, points);
    FirstPointIsRecorded(poses, points[0], c);
    assert |swept[0].position| == |points[0].position| + c;
    if |poses| > 2 {
      LatestIsCount(poses, points[0].time, |poses| - 1, 1);
    }
  }

  // A scan whose first point is compensated with two poses, one after the other.
  lemma FirstPointTwiceExample()
    ensures var poses := [Pose(0.0, ()), Pose(0.005, ()), Pose(0.010, ())];
      var points := [Sample(0.007, [])];
      && PosesInOrder(poses)
      && Swept(poses, RECORD, points)[0].position == [Note(poses[1], poses[2], 0.002), Note(poses[0], poses[1], 0.007)]
      && Once(poses, RECORD, points[0]).position == [Note(poses[1], poses[2], 0.002)]
  {
    var poses := [Pose(0.0, ()), Pose(0.005, ()), Pose(0.010, ())];
    var point := Sample(0.007, []);
    assert Latest(poses, 0.007, 2) == 2;
    FirstPointIsRecorded(poses, point, 2);
    RecordsOne(poses, point, 1);
  }
}
