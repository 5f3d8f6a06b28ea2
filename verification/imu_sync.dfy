/**
 Cutting the IMU stream into one batch for each fused scan.
 */
module ImuSync {
  import opened LidarFusion

  datatype Option<+T> = None | Some(value: T)

  datatype Vector = Vector(x: real, y: real, z: real)

  datatype Imu = Imu(stamp: real, gyro: Vector, acceleration: Vector)

  // A scan handed to the estimator with its IMU samples.
  datatype Package = Package(scan: Frame, endTime: real, imu: seq<Imu>)

  // The buffers and variables that sync_packages works on; beginning is the scan it is waiting to complete.
  datatype Sync = Sync(
    lidar: seq<Frame>,
    imu: seq<Imu>,
    lastImuStamp: real,
    pushed: bool,
    beginning: Frame,
    endTime: real,
    meanScanTime: real,
    scans: nat)

  // The last point of a scan, in milliseconds after its stamp.
  function LastOffset(cloud: Cloud): real
    requires cloud != []
  {
    cloud[|cloud| - 1].curvature / 1000.0
  }

  // The scan at the front of the queue is taken up and its end time estimated, once.
  function TakeUp(s: Sync): Sync
    requires s.lidar != []
  {
    if s.pushed then s else
    var scan := s.lidar[0];
    var t := s.(pushed := true, beginning := scan);
    if |scan.cloud| <= 1 || LastOffset(scan.cloud) < 0.5 * s.meanScanTime then
      t.(endTime := scan.stamp + s.meanScanTime)
    else
      var offset := LastOffset(scan.cloud);
      t.(endTime := scan.stamp + offset,
         scans := s.scans + 1,
         meanScanTime := s.meanScanTime + (offset - s.meanScanTime) / (s.scans + 1) as real)
  }

  // How many samples at the front of the buffer go into the batch; time is the stamp looked at last.
  function BatchSize(imu: seq<Imu>, endTime: real, time: real): (n: nat)
    ensures n <= |imu|
    decreases |imu|
  {
    if imu == [] || time >= endTime || imu[0].stamp > endTime then 0
    else 1 + BatchSize(imu[1..], endTime, imu[0].stamp)
  }

  // The scan taken up leaves the queue with its batch.
  function Delivered(s: Sync): (Sync, Option<Package>)
    requires s.lidar != [] && s.imu != []
  {
    var n := BatchSize(s.imu, s.endTime, s.imu[0].stamp);
    (s.(lidar := s.lidar[1..], imu := s.imu[n..], pushed := false),
     Some(Package(s.beginning, s.endTime, s.imu[..n])))
  }

  function SyncPackages(s: Sync): (Sync, Option<Package>)
  {
    if s.lidar == [] || s.imu == [] then (s, None) else
    var t := TakeUp(s);
    if s.lastImuStamp < t.endTime then (t, None) else Delivered(t)
  }

  lemma SyncCases(s: Sync)
    ensures s.lidar == [] || s.imu == [] ==> SyncPackages(s) == (s, None)
    ensures s.lidar != [] && s.imu != [] ==>
      var t := TakeUp(s);
      && t.lidar == s.lidar && t.imu == s.imu && t.lastImuStamp == s.lastImuStamp
      && SyncPackages(s) == if t.lastImuStamp < t.endTime then (t, None) else Delivered(t)
  {}

  // A sample that is older than the newest one empties the buffer first.
  function ReceiveImu(s: Sync, sample: Imu): Sync {
    s.(imu := (if sample.stamp < s.lastImuStamp then [] else s.imu) + [sample], lastImuStamp := sample.stamp)
  }

  // --------------------------------------------------------------------------

  ghost predicate Sorted(imu: seq<Imu>) {
    forall i, j :: 0 <= i < j < |imu| ==> imu[i].stamp <= imu[j].stamp
  }

  // What holds between two calls: a scan that was taken up is still the front one, and the newest sample is
  // the last in a non-empty buffer.
  ghost predicate Consistent(s: Sync) {
    && (s.pushed ==> s.lidar != [] && s.beginning == s.lidar[0])
    && Sorted(s.imu)
    && (s.imu != [] ==> s.imu[|s.imu| - 1].stamp <= s.lastImuStamp)
    && s.meanScanTime >= 0.0
    && (s.pushed ==> s.endTime >= s.beginning.stamp && Covers(s.beginning, s.endTime))
  }

  // No point of a scan of several points, in order, is later than its end time.
  ghost predicate Covers(scan: Frame, endTime: real) {
    |scan.cloud| > 1 && ByCurvature(scan.cloud) ==>
      forall i :: 0 <= i < |scan.cloud| ==> scan.stamp + scan.cloud[i].curvature / 1000.0 <= endTime
  }

  // The batch takes every sample before the end time and none after it.
  lemma {:induction false} BatchSplits(imu: seq<Imu>, endTime: real, time: real)
    requires Sorted(imu) && (imu != [] ==> time <= imu[0].stamp)
    ensures var n := BatchSize(imu, endTime, time);
      && (forall i :: 0 <= i < n ==> imu[i].stamp <= endTime)
      && (forall i :: n <= i < |imu| ==> imu[i].stamp >= endTime)
    decreases |imu|
  {
    if imu != [] && time < endTime && imu[0].stamp <= endTime {
      BatchSplits(imu[1..], endTime, imu[0].stamp);
      var n := BatchSize(imu, endTime, time);
      forall i | 0 <= i < n ensures imu[i].stamp <= endTime {
        if i > 0 { assert imu[i] == imu[1..][i - 1]; }
      }
      forall i | n <= i < |imu| ensures imu[i].stamp >= endTime {
        assert imu[i] == imu[1..][i - 1];
      }
    }
  }

  // How the batch ends: of k samples before the end time, all are taken, and with them the first one at the end time;
  // but none is taken if there is none before it.
  lemma {:induction false} BatchEnds(imu: seq<Imu>, endTime: real, k: nat)
    requires Sorted(imu) && k <= |imu| && imu != []
    requires forall i :: 0 <= i < |imu| ==> (imu[i].stamp < endTime <==> i < k)
    ensures BatchSize(imu, endTime, imu[0].stamp) ==
      if k == 0 then 0 else if k < |imu| && imu[k].stamp == endTime then k + 1 else k
    decreases |imu|
  {
    if k > 0 {
      BatchGoesOn(imu[1..], endTime, imu[0].stamp, k - 1);
    }
  }

  lemma {:induction false} BatchGoesOn(imu: seq<Imu>, endTime: real, time: real, k: nat)
    requires k <= |imu| && time < endTime
    requires forall i :: 0 <= i < |imu| ==> (imu[i].stamp < endTime <==> i < k)
    requires Sorted(imu)
    ensures BatchSize(imu, endTime, time) == if k < |imu| && imu[k].stamp == endTime then k + 1 else k
    decreases |imu|
  {
    if k > 0 {
      assert forall i :: 0 <= i < |imu[1..]| ==> imu[1..][i] == imu[i + 1];
      BatchGoesOn(imu[1..], endTime, imu[0].stamp, k - 1);
    }
  }

  lemma TakeUpConsistent(s: Sync)
    requires Consistent(s) && s.lidar != []
    ensures Consistent(TakeUp(s)) && TakeUp(s).pushed
  {
    var scan := s.lidar[0];
    if !s.pushed && |scan.cloud| > 1 {
      var offset, n := LastOffset(scan.cloud), s.scans as real;
      if offset >= 0.5 * s.meanScanTime {
        MeanStaysNonNegative(s.meanScanTime, offset, n);
      }
      LastIsLatest(scan, TakeUp(s).endTime);
    }
  }

  lemma LastIsLatest(scan: Frame, endTime: real)
    requires |scan.cloud| > 1 && scan.stamp + LastOffset(scan.cloud) <= endTime
    ensures Covers(scan, endTime)
  {
    var last := |scan.cloud| - 1;
    if ByCurvature(scan.cloud) {
      forall i | 0 <= i < |scan.cloud|
        ensures scan.stamp + scan.cloud[i].curvature / 1000.0 <= endTime
      {
        assert scan.cloud[i].curvature <= scan.cloud[last].curvature;
      }
    }
  }

  lemma MeanStaysNonNegative(mean: real, sample: real, n: real)
    requires mean >= 0.0 && sample >= 0.0 && n >= 0.0
    ensures mean + (sample - mean) / (n + 1.0) >= 0.0
  {
    assert mean + (sample - mean) / (n + 1.0) == (mean * n + sample) / (n + 1.0);
    assert mean * n >= 0.0;
  }

  // A scan of several points that is not too short ends with its last point and joins the mean, which stays the exact
  // mean of those that joined; any other scan is taken to last as long as the mean and leaves it as it is.
  lemma ScanTimeIsExact(s: Sync)
    requires s.lidar != [] && !s.pushed
    ensures var scan, t := s.lidar[0], TakeUp(s);
      if |scan.cloud| > 1 && 2.0 * LastOffset(scan.cloud) >= s.meanScanTime then
        && t.endTime == MeasuredAt(scan.stamp, scan.cloud[|scan.cloud| - 1])
        && t.scans == s.scans + 1
        && t.meanScanTime * t.scans as real == s.meanScanTime * s.scans as real + LastOffset(scan.cloud)
      else
        t.endTime - scan.stamp == t.meanScanTime == s.meanScanTime && t.scans == s.scans
  {
    var scan := s.lidar[0];
    if |scan.cloud| > 1 && 2.0 * LastOffset(scan.cloud) >= s.meanScanTime {
      MeanOfOneMore(s.meanScanTime, LastOffset(scan.cloud), s.scans as real);
    }
  }

  lemma MeanOfOneMore(mean: real, sample: real, n: real)
    requires n >= 0.0
    ensures (mean + (sample - mean) / (n + 1.0)) * (n + 1.0) == mean * n + sample
  {
    var share := (sample - mean) / (n + 1.0);
    assert share * (n + 1.0) == sample - mean;
    assert (mean + share) * (n + 1.0) == mean * (n + 1.0) + share * (n + 1.0);
    assert mean * (n + 1.0) == mean * n + mean;
  }

  // The batch and what stays behind: up to the end time, and from the end time on.
  ghost predicate Divided(imu: seq<Imu>, batch: seq<Imu>, rest: seq<Imu>, endTime: real) {
    && batch + rest == imu
    && (forall i :: 0 <= i < |batch| ==> batch[i].stamp <= endTime)
    && (forall i :: 0 <= i < |rest| ==> rest[i].stamp >= endTime)
  }

  lemma BufferIsDivided(imu: seq<Imu>, endTime: real)
    requires Sorted(imu) && imu != []
    ensures var n := BatchSize(imu, endTime, imu[0].stamp);
      Divided(imu, imu[..n], imu[n..], endTime) && Sorted(imu[n..])
  {
    var n := BatchSize(imu, endTime, imu[0].stamp);
    BatchSplits(imu, endTime, imu[0].stamp);
    hide BatchSize;
    forall i | 0 <= i < |imu[n..]| ensures imu[n..][i].stamp >= endTime {
      assert imu[n..][i] == imu[n + i];
    }
  }

  lemma TakeUpKeepsBuffers(s: Sync)
    requires s.lidar != []
    ensures var t := TakeUp(s); t.lidar == s.lidar && t.imu == s.imu && t.lastImuStamp == s.lastImuStamp
  {}

  // What is said of a package that leaves t behind when s is asked for one.
  ghost predicate WellDelivered(s: Sync, t: Sync, p: Package) {
    && s.lidar != [] && p.scan == s.lidar[0] && t.lidar == s.lidar[1..]
    && Divided(s.imu, p.imu, t.imu, p.endTime)
    && p.endTime >= p.scan.stamp && Covers(p.scan, p.endTime)
    && t.lastImuStamp >= p.endTime
  }

  lemma DeliveredIsDivided(s: Sync)
    requires Consistent(s) && s.pushed && s.lidar != [] && s.imu != [] && s.lastImuStamp >= s.endTime
    ensures var (t, p) := Delivered(s);
      Consistent(t) && p.Some? && WellDelivered(s, t, p.value) && p.value.endTime == s.endTime && !t.pushed
  {
    BufferIsDivided(s.imu, s.endTime);
    hide BatchSize, Covers, Divided, Sorted;
  }

  // A package is delivered if and only if a scan and a sample wait and the newest sample is not before the scan's end.
  // A delivered package carries the scan that leaves the queue and a prefix of the IMU buffer with stamps up to
  // its end time; whatever stays in the buffer or arrives later is not before the end time.
  lemma DeliveredPackage(s: Sync)
    requires Consistent(s)
    ensures var (t, p) := SyncPackages(s);
      && Consistent(t)
      && (p == None ==> t.lidar == s.lidar && t.imu == s.imu)
      && (p.Some? ==> WellDelivered(s, t, p.value))
      && (p.Some? <==> s.lidar != [] && s.imu != [] && s.lastImuStamp >= TakeUp(s).endTime)
      && (p.Some? ==> p.value.endTime == TakeUp(s).endTime && !t.pushed)
  {
    hide TakeUp, SyncPackages, Delivered, Consistent;
    SyncCases(s);
    if s.lidar != [] && s.imu != [] {
      TakeUpConsistent(s);
      if s.lastImuStamp >= TakeUp(s).endTime {
        DeliveredIsDivided(TakeUp(s));
      }
    }
  }

  // The scan delivered is the one that leaves the queue if and only if none was taken up before it, or the one taken up
  // is still the front one. A queue that is emptied while a scan is taken up breaks this.
  lemma DeliversFrontIff(s: Sync)
    requires SyncPackages(s).1.Some?
    ensures s.lidar != [] && SyncPackages(s).0.lidar == s.lidar[1..]
    ensures SyncPackages(s).1.value.scan == s.lidar[0] <==> !s.pushed || s.beginning == s.lidar[0]
  {
    hide BatchSize;
  }
}
