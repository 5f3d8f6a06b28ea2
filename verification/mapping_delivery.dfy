/**
 What whole runs of the mapping node deliver to the estimator, and what the prediction cache holds on the way.
 */
module MappingDelivery {
  import opened LidarFusion
  import opened ImuSync
  import opened MappingRun
  import P = ImuPredict

  function Batches(packages: seq<ImuSync.Package>): seq<Imu>
    decreases |packages|
  {
    if packages == [] then [] else Batches(packages[..|packages| - 1]) + packages[|packages| - 1].imu
  }

  function Scans(packages: seq<ImuSync.Package>): (scans: seq<Frame>)
    ensures |scans| == |packages|
  {
    seq(|packages|, i requires 0 <= i < |packages| => packages[i].scan)
  }

  function FusedScans(fusions: seq<Fusion>): (scans: seq<Frame>)
    ensures |scans| == |fusions|
  {
    seq(|fusions|, i requires 0 <= i < |fusions| => FusedScan(fusions[i].pair, fusions[i].tf))
  }

  // --------------------------------------------------------------------------
  // The IMU stream is partitioned

  // No sample after the batches up to package k, whether still buffered or yet to come, is before its end time.
  ghost predicate NoneMissed(packages: seq<ImuSync.Package>, samples: seq<Imu>) {
    forall k, i :: 0 <= k < |packages| && |Batches(packages[..k + 1])| <= i < |samples|
      ==> samples[i].stamp >= packages[k].endTime
  }

  ghost predicate NoneLate(packages: seq<ImuSync.Package>) {
    forall k, i :: 0 <= k < |packages| && 0 <= i < |packages[k].imu|
      ==> packages[k].imu[i].stamp <= packages[k].endTime
  }

  // No point of a delivered scan of several points is later than the end time of its package.
  ghost predicate AllCovered(packages: seq<ImuSync.Package>) {
    forall k, i :: 0 <= k < |packages| && |packages[k].scan.cloud| > 1 && 0 <= i < |packages[k].scan.cloud|
      ==> packages[k].scan.stamp + packages[k].scan.cloud[i].curvature / 1000.0 <= packages[k].endTime
  }

  ghost predicate Sound(p: ImuSync.Package, newest: real) {
    && (forall i :: 0 <= i < |p.imu| ==> p.imu[i].stamp <= p.endTime)
    && p.endTime <= newest
    && Covers(p.scan, p.endTime)
  }

  ghost predicate AllSound(packages: seq<ImuSync.Package>, newest: real) {
    forall k :: 0 <= k < |packages| ==> Sound(packages[k], newest)
  }

  ghost predicate ScansInOrder(packages: seq<ImuSync.Package>, lidar: seq<Frame>, fusions: seq<Fusion>) {
    Scans(packages) + lidar == FusedScans(fusions)
  }

  ghost predicate Partitioned(sync: Sync, h: History, samples: seq<Imu>) {
    && Consistent(sync)
    && Batches(h.packages) + sync.imu == samples
    && ScansInOrder(h.packages, sync.lidar, h.fusions)
    && NoneMissed(h.packages, samples)
    && AllSound(h.packages, sync.lastImuStamp)
    && (samples != [] ==> sync.lastImuStamp == samples[|samples| - 1].stamp)
    && (samples == [] ==> h.packages == [])
  }

  lemma SampleKeepsPartition(sync: Sync, h: History, samples: seq<Imu>, sample: Imu)
    requires Partitioned(sync, h, samples) && Sorted(samples + [sample])
    ensures Partitioned(ReceiveImu(sync, sample), h, samples + [sample])
  {
    var t, all := ReceiveImu(sync, sample), samples + [sample];
    if samples != [] {
      assert all[|samples| - 1].stamp <= all[|samples|].stamp;
      assert t.imu == sync.imu + [sample];
    } else {
      assert sync.imu == [];
    }
    assert Batches(h.packages) + t.imu == all;
    forall i, j | 0 <= i < j < |t.imu| ensures t.imu[i].stamp <= t.imu[j].stamp {
      var d := |Batches(h.packages)|;
      assert t.imu[i] == all[d + i] && t.imu[j] == all[d + j];
    }
    NoneMissedBySample(h.packages, samples, sample, sync.lastImuStamp);
  }

  lemma NoneMissedBySample(packages: seq<ImuSync.Package>, samples: seq<Imu>, sample: Imu, newest: real)
    requires NoneMissed(packages, samples) && AllSound(packages, newest)
    requires packages != [] ==> newest <= sample.stamp
    ensures NoneMissed(packages, samples + [sample]) && AllSound(packages, sample.stamp)
  {
    hide Batches, Covers;
    var all := samples + [sample];
    forall k | 0 <= k < |packages| ensures packages[k].endTime <= newest <= sample.stamp {
      assert Sound(packages[k], newest);
    }
    forall k, i | 0 <= k < |packages| && |Batches(packages[..k + 1])| <= i < |all|
      ensures all[i].stamp >= packages[k].endTime
    {
      if i < |samples| { assert all[i] == samples[i]; }
    }
  }

  lemma ScanKeepsPartition(sync: Sync, h: History, samples: seq<Imu>, fusion: Fusion)
    requires Partitioned(sync, h, samples)
    ensures Partitioned(sync.(lidar := sync.lidar + [FusedScan(fusion.pair, fusion.tf)]),
                        h.(fusions := h.fusions + [fusion]), samples)
  {
    hide FusedScan, AllSound, NoneMissed, Sorted, Batches, Covers;
    var scan := FusedScan(fusion.pair, fusion.tf);
    assert FusedScans(h.fusions + [fusion]) == FusedScans(h.fusions) + [scan];
    assert Scans(h.packages) + (sync.lidar + [scan]) == FusedScans(h.fusions + [fusion]);
  }

  lemma NoneMissedByNext(packages: seq<ImuSync.Package>, samples: seq<Imu>, p: ImuSync.Package, rest: seq<Imu>)
    requires NoneMissed(packages, samples) && Batches(packages) + (p.imu + rest) == samples
    requires forall i :: 0 <= i < |rest| ==> rest[i].stamp >= p.endTime
    ensures NoneMissed(packages + [p], samples) && Batches(packages + [p]) + rest == samples
  {
    var all := packages + [p];
    BatchesGrow(packages, p);
    hide Batches;
    var d := |Batches(all)|;
    assert samples == Batches(all) + rest;
    forall k, i | 0 <= k < |all| && |Batches(all[..k + 1])| <= i < |samples|
      ensures samples[i].stamp >= all[k].endTime
    {
      if k < |packages| {
        assert all[..k + 1] == packages[..k + 1];
      } else {
        assert all[..k + 1] == all;
        assert samples[i] == rest[i - d];
      }
    }
  }

  lemma BatchesGrow(packages: seq<ImuSync.Package>, p: ImuSync.Package)
    ensures Batches(packages + [p]) == Batches(packages) + p.imu
  {
    assert (packages + [p])[..|packages|] == packages;
  }

  lemma PackageKeepsPartition(sync: Sync, h: History, samples: seq<Imu>)
    requires Partitioned(sync, h, samples)
    ensures var (t, package) := SyncPackages(sync);
      Partitioned(t, h.(packages := h.packages + Listed(package)), samples)
  {
    var (t, package) := SyncPackages(sync);
    DeliveredPackage(sync);
    SyncKeepsStamp(sync);
    hide SyncPackages, Consistent, NoneMissed, Batches, AllSound, ScansInOrder, Covers;
    if package.Some? {
      var p := package.value;
      NoneMissedByNext(h.packages, samples, p, t.imu);
      OneMoreSound(h.packages, p, t.lastImuStamp);
      ScanMovesOver(h.packages, p, sync.lidar, h.fusions);
    } else {
      assert h.packages + [] == h.packages;
    }
  }

  lemma OneMoreSound(packages: seq<ImuSync.Package>, p: ImuSync.Package, newest: real)
    requires AllSound(packages, newest) && Sound(p, newest)
    ensures AllSound(packages + [p], newest)
  {}

  lemma ScanMovesOver(packages: seq<ImuSync.Package>, p: ImuSync.Package, lidar: seq<Frame>, fusions: seq<Fusion>)
    requires ScansInOrder(packages, lidar, fusions) && lidar != [] && p.scan == lidar[0]
    ensures ScansInOrder(packages + [p], lidar[1..], fusions)
  {
    assert Scans(packages + [p]) == Scans(packages) + [p.scan];
    assert Scans(packages + [p]) + lidar[1..] == Scans(packages) + lidar;
  }

  lemma SyncKeepsStamp(sync: Sync)
    ensures var (t, package) := SyncPackages(sync);
      t.lastImuStamp == sync.lastImuStamp && (package.Some? ==> sync.lidar != [] && sync.imu != [])
  {}

  lemma NextKeepsPartition<S>(step: P.Step<S>, n: Node<S>, h: History, e: Event<S>, right: seq<Frame>, left: seq<Frame>,
                              samples: seq<Imu>)
    requires Partitioned(n.sync, h, samples)
    requires LastStamp(right, n.lidars.lastRight) && LastStamp(left, n.lidars.lastLeft)
    requires Ordered(right + RightOf(e)) && Ordered(left + LeftOf(e)) && Sorted(samples + SampleOf(e))
    ensures var (m, k) := Next(step, n, h, e); Partitioned(m.sync, k, samples + SampleOf(e))
  {
    hide Partitioned, SyncPackages, Skip;
    assert samples + [] == samples;
    match e
    case RightFrame(frame) => RightIsAppended(n, frame, right);
    case LeftFrame(frame) => LeftIsAppended(n, frame, left);
    case Sample(sample) => SampleKeepsPartition(n.sync, h, samples, sample);
    case Timer(tf, update) =>
      var (m, fusion) := Fuse(n, tf);
      var g := History(h.fusions + Listed(fusion), h.packages);
      if fusion.Some? {
        ScanKeepsPartition(n.sync, h, samples, fusion.value);
      } else {
        assert h.fusions + [] == h.fusions;
      }
      assert Partitioned(m.sync, g, samples);
      PackageKeepsPartition(m.sync, g, samples);
  }

  lemma StartIsPartitioned<S>(state: S)
    ensures Partitioned(Start(state).sync, History([], []), [])
  {
    assert FusedScans([]) == [];
  }

  lemma {:induction false} RunIsPartitioned<S>(step: P.Step<S>, state: S, events: seq<Event<S>>)
    requires Ordered(Rights(events)) && Ordered(Lefts(events)) && Sorted(Samples(events))
    ensures var (n, h) := Run(step, state, events); Partitioned(n.sync, h, Samples(events))
    decreases |events|
  {
    if events == [] {
      StartIsPartitioned(state);
    } else {
      var before := events[..|events| - 1];
      OrderedPrefix(events);
      assert Samples(before) == Samples(events)[..|Samples(before)|];
      RunIsPartitioned(step, state, before);
      RunStaysOnTrack(step, state, before);
      var (n, h) := Run(step, state, before);
      hide Ordered, LastStamp, Next, Partitioned, OnTrack;
      NextKeepsPartition(step, n, h, events[|events| - 1], Rights(before), Lefts(before), Samples(before));
    }
  }

  lemma FusedScansAreSorted(packages: seq<ImuSync.Package>, lidar: seq<Frame>, fusions: seq<Fusion>)
    requires Scans(packages) + lidar == FusedScans(fusions)
    requires forall k :: 0 <= k < |packages| ==> Covers(packages[k].scan, packages[k].endTime)
    ensures AllCovered(packages)
  {
    hide SortByCurvature, Moved;
    forall k | 0 <= k < |packages| ensures ByCurvature(packages[k].scan.cloud) {
      var pair, tf := fusions[k].pair, fusions[k].tf;
      assert packages[k].scan == Scans(packages)[k] == FusedScans(fusions)[k] == FusedScan(pair, tf);
      SortIsSortedPermutation(pair.right.cloud + Moved(tf, pair.left.stamp - pair.right.stamp, pair.left.cloud));
    }
  }

  // In every run in which no stream goes back in time: the batches followed by the IMU buffer are the samples
  // received; no batch holds a sample after the end of its scan; every sample before the end of a delivered scan
  // has been delivered with it or earlier; the end is not before any point of the scan; and the scans delivered
  // are the fused ones, each once and in order.
  lemma ImuStreamIsPartitioned<S>(step: P.Step<S>, state: S, events: seq<Event<S>>)
    requires Ordered(Rights(events)) && Ordered(Lefts(events)) && Sorted(Samples(events))
    ensures var (n, h) := Run(step, state, events);
      && Batches(h.packages) + n.sync.imu == Samples(events)
      && NoneLate(h.packages)
      && NoneMissed(h.packages, Samples(events))
      && AllCovered(h.packages)
      && Scans(h.packages) + n.sync.lidar == FusedScans(h.fusions)
  {
    RunIsPartitioned(step, state, events);
    var (n, h) := Run(step, state, events);
    FusedScansAreSorted(h.packages, n.sync.lidar, h.fusions);
  }

  // --------------------------------------------------------------------------
  // The prediction cache

  ghost predicate NonNegative(frames: seq<Frame>) {
    forall i :: 0 <= i < |frames| ==> frames[i].stamp >= 0.0
  }

  ghost predicate NonNegativeSamples(samples: seq<Imu>) {
    forall i :: 0 <= i < |samples| ==> samples[i].stamp >= 0.0
  }

  ghost predicate EndsAreNonNegative(sync: Sync) {
    NonNegative(sync.lidar) && sync.meanScanTime >= 0.0 && (sync.pushed ==> sync.endTime >= 0.0)
  }

  // Both IMU buffers know the newest sample.
  ghost predicate NewestIsKnown<S>(n: Node<S>, samples: seq<Imu>) {
    if samples == [] then n.sync.imu == [] else
      var newest := samples[|samples| - 1];
      && n.sync.lastImuStamp == newest.stamp
      && n.predictor.buffer != [] && n.predictor.buffer[|n.predictor.buffer| - 1] == newest
  }

  ghost predicate Cached<S>(step: P.Step<S>, n: Node<S>, samples: seq<Imu>) {
    && NonNegative(n.lidars.right)
    && EndsAreNonNegative(n.sync)
    && NewestIsKnown(n, samples)
    && NonNegativeSamples(n.predictor.buffer)
    && P.Consistent(step, n.predictor)
  }

  lemma {:induction false} SkipKeepsNonNegative(right: seq<Frame>, left: seq<Frame>)
    requires NonNegative(right)
    ensures NonNegative(Skip(right, left).right)
    decreases |right| + |left|
  {
    if right != [] && left != [] && !Close(right[0], left[0]) {
      if DropsRight(right[0], left[0]) {
        SkipKeepsNonNegative(right[1..], left);
      } else {
        SkipKeepsNonNegative(right, left[1..]);
      }
    }
  }

  lemma TakeUpKeepsEnds(sync: Sync)
    requires EndsAreNonNegative(sync) && sync.lidar != []
    ensures EndsAreNonNegative(TakeUp(sync)) && TakeUp(sync).pushed
  {
    var scan := sync.lidar[0];
    if !sync.pushed && |scan.cloud| > 1 && LastOffset(scan.cloud) >= 0.5 * sync.meanScanTime {
      MeanStaysNonNegative(sync.meanScanTime, LastOffset(scan.cloud), sync.scans as real);
    }
  }

  lemma SyncKeepsEnds(sync: Sync)
    requires EndsAreNonNegative(sync)
    ensures var (t, package) := SyncPackages(sync);
      && EndsAreNonNegative(t)
      && t.lastImuStamp == sync.lastImuStamp
      && (sync.imu == [] ==> t.imu == [])
      && (package.Some? ==> 0.0 <= package.value.endTime <= sync.lastImuStamp && sync.imu != [])
  {
    if sync.lidar != [] {
      TakeUpKeepsEnds(sync);
      TakeUpKeepsBuffers(sync);
      hide TakeUp, BatchSize;
    }
  }

  lemma PackageKeepsCache<S>(step: P.Step<S>, n: Node<S>, samples: seq<Imu>, update: Option<S>)
    requires Cached(step, n, samples)
    ensures Cached(step, Deliver(step, n, update).0, samples)
  {
    SyncKeepsEnds(n.sync);
    hide EndsAreNonNegative, SyncPackages;
    var (t, package) := SyncPackages(n.sync);
    if package.Some? && update.Some? {
      P.ResetKeepsCache(step, n.predictor, update.value, package.value.endTime);
    }
  }

  lemma FuseKeepsCache<S>(step: P.Step<S>, n: Node<S>, samples: seq<Imu>, tf: Option<Transform>)
    requires Cached(step, n, samples)
    ensures Cached(step, Fuse(n, tf).0, samples)
  {
    SkipKeepsNonNegative(n.lidars.right, n.lidars.left);
    hide Skip;
  }

  lemma FrameKeepsCache<S>(step: P.Step<S>, n: Node<S>, samples: seq<Imu>, frame: Frame)
    requires Cached(step, n, samples)
    ensures frame.stamp >= 0.0 ==> Cached(step, ReceiveRight(n, frame), samples)
    ensures Cached(step, ReceiveLeft(n, frame), samples)
  {
    hide NonNegativeSamples, NewestIsKnown, P.Consistent;
    assert NewestIsKnown(ReceiveRight(n, frame), samples) && NewestIsKnown(ReceiveLeft(n, frame), samples) by {
      FrameKeepsNewest(n, samples, frame);
    }
  }

  lemma FrameKeepsNewest<S>(n: Node<S>, samples: seq<Imu>, frame: Frame)
    requires NewestIsKnown(n, samples)
    ensures NewestIsKnown(ReceiveRight(n, frame), samples) && NewestIsKnown(ReceiveLeft(n, frame), samples)
  {}

  lemma SampleKeepsCache<S>(step: P.Step<S>, n: Node<S>, samples: seq<Imu>, sample: Imu)
    requires Cached(step, n, samples) && sample.stamp >= 0.0
    ensures Cached(step, ReceiveSample(step, n, sample), samples + [sample])
  {
    P.ReceiveKeepsCache(step, n.predictor, sample);
    BufferGains(step, n.predictor, sample);
    hide P.Receive, P.Consistent;
  }

  lemma BufferGains<S>(step: P.Step<S>, p: P.Predictor<S>, sample: Imu)
    ensures P.Receive(step, p, sample).buffer == p.buffer + [sample]
  {}

  lemma NextKeepsCache<S>(step: P.Step<S>, n: Node<S>, h: History, e: Event<S>, samples: seq<Imu>)
    requires Cached(step, n, samples)
    requires NonNegative(RightOf(e)) && NonNegativeSamples(SampleOf(e))
    ensures Cached(step, Next(step, n, h, e).0, samples + SampleOf(e))
  {
    hide Cached, Fuse, Deliver, ReceiveRight, ReceiveLeft, ReceiveSample;
    assert samples + [] == samples;
    match e
    case RightFrame(frame) =>
      assert RightOf(e)[0] == frame;
      FrameKeepsCache(step, n, samples, frame);
    case LeftFrame(frame) => FrameKeepsCache(step, n, samples, frame);
    case Sample(sample) =>
      assert SampleOf(e)[0] == sample;
      SampleKeepsCache(step, n, samples, sample);
    case Timer(tf, update) =>
      FuseKeepsCache(step, n, samples, tf);
      PackageKeepsCache(step, Fuse(n, tf).0, samples, update);
  }

  lemma {:induction false} RunIsCached<S>(step: P.Step<S>, state: S, events: seq<Event<S>>)
    requires NonNegative(Rights(events)) && NonNegativeSamples(Samples(events))
    ensures Cached(step, Run(step, state, events).0, Samples(events))
    decreases |events|
  {
    if events != [] {
      var before, e := events[..|events| - 1], events[|events| - 1];
      assert Rights(before) == Rights(events)[..|Rights(before)|];
      assert RightOf(e) == Rights(events)[|Rights(before)|..];
      assert Samples(before) == Samples(events)[..|Samples(before)|];
      assert SampleOf(e) == Samples(events)[|Samples(before)|..];
      RunIsCached(step, state, before);
      var (n, h) := Run(step, state, before);
      hide Cached, Next;
      NextKeepsCache(step, n, h, e, Samples(before));
    }
  }

  // In every run with non-negative stamps, streams that go back in time included: once a lidar update has been
  // made, the prediction buffer is not empty and the cached state is the replay of the whole buffer.
  lemma CacheEqualsReplay<S>(step: P.Step<S>, state: S, events: seq<Event<S>>)
    requires NonNegative(Rights(events)) && NonNegativeSamples(Samples(events))
    ensures var p := Run(step, state, events).0.predictor;
      p.hasFirst ==> p.buffer != [] && p.state == P.Replay(step, p.optimized, p.optimizedTime, None, p.buffer)
  {
    RunIsCached(step, state, events);
  }
}
