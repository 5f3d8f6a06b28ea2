/**
 The mapping node itself: its buffers and the callbacks that change them. Each callback is proved to do what the
 functions of MappingRun say, so that the results about whole runs are results about this code.

 The global variables of the node are grouped by the part of the node that uses them: the buffers of the two
 lidars, the queue of fused scans with the IMU buffer, and the prediction.
 */
module LaserMapping {
  import opened LidarFusion
  import opened ImuSync
  import D = MappingDelivery
  import R = MappingRun
  import U = PredictionRun
  import P = ImuPredict

  function Frames(clouds: seq<Cloud>, times: seq<real>): (frames: seq<Frame>)
    requires |clouds| == |times|
    ensures |frames| == |clouds|
  {
    seq(|clouds|, i requires 0 <= i < |clouds| => Frame(clouds[i], times[i]))
  }

  lemma FramesPop(clouds: seq<Cloud>, times: seq<real>)
    requires |clouds| == |times| != 0
    ensures Frames(clouds[1..], times[1..]) == Frames(clouds, times)[1..]
    ensures Frames(clouds, times)[0] == Frame(clouds[0], times[0])
  {}

  lemma NoFrames(clouds: seq<Cloud>, times: seq<real>)
    requires |clouds| == |times|
    ensures Frames(clouds, times) == [] <==> clouds == []
  {}

  lemma FusedScanIs(pair: Pair, tf: Transform)
    ensures FusedScan(pair, tf) == Frame(SortByCurvature(
              pair.right.cloud + Moved(tf, pair.left.stamp - pair.right.stamp, pair.left.cloud)), pair.right.stamp)
  {}

  lemma FramesPush(clouds: seq<Cloud>, times: seq<real>, cloud: Cloud, time: real)
    requires |clouds| == |times|
    ensures Frames(clouds + [cloud], times + [time]) == Frames(clouds, times) + [Frame(cloud, time)]
  {}

  lemma FramesEmpty()
    ensures Frames([], []) == []
  {}

  // --------------------------------------------------------------------------

  class ScanQueue {
    var lidarBuffer: seq<Cloud>
    var timeBuffer: seq<real>
    var imuBuffer: seq<Imu>
    var lastTimestampImu: real
    var lidarPushed: bool
    var measured: Frame
    var lidarEndTime: real
    var lidarMeanScanTime: real
    var scanNum: nat

    ghost predicate Valid()
      reads this
    {
      |lidarBuffer| == |timeBuffer|
    }

    ghost function State(): Sync
      reads this
      requires Valid()
    {
      Sync(Frames(lidarBuffer, timeBuffer), imuBuffer, lastTimestampImu, lidarPushed, measured, lidarEndTime,
           lidarMeanScanTime, scanNum)
    }

    constructor ()
      ensures Valid() && State() == Sync([], [], -1.0, false, Frame([], 0.0), 0.0, 0.0, 0)
    {
      lidarBuffer, timeBuffer, imuBuffer, lastTimestampImu := [], [], [], -1.0;
      lidarPushed, measured, lidarEndTime, lidarMeanScanTime, scanNum := false, Frame([], 0.0), 0.0, 0.0, 0;
    }

    method Push(cloud: Cloud, time: real)
      requires Valid()
      modifies this
      ensures Valid() && State() == old(State()).(lidar := old(State()).lidar + [Frame(cloud, time)])
    {
      FramesPush(lidarBuffer, timeBuffer, cloud, time);
      lidarBuffer, timeBuffer := lidarBuffer + [cloud], timeBuffer + [time];
    }

    method Clear()
      requires Valid()
      modifies this
      ensures Valid() && State() == old(State()).(lidar := [])
    {
      lidarBuffer, timeBuffer := [], [];
    }

    method OnImu(sample: Imu)
      requires Valid()
      modifies this
      ensures Valid() && State() == ReceiveImu(old(State()), sample)
    {
      if sample.stamp < lastTimestampImu {
        imuBuffer := [];
      }
      lastTimestampImu := sample.stamp;
      imuBuffer := imuBuffer + [sample];
    }

    method TakeUpScan()
      requires Valid() && lidarBuffer != []
      modifies this
      ensures Valid() && State() == TakeUp(old(State()))
      ensures imuBuffer == old(imuBuffer) && lidarBuffer == old(lidarBuffer) && timeBuffer == old(timeBuffer)
    {
      if lidarPushed {
        return;
      }
      measured := Frame(lidarBuffer[0], timeBuffer[0]);
      if |measured.cloud| <= 1 {
        lidarEndTime := measured.stamp + lidarMeanScanTime;
      } else if LastOffset(measured.cloud) < 0.5 * lidarMeanScanTime {
        lidarEndTime := measured.stamp + lidarMeanScanTime;
      } else {
        var offset := LastOffset(measured.cloud);
        scanNum := scanNum + 1;
        lidarEndTime := measured.stamp + offset;
        lidarMeanScanTime := lidarMeanScanTime + (offset - lidarMeanScanTime) / scanNum as real;
      }
      lidarPushed := true;
    }

    // Moves the samples of the scan out of the buffer.
    method TakeBatch() returns (batch: seq<Imu>)
      requires Valid() && imuBuffer != []
      modifies `imuBuffer
      ensures var n := BatchSize(old(imuBuffer), lidarEndTime, old(imuBuffer)[0].stamp);
        batch == old(imuBuffer)[..n] && imuBuffer == old(imuBuffer)[n..]
    {
      ghost var buffer := imuBuffer;
      var imuTime := imuBuffer[0].stamp;
      batch := [];
      while imuBuffer != [] && imuTime < lidarEndTime
        invariant batch + imuBuffer == buffer
        invariant |batch| + BatchSize(imuBuffer, lidarEndTime, imuTime)
               == BatchSize(buffer, lidarEndTime, buffer[0].stamp)
        decreases |imuBuffer|
      {
        imuTime := imuBuffer[0].stamp;
        if imuTime > lidarEndTime {
          break;
        }
        batch, imuBuffer := batch + [imuBuffer[0]], imuBuffer[1..];
      }
    }

    method SyncPackages() returns (package: Option<Package>)
      requires Valid()
      modifies this
      ensures Valid() && ImuSync.SyncPackages(old(State())) == (State(), package)
    {
      hide Frames, BatchSize, TakeUp, ImuSync.SyncPackages;
      SyncCases(State());
      if lidarBuffer == [] || imuBuffer == [] {
        return None;
      }
      TakeUpScan();
      if lastTimestampImu < lidarEndTime {
        return None;
      }
      package := DeliverScan();
    }

    // Hands over the scan taken up with its batch.
    method DeliverScan() returns (package: Option<Package>)
      requires Valid() && lidarBuffer != [] && imuBuffer != []
      modifies this
      ensures Valid() && (State(), package) == Delivered(old(State()))
    {
      hide Frames, BatchSize;
      var batch := TakeBatch();
      FramesPop(lidarBuffer, timeBuffer);
      lidarBuffer, timeBuffer := lidarBuffer[1..], timeBuffer[1..];
      lidarPushed := false;
      package := Some(Package(measured, lidarEndTime, batch));
    }
  }

  // --------------------------------------------------------------------------

  class DualLidar {
    var lidarRightBuffer: seq<Cloud>
    var time151Buffer: seq<real>
    var lidarLeftBuffer: seq<Cloud>
    var time159Buffer: seq<real>
    var lastTimestampRight: real
    var lastTimestampLeft: real
    var isFirstLidar: bool

    // Each cloud buffer is in lockstep with its time buffer.
    ghost predicate Valid()
      reads this
    {
      |lidarRightBuffer| == |time151Buffer| && |lidarLeftBuffer| == |time159Buffer|
    }

    ghost function State(): R.Lidars
      reads this
      requires Valid()
    {
      R.Lidars(Frames(lidarRightBuffer, time151Buffer), Frames(lidarLeftBuffer, time159Buffer),
               lastTimestampRight, lastTimestampLeft, !isFirstLidar)
    }

    constructor ()
      ensures Valid() && State() == R.Lidars([], [], -1.0, -1.0, false)
    {
      lidarRightBuffer, time151Buffer, lidarLeftBuffer, time159Buffer := [], [], [], [];
      lastTimestampRight, lastTimestampLeft, isFirstLidar := -1.0, -1.0, true;
    }

    method OnRightCloud(cloud: Cloud, time: real, scans: ScanQueue)
      requires Valid() && scans.Valid()
      modifies this, scans
      ensures Valid() && scans.Valid()
      ensures var back := R.LoopsBack(old(State()).seen, old(State()).lastRight, Frame(cloud, time));
        && State() == old(State()).(right := (if back then [] else old(State()).right) + [Frame(cloud, time)],
                                    lastRight := time, seen := true)
        && scans.State() == if back then old(scans.State()).(lidar := []) else old(scans.State())
    {
      FramesEmpty();
      if !isFirstLidar && lastTimestampRight > 0.0 && time < lastTimestampRight {
        lidarRightBuffer, time151Buffer := [], [];
        scans.Clear();
      }
      FramesPush(lidarRightBuffer, time151Buffer, cloud, time);
      hide Frames;
      isFirstLidar := false;
      lastTimestampRight := time;
      lidarRightBuffer, time151Buffer := lidarRightBuffer + [cloud], time151Buffer + [time];
    }

    method OnLeftCloud(cloud: Cloud, time: real, scans: ScanQueue)
      requires Valid() && scans.Valid()
      modifies this, scans
      ensures Valid() && scans.Valid()
      ensures var back := R.LoopsBack(old(State()).seen, old(State()).lastLeft, Frame(cloud, time));
        && State() == old(State()).(left := (if back then [] else old(State()).left) + [Frame(cloud, time)],
                                    lastLeft := time, seen := true)
        && scans.State() == if back then old(scans.State()).(lidar := []) else old(scans.State())
    {
      FramesEmpty();
      if !isFirstLidar && lastTimestampLeft > 0.0 && time < lastTimestampLeft {
        lidarLeftBuffer, time159Buffer := [], [];
        scans.Clear();
      }
      FramesPush(lidarLeftBuffer, time159Buffer, cloud, time);
      hide Frames;
      isFirstLidar := false;
      lastTimestampLeft := time;
      lidarLeftBuffer, time159Buffer := lidarLeftBuffer + [cloud], time159Buffer + [time];
    }

    method PopRight()
      requires Valid() && lidarRightBuffer != []
      modifies this
      ensures Valid() && State() == old(State()).(right := old(State()).right[1..])
      ensures |lidarRightBuffer| == old(|lidarRightBuffer|) - 1 && |lidarLeftBuffer| == old(|lidarLeftBuffer|)
    {
      FramesPop(lidarRightBuffer, time151Buffer);
      hide Frames;
      lidarRightBuffer, time151Buffer := lidarRightBuffer[1..], time151Buffer[1..];
    }

    method PopLeft()
      requires Valid() && lidarLeftBuffer != []
      modifies this
      ensures Valid() && State() == old(State()).(left := old(State()).left[1..])
      ensures |lidarLeftBuffer| == old(|lidarLeftBuffer|) - 1 && |lidarRightBuffer| == old(|lidarRightBuffer|)
    {
      FramesPop(lidarLeftBuffer, time159Buffer);
      hide Frames;
      lidarLeftBuffer, time159Buffer := lidarLeftBuffer[1..], time159Buffer[1..];
    }

    method MergeClouds(right: Cloud, left: Cloud, tf: Transform, dt: real) returns (fused: Cloud)
      ensures fused == SortByCurvature(right + Moved(tf, dt, left))
      ensures IsMerged(fused, right, left, tf, dt)
    {
      hide IsMerged;
      SortIsMerged(right, left, tf, dt);
      var moved: Cloud := [];
      for i := 0 to |left|
        invariant moved == Moved(tf, dt, left)[..i]
      {
        moved := moved + [Move(tf, dt, left[i])];
      }
      assert moved == Moved(tf, dt, left);
      fused := SortByCurvature(right + moved);
    }

    method MergeHeads(tf: Transform) returns (fused: Cloud, t151: real)
      requires Valid() && State().right != [] && State().left != []
      ensures Frame(fused, t151) == FusedScan(Pair(State().right[0], State().left[0]), tf)
    {
      FramesPop(lidarRightBuffer, time151Buffer);
      FramesPop(lidarLeftBuffer, time159Buffer);
      FusedScanIs(Pair(State().right[0], State().left[0]), tf);
      hide Frames, SortByCurvature, Moved, IsMerged, FusedScan;
      t151 := time151Buffer[0];
      var dt := time159Buffer[0] - t151;
      fused := MergeClouds(lidarRightBuffer[0], lidarLeftBuffer[0], tf, dt);
    }

    // Fuses the heads of the two buffers and queues what comes of it under the right stamp.
    method FuseHeads(tf: Transform, scans: ScanQueue)
      requires Valid() && scans.Valid() && State().right != [] && State().left != []
      modifies this, scans
      ensures Valid() && scans.Valid()
      ensures State() == old(State()).(right := old(State()).right[1..], left := old(State()).left[1..])
      ensures scans.State() == old(scans.State()).(lidar := old(scans.State()).lidar
                                              + [FusedScan(Pair(old(State()).right[0], old(State()).left[0]), tf)])
    {
      hide Frames, FusedScan;
      var cloud, t151 := MergeHeads(tf);
      PopHeads();
      scans.Push(cloud, t151);
    }

    method PopHeads()
      requires Valid() && State().right != [] && State().left != []
      modifies this
      ensures Valid()
      ensures State() == old(State()).(right := old(State()).right[1..], left := old(State()).left[1..])
    {
      NoFrames(lidarRightBuffer, time151Buffer);
      NoFrames(lidarLeftBuffer, time159Buffer);
      hide Frames;
      PopRight();
      PopLeft();
    }

    // Drops what cannot be paired, then fuses at most one pair and queues it.
    method FuseDualLidarFrameOnce(tf: Option<Transform>, scans: ScanQueue) returns (fused: bool)
      requires Valid() && scans.Valid()
      modifies this, scans
      ensures Valid() && scans.Valid()
      ensures var q := Skip(old(State()).right, old(State()).left);
        && (fused <==> q.right != [] && q.left != [] && tf.Some?)
        && State() == old(State()).(right := if fused then q.right[1..] else q.right,
                                    left := if fused then q.left[1..] else q.left)
        && scans.State() == if fused
             then old(scans.State()).(lidar := old(scans.State()).lidar
                                                + [FusedScan(Pair(q.right[0], q.left[0]), tf.value)])
             else old(scans.State())
    {
      ghost var before := State();
      hide Frames, FusedScan;
      while lidarRightBuffer != [] && lidarLeftBuffer != []
        invariant Valid() && scans.Valid() && scans.State() == old(scans.State())
        invariant Skip(State().right, State().left) == Skip(before.right, before.left)
        invariant State().(right := before.right, left := before.left) == before
        decreases |lidarRightBuffer| + |lidarLeftBuffer|
      {
        FramesPop(lidarRightBuffer, time151Buffer);
        FramesPop(lidarLeftBuffer, time159Buffer);
        var t151, t159 := time151Buffer[0], time159Buffer[0];
        var dt := t159 - t151;
        if -WINDOW < dt < WINDOW {
          if tf == None {
            return false;
          }
          FuseHeads(tf.value, scans);
          return true;
        }
        if dt > WINDOW {
          PopRight();
        } else {
          PopLeft();
        }
      }
      return false;
    }
  }

  // --------------------------------------------------------------------------

  class Prediction<!S> {
    const step: P.Step<S>
    var imuPredictBuffer: seq<Imu>
    var predictState: S
    var lastOptimizedState: S
    var lastOptimizedTime: real
    var hasFirstLidarState: bool
    var lastPredictImuTime: real

    ghost function State(): P.Predictor<S>
      reads this
    {
      P.Predictor(imuPredictBuffer, predictState, lastOptimizedState, lastOptimizedTime, hasFirstLidarState,
                  lastPredictImuTime)
    }

    constructor (step: P.Step<S>, state: S)
      ensures State() == P.Predictor([], state, state, -1.0, false, -1.0) && this.step == step
    {
      this.step := step;
      imuPredictBuffer, predictState, lastOptimizedState := [], state, state;
      lastOptimizedTime, hasFirstLidarState, lastPredictImuTime := -1.0, false, -1.0;
    }

    method OnImu(sample: Imu)
      modifies this
      ensures State() == P.Receive(step, old(State()), sample)
    {
      imuPredictBuffer := imuPredictBuffer + [sample];
      if !hasFirstLidarState {
        lastPredictImuTime := sample.stamp;
        return;
      }
      if lastPredictImuTime < 0.0 {
        predictState := lastOptimizedState;
        lastPredictImuTime := if lastOptimizedTime > 0.0 then lastOptimizedTime else sample.stamp;
      }
      if |imuPredictBuffer| < 2 {
        return;
      }
      var previous := imuPredictBuffer[|imuPredictBuffer| - 2];
      predictState := P.Integrate(step, predictState, previous, sample, sample.stamp - previous.stamp);
      lastPredictImuTime := sample.stamp;
    }

    method DropOld(time: real)
      modifies `imuPredictBuffer
      ensures imuPredictBuffer == P.DropBefore(old(imuPredictBuffer), time)
    {
      while imuPredictBuffer != [] && imuPredictBuffer[0].stamp < time
        invariant P.DropBefore(imuPredictBuffer, time) == P.DropBefore(old(imuPredictBuffer), time)
        decreases |imuPredictBuffer|
      {
        imuPredictBuffer := imuPredictBuffer[1..];
      }
    }

    // Integrates every buffered sample, starting from the optimised state.
    method Reintegrate()
      modifies `predictState, `lastPredictImuTime
      ensures predictState == P.Replay(step, lastOptimizedState, lastOptimizedTime, None, imuPredictBuffer)
      ensures lastPredictImuTime == P.LastStepped(lastOptimizedTime, lastOptimizedTime, imuPredictBuffer)
    {
      predictState, lastPredictImuTime := lastOptimizedState, lastOptimizedTime;
      var previous: Option<Imu> := None;
      var previousTime := lastOptimizedTime;
      ghost var rest := imuPredictBuffer;
      for i := 0 to |imuPredictBuffer|
        invariant rest == imuPredictBuffer[i..]
        invariant P.Replay(step, predictState, previousTime, previous, rest)
               == P.Replay(step, lastOptimizedState, lastOptimizedTime, None, imuPredictBuffer)
        invariant P.LastStepped(previousTime, lastPredictImuTime, rest)
               == P.LastStepped(lastOptimizedTime, lastOptimizedTime, imuPredictBuffer)
      {
        var sample := imuPredictBuffer[i];
        var dt := sample.stamp - previousTime;
        assert rest[0] == sample && rest[1..] == imuPredictBuffer[i + 1..];
        rest := rest[1..];
        if dt <= P.MINIMAL_STEP {
          previous, previousTime := Some(sample), sample.stamp;
          continue;
        }
        if previous.Some? {
          predictState := P.Integrate(step, predictState, previous.value, sample, dt);
        } else {
          predictState := P.Integrate(step, predictState, sample, sample, dt);
        }
        previous, previousTime := Some(sample), sample.stamp;
        lastPredictImuTime := sample.stamp;
      }
    }

    method Reset(optimized: S, endTime: real)
      modifies this
      ensures State() == P.Reset(step, old(State()), optimized, endTime)
      ensures lastOptimizedState == optimized && lastOptimizedTime == endTime && hasFirstLidarState
    {
      lastOptimizedState, lastOptimizedTime, hasFirstLidarState := optimized, endTime, true;
      DropOld(lastOptimizedTime);
      Reintegrate();
    }
  }

  // --------------------------------------------------------------------------

  class Mapper<!S> {
    const lidars: DualLidar
    const scans: ScanQueue
    const prediction: Prediction<S>

    // The state the estimator started from, the events so far and what has come out of them.
    ghost const initial: S
    ghost var events: seq<R.Event<S>>
    ghost var history: R.History

    // The node is where the run of these events leads.
    ghost predicate Valid()
      reads this, lidars, scans, prediction
    {
      && lidars.Valid() && scans.Valid()
      && R.Run(prediction.step, initial, events) == (State(), history)
    }

    ghost function State(): R.Node<S>
      reads lidars, scans, prediction
      requires lidars.Valid() && scans.Valid()
    {
      R.Node(lidars.State(), scans.State(), prediction.State())
    }

    // With non-negative stamps: once a lidar update has been made, the prediction is the replay of a non-empty buffer.
    ghost predicate CacheIsReplay()
      reads this, prediction
    {
      D.NonNegative(R.Rights(events)) && D.NonNegativeSamples(R.Samples(events)) && prediction.hasFirstLidarState ==>
        && prediction.imuPredictBuffer != []
        && prediction.predictState == P.Replay(prediction.step, prediction.lastOptimizedState,
                                               prediction.lastOptimizedTime, None, prediction.imuPredictBuffer)
    }

    // With stamps that do not go back: nothing of the IMU stream is lost, late or missed, the end times cover the
    // scans, the fused scans are delivered or waiting in order, and the fused pairs are those that the two streams
    // yield.
    ghost predicate StreamsAreKept()
      reads this, lidars, scans, prediction
      requires lidars.Valid() && scans.Valid()
    {
      Ordered(R.Rights(events)) && Ordered(R.Lefts(events)) && Sorted(R.Samples(events)) ==>
        && D.Batches(history.packages) + scans.imuBuffer == R.Samples(events)
        && D.NoneLate(history.packages) && D.NoneMissed(history.packages, R.Samples(events))
        && D.AllCovered(history.packages)
        && D.Scans(history.packages) + scans.State().lidar == D.FusedScans(history.fusions)
        && R.Pairs(history.fusions) <= Drain(R.Rights(events), R.Lefts(events))
    }

    // The prediction starts from the latest update; if the IMU does not go back, it goes through the samples since the
    // ends of the scans of all updates.
    ghost predicate UpdatesAreUsed()
      reads this, prediction
    {
      var samples, updates := R.Samples(events), U.Updates(prediction.step, initial, events);
      && U.StartsAt(prediction.State(), initial, updates)
      && (Sorted(samples) ==> U.Retains(prediction.State(), samples, updates))
    }

    lemma RunResults()
      requires Valid()
      ensures CacheIsReplay() && StreamsAreKept() && UpdatesAreUsed()
    {
      hide U.StartsAt, U.Retains, U.Updates, U.NewestIsLate;
      U.RunStartsAt(prediction.step, initial, events);
      if Sorted(R.Samples(events)) {
        U.RunRetains(prediction.step, initial, events);
      }
      hide R.Run, Drain, P.Replay, D.Batches, D.NoneLate, D.NoneMissed, D.AllCovered, D.FusedScans, R.Pairs, Ordered;
      hide D.NonNegative, D.NonNegativeSamples, R.Rights, R.Lefts, R.Samples, Sorted, D.Scans;
      if D.NonNegative(R.Rights(events)) && D.NonNegativeSamples(R.Samples(events)) {
        D.CacheEqualsReplay(prediction.step, initial, events);
      }
      if Ordered(R.Rights(events)) && Ordered(R.Lefts(events)) && Sorted(R.Samples(events)) {
        D.ImuStreamIsPartitioned(prediction.step, initial, events);
        R.FusionIsScheduleIndependent(prediction.step, initial, events, R.Rights(events), R.Lefts(events));
      }
    }

    constructor (step: P.Step<S>, state: S)
      ensures Valid() && State() == R.Start(state) && prediction.step == step && events == []
      ensures fresh(lidars) && fresh(scans) && fresh(prediction)
    {
      lidars := new DualLidar();
      scans := new ScanQueue();
      prediction := new Prediction(step, state);
      initial, events, history := state, [], R.History([], []);
    }

    method OnRightCloud(cloud: Cloud, time: real)
      requires Valid()
      modifies this, lidars, scans
      ensures Valid() && State() == R.ReceiveRight(old(State()), Frame(cloud, time))
      ensures events == old(events) + [R.RightFrame(Frame(cloud, time))] && history == old(history)
      ensures CacheIsReplay() && StreamsAreKept() && UpdatesAreUsed()
    {
      lidars.OnRightCloud(cloud, time, scans);
      hide R.Run, Frames;
      R.OneMoreEvent(prediction.step, initial, events, R.RightFrame(Frame(cloud, time)));
      events := events + [R.RightFrame(Frame(cloud, time))];
      RunResults();
    }

    method OnLeftCloud(cloud: Cloud, time: real)
      requires Valid()
      modifies this, lidars, scans
      ensures Valid() && State() == R.ReceiveLeft(old(State()), Frame(cloud, time))
      ensures events == old(events) + [R.LeftFrame(Frame(cloud, time))] && history == old(history)
      ensures CacheIsReplay() && StreamsAreKept() && UpdatesAreUsed()
    {
      lidars.OnLeftCloud(cloud, time, scans);
      hide R.Run, Frames;
      R.OneMoreEvent(prediction.step, initial, events, R.LeftFrame(Frame(cloud, time)));
      events := events + [R.LeftFrame(Frame(cloud, time))];
      RunResults();
    }

    method OnImu(sample: Imu)
      requires Valid()
      modifies this, scans, prediction
      ensures Valid() && State() == R.ReceiveSample(prediction.step, old(State()), sample)
      ensures events == old(events) + [R.Sample(sample)] && history == old(history)
      ensures CacheIsReplay() && StreamsAreKept() && UpdatesAreUsed()
    {
      scans.OnImu(sample);
      prediction.OnImu(sample);
      hide R.Run, Frames;
      R.OneMoreEvent(prediction.step, initial, events, R.Sample(sample));
      events := events + [R.Sample(sample)];
      RunResults();
    }

    // The first part of a timer call.
    method Fuse(tf: Option<Transform>)
      requires lidars.Valid() && scans.Valid()
      modifies lidars, scans
      ensures lidars.Valid() && scans.Valid() && State() == R.Fuse(old(State()), tf).0
    {
      hide Skip, Frames, FusedScan;
      var _ := lidars.FuseDualLidarFrameOnce(tf, scans);
    }

    // The second part: a package is delivered if one is complete, and the prediction restarts if there is an update.
    method Deliver(update: Option<S>) returns (package: Option<Package>)
      requires lidars.Valid() && scans.Valid()
      modifies scans, prediction
      ensures lidars.Valid() && scans.Valid()
      ensures (State(), package) == R.Deliver(prediction.step, old(State()), update)
      ensures package.Some? && update.Some? ==>
        prediction.lastOptimizedState == update.value && prediction.lastOptimizedTime == package.value.endTime
    {
      hide SyncPackages, Frames;
      package := scans.SyncPackages();
      if package.Some? && update.Some? {
        prediction.Reset(update.value, package.value.endTime);
      }
    }

    // One period of the timer; the estimator may skip the scan.
    method OnTimer(tf: Option<Transform>, update: Option<S>) returns (package: Option<Package>)
      requires Valid()
      modifies this, lidars, scans, prediction
      ensures Valid() && (State(), history) == R.Next(prediction.step, old(State()), old(history), R.Timer(tf, update))
      ensures history.packages == old(history).packages + R.Listed(package)
      ensures package.Some? && update.Some? ==>
        prediction.lastOptimizedState == update.value && prediction.lastOptimizedTime == package.value.endTime
      ensures events == old(events) + [R.Timer(tf, update)]
      ensures CacheIsReplay() && StreamsAreKept() && UpdatesAreUsed()
    {
      hide Skip, SyncPackages, Frames, R.Run, R.Fuse, R.Deliver;
      ghost var before := State();
      Fuse(tf);
      ghost var fused := State();
      package := Deliver(update);
      R.TimerIs(prediction.step, before, history, tf, update);
      R.OneMoreEvent(prediction.step, initial, events, R.Timer(tf, update));
      events, history :=
        events + [R.Timer(tf, update)], R.Next(prediction.step, before, history, R.Timer(tf, update)).1;
      RunResults();
    }
  }
}
