/**
 Whole runs of the mapping node: any interleaving of the callbacks of the two lidars and of the IMU with timer
 calls, in each of which the transform between the lidars may be missing and the scan may be skipped by the
 estimator.
 */
module MappingRun {
  import opened LidarFusion
  import opened ImuSync
  import P = ImuPredict

  // A timer call is given the transform, if it is available, and the state the estimator arrives at, if it does
  // not skip the scan.
  datatype Event<+S> =
    | RightFrame(frame: Frame)
    | LeftFrame(frame: Frame)
    | Sample(sample: Imu)
    | Timer(tf: Option<Transform>, update: Option<S>)

  datatype Lidars = Lidars(right: seq<Frame>, left: seq<Frame>, lastRight: real, lastLeft: real, seen: bool)
  {
    function Buffered(): Queues { Queues(right, left) }
  }

  datatype Node<S> = Node(lidars: Lidars, sync: Sync, predictor: P.Predictor<S>)

  datatype Fusion = Fusion(pair: Pair, tf: Transform)

  // What has come out so far.
  datatype History = History(fusions: seq<Fusion>, packages: seq<Package>)

  // A frame older than the previous one of its side empties that side and the fused scans.
  predicate LoopsBack(seen: bool, last: real, frame: Frame) {
    seen && last > 0.0 && frame.stamp < last
  }

  function ReceiveRight<S>(n: Node<S>, frame: Frame): Node<S> {
    var back := LoopsBack(n.lidars.seen, n.lidars.lastRight, frame);
    n.(lidars := n.lidars.(right := (if back then [] else n.lidars.right) + [frame],
                           lastRight := frame.stamp, seen := true),
       sync := if back then n.sync.(lidar := []) else n.sync)
  }

  function ReceiveLeft<S>(n: Node<S>, frame: Frame): Node<S> {
    var back := LoopsBack(n.lidars.seen, n.lidars.lastLeft, frame);
    n.(lidars := n.lidars.(left := (if back then [] else n.lidars.left) + [frame],
                           lastLeft := frame.stamp, seen := true),
       sync := if back then n.sync.(lidar := []) else n.sync)
  }

  function ReceiveSample<S>(step: P.Step<S>, n: Node<S>, sample: Imu): Node<S> {
    n.(sync := ReceiveImu(n.sync, sample), predictor := P.Receive(step, n.predictor, sample))
  }

  function Fuse<S>(n: Node<S>, tf: Option<Transform>): (Node<S>, Option<Fusion>) {
    var q := Skip(n.lidars.right, n.lidars.left);
    if q.right == [] || q.left == [] || tf == None then
      (n.(lidars := n.lidars.(right := q.right, left := q.left)), None)
    else
      var fusion := Fusion(Pair(q.right[0], q.left[0]), tf.value);
      (n.(lidars := n.lidars.(right := q.right[1..], left := q.left[1..]),
          sync := n.sync.(lidar := n.sync.lidar + [FusedScan(fusion.pair, fusion.tf)])),
       Some(fusion))
  }

  function Deliver<S>(step: P.Step<S>, n: Node<S>, update: Option<S>): (Node<S>, Option<ImuSync.Package>) {
    var (sync, package) := SyncPackages(n.sync);
    var m := n.(sync := sync);
    if package.Some? && update.Some? then
      (m.(predictor := P.Reset(step, n.predictor, update.value, package.value.endTime)), package)
    else
      (m, package)
  }

  function Listed<T>(o: Option<T>): seq<T> {
    if o.Some? then [o.value] else []
  }

  function Next<S>(step: P.Step<S>, n: Node<S>, h: History, e: Event<S>): (Node<S>, History) {
    match e
    case RightFrame(frame) => (ReceiveRight(n, frame), h)
    case LeftFrame(frame) => (ReceiveLeft(n, frame), h)
    case Sample(sample) => (ReceiveSample(step, n, sample), h)
    case Timer(tf, update) =>
      var (m, fusion) := Fuse(n, tf);
      var (k, package) := Deliver(step, m, update);
      (k, History(h.fusions + Listed(fusion), h.packages + Listed(package)))
  }

  lemma TimerIs<S>(step: P.Step<S>, n: Node<S>, h: History, tf: Option<Transform>, update: Option<S>)
    ensures var (m, fusion) := Fuse(n, tf);
      var (k, package) := Deliver(step, m, update);
      Next(step, n, h, Timer(tf, update))
      == (k, History(h.fusions + Listed(fusion), h.packages + Listed(package)))
  {}

  function Start<S>(state: S): Node<S> {
    Node(Lidars([], [], -1.0, -1.0, false),
         Sync([], [], -1.0, false, Frame([], 0.0), 0.0, 0.0, 0),
         P.Predictor([], state, state, -1.0, false, -1.0))
  }

  function Run<S>(step: P.Step<S>, state: S, events: seq<Event<S>>): (Node<S>, History)
    decreases |events|
  {
    if events == [] then (Start(state), History([], [])) else
    var last := |events| - 1;
    var (n, h) := Run(step, state, events[..last]);
    Next(step, n, h, events[last])
  }

  lemma OneMoreEvent<S>(step: P.Step<S>, state: S, events: seq<Event<S>>, e: Event<S>)
    ensures var (n, h) := Run(step, state, events); Run(step, state, events + [e]) == Next(step, n, h, e)
  {
    assert (events + [e])[..|events|] == events;
  }

  // --------------------------------------------------------------------------
  // The streams that went in

  function RightOf<S>(e: Event<S>): seq<Frame> { if e.RightFrame? then [e.frame] else [] }

  function LeftOf<S>(e: Event<S>): seq<Frame> { if e.LeftFrame? then [e.frame] else [] }

  function SampleOf<S>(e: Event<S>): seq<Imu> { if e.Sample? then [e.sample] else [] }

  function Rights<S>(events: seq<Event<S>>): seq<Frame>
    decreases |events|
  {
    if events == [] then [] else Rights(events[..|events| - 1]) + RightOf(events[|events| - 1])
  }

  function Lefts<S>(events: seq<Event<S>>): seq<Frame>
    decreases |events|
  {
    if events == [] then [] else Lefts(events[..|events| - 1]) + LeftOf(events[|events| - 1])
  }

  function Samples<S>(events: seq<Event<S>>): seq<Imu>
    decreases |events|
  {
    if events == [] then [] else Samples(events[..|events| - 1]) + SampleOf(events[|events| - 1])
  }

  function Pairs(fusions: seq<Fusion>): (pairs: seq<Pair>)
    ensures |pairs| == |fusions|
  {
    seq(|fusions|, i requires 0 <= i < |fusions| => fusions[i].pair)
  }

  // --------------------------------------------------------------------------
  // Fusion does not depend on the schedule

  ghost predicate LastStamp(frames: seq<Frame>, last: real) {
    if frames == [] then last == -1.0 else last == frames[|frames| - 1].stamp
  }

  // For every continuation of the two streams, what was fused and what the buffered frames will still yield is
  // what the fuser yields on the complete streams.
  ghost predicate OnTrack(fusions: seq<Fusion>, q: Queues, right: seq<Frame>, left: seq<Frame>) {
    forall moreRight, moreLeft ::
      Pairs(fusions) + Drain(q.right + moreRight, q.left + moreLeft) == Drain(right + moreRight, left + moreLeft)
  }

  // The buffered heads that are fused are the next pair of the streams.
  lemma HeadsAreNext(right: seq<Frame>, left: seq<Frame>, moreRight: seq<Frame>, moreLeft: seq<Frame>)
    requires right != [] && left != [] && Close(right[0], left[0])
    ensures Drain(right + moreRight, left + moreLeft)
         == [Pair(right[0], left[0])] + Drain(right[1..] + moreRight, left[1..] + moreLeft)
  {
    assert (right + moreRight)[1..] == right[1..] + moreRight;
    assert (left + moreLeft)[1..] == left[1..] + moreLeft;
  }

  lemma FuseKeepsTrack<S>(n: Node<S>, tf: Option<Transform>, h: History, right: seq<Frame>, left: seq<Frame>)
    requires OnTrack(h.fusions, n.lidars.Buffered(), right, left)
    ensures var (m, fusion) := Fuse(n, tf); OnTrack(h.fusions + Listed(fusion), m.lidars.Buffered(), right, left)
  {
    hide Drain, Close;
    var (m, fusion) := Fuse(n, tf);
    var q := Skip(n.lidars.right, n.lidars.left);
    forall moreRight, moreLeft
      ensures Pairs(h.fusions + Listed(fusion)) + Drain(m.lidars.right + moreRight, m.lidars.left + moreLeft)
           == Drain(right + moreRight, left + moreLeft)
    {
      DrainAfterSkip(n.lidars.right, n.lidars.left, moreRight, moreLeft);
      if fusion.Some? {
        HeadsAreNext(q.right, q.left, moreRight, moreLeft);
        assert Pairs(h.fusions + Listed(fusion)) == Pairs(h.fusions) + [fusion.value.pair];
      } else {
        assert h.fusions + Listed(fusion) == h.fusions;
      }
    }
  }

  lemma FrameKeepsTrack(fusions: seq<Fusion>, q: Queues, right: seq<Frame>, left: seq<Frame>, frame: Frame)
    requires OnTrack(fusions, q, right, left)
    ensures OnTrack(fusions, Queues(q.right + [frame], q.left), right + [frame], left)
    ensures OnTrack(fusions, Queues(q.right, q.left + [frame]), right, left + [frame])
  {
    forall moreRight, moreLeft
      ensures Pairs(fusions) + Drain(q.right + [frame] + moreRight, q.left + moreLeft)
           == Drain(right + [frame] + moreRight, left + moreLeft)
    {
      assert q.right + [frame] + moreRight == q.right + ([frame] + moreRight);
      assert right + [frame] + moreRight == right + ([frame] + moreRight);
    }
    forall moreRight, moreLeft
      ensures Pairs(fusions) + Drain(q.right + moreRight, q.left + [frame] + moreLeft)
           == Drain(right + moreRight, left + [frame] + moreLeft)
    {
      assert q.left + [frame] + moreLeft == q.left + ([frame] + moreLeft);
      assert left + [frame] + moreLeft == left + ([frame] + moreLeft);
    }
  }

  lemma NextKeepsTrack<S>(step: P.Step<S>, n: Node<S>, h: History, e: Event<S>, right: seq<Frame>, left: seq<Frame>)
    requires OnTrack(h.fusions, n.lidars.Buffered(), right, left)
    requires LastStamp(right, n.lidars.lastRight) && LastStamp(left, n.lidars.lastLeft)
    requires Ordered(right + RightOf(e)) && Ordered(left + LeftOf(e))
    ensures var (m, k) := Next(step, n, h, e);
      && OnTrack(k.fusions, m.lidars.Buffered(), right + RightOf(e), left + LeftOf(e))
      && LastStamp(right + RightOf(e), m.lidars.lastRight)
      && LastStamp(left + LeftOf(e), m.lidars.lastLeft)
  {
    hide OnTrack, Drain, Skip, Fuse, Deliver;
    assert right + [] == right && left + [] == left;
    match e
    case RightFrame(frame) =>
      RightIsAppended(n, frame, right);
      FrameKeepsTrack(h.fusions, n.lidars.Buffered(), right, left, frame);
    case LeftFrame(frame) =>
      LeftIsAppended(n, frame, left);
      FrameKeepsTrack(h.fusions, n.lidars.Buffered(), right, left, frame);
    case Sample(_) =>
    case Timer(tf, update) =>
      FuseKeepsTrack(n, tf, h, right, left);
      NextFusions(step, n, h, tf, update);
      FuseKeepsStamps(n, tf);
  }

  lemma FuseKeepsStamps<S>(n: Node<S>, tf: Option<Transform>)
    ensures var lidars := Fuse(n, tf).0.lidars;
      lidars.lastRight == n.lidars.lastRight && lidars.lastLeft == n.lidars.lastLeft
  {}

  // With ordered stamps no frame loops back.
  lemma RightIsAppended<S>(n: Node<S>, frame: Frame, right: seq<Frame>)
    requires LastStamp(right, n.lidars.lastRight) && Ordered(right + [frame])
    ensures ReceiveRight(n, frame).lidars
         == n.lidars.(right := n.lidars.right + [frame], lastRight := frame.stamp, seen := true)
    ensures ReceiveRight(n, frame).sync == n.sync
  {
    if right != [] {
      assert (right + [frame])[|right| - 1].stamp <= (right + [frame])[|right|].stamp;
    }
  }

  lemma LeftIsAppended<S>(n: Node<S>, frame: Frame, left: seq<Frame>)
    requires LastStamp(left, n.lidars.lastLeft) && Ordered(left + [frame])
    ensures ReceiveLeft(n, frame).lidars
         == n.lidars.(left := n.lidars.left + [frame], lastLeft := frame.stamp, seen := true)
    ensures ReceiveLeft(n, frame).sync == n.sync
  {
    if left != [] {
      assert (left + [frame])[|left| - 1].stamp <= (left + [frame])[|left|].stamp;
    }
  }

  lemma DeliverKeepsLidars<S>(step: P.Step<S>, n: Node<S>, update: Option<S>)
    ensures Deliver(step, n, update).0.lidars == n.lidars
  {}

  lemma OrderedPrefix<S>(events: seq<Event<S>>)
    requires events != [] && Ordered(Rights(events)) && Ordered(Lefts(events))
    ensures var before := events[..|events| - 1]; Ordered(Rights(before)) && Ordered(Lefts(before))
  {
    var before := events[..|events| - 1];
    assert Rights(before) == Rights(events)[..|Rights(before)|];
    assert Lefts(before) == Lefts(events)[..|Lefts(before)|];
  }

  lemma {:induction false} RunStaysOnTrack<S>(step: P.Step<S>, state: S, events: seq<Event<S>>)
    requires Ordered(Rights(events)) && Ordered(Lefts(events))
    ensures var (n, h) := Run(step, state, events);
      && OnTrack(h.fusions, n.lidars.Buffered(), Rights(events), Lefts(events))
      && LastStamp(Rights(events), n.lidars.lastRight)
      && LastStamp(Lefts(events), n.lidars.lastLeft)
    decreases |events|
  {
    if events == [] {
      var (n, h) := Run(step, state, events);
      forall moreRight, moreLeft
        ensures Pairs(h.fusions) + Drain(n.lidars.right + moreRight, n.lidars.left + moreLeft)
             == Drain(Rights(events) + moreRight, Lefts(events) + moreLeft)
      {
        assert Pairs(h.fusions) + Drain(moreRight, moreLeft) == Drain(moreRight, moreLeft);
        assert [] + moreRight == moreRight && [] + moreLeft == moreLeft;
      }
    } else {
      var before := events[..|events| - 1];
      OrderedPrefix(events);
      RunStaysOnTrack(step, state, before);
      var (n, h) := Run(step, state, before);
      hide OnTrack, Ordered, LastStamp, Next;
      NextKeepsTrack(step, n, h, events[|events| - 1], Rights(before), Lefts(before));
    }
  }

  lemma OnTrackIsPrefix(fusions: seq<Fusion>, q: Queues, seenRight: seq<Frame>, seenLeft: seq<Frame>,
                        right: seq<Frame>, left: seq<Frame>)
    requires OnTrack(fusions, q, seenRight, seenLeft) && seenRight <= right && seenLeft <= left
    ensures Pairs(fusions) <= Drain(right, left)
  {
    var moreRight, moreLeft := right[|seenRight|..], left[|seenLeft|..];
    assert seenRight + moreRight == right && seenLeft + moreLeft == left;
    hide Drain;
    assert Pairs(fusions) + Drain(q.right + moreRight, q.left + moreLeft) == Drain(right, left);
  }

  // However the two streams are interleaved with timer calls and missing transforms, and however they go on, the
  // pairs fused so far are a prefix of what the fuser yields on the complete streams.
  lemma FusionIsScheduleIndependent<S>(step: P.Step<S>, state: S, events: seq<Event<S>>,
                                       right: seq<Frame>, left: seq<Frame>)
    requires Ordered(Rights(events)) && Ordered(Lefts(events))
    requires Rights(events) <= right && Lefts(events) <= left
    ensures Pairs(Run(step, state, events).1.fusions) <= Drain(right, left)
  {
    hide OnTrack, Run, Drain, Pairs, Rights, Lefts, Ordered;
    var (n, h) := Run(step, state, events);
    RunStaysOnTrack(step, state, events);
    OnTrackIsPrefix(h.fusions, n.lidars.Buffered(), Rights(events), Lefts(events), right, left);
  }

  // Two schedules of the same frames fuse the same pairs, as far as both have come.
  lemma SchedulesAgree<S>(step: P.Step<S>, state: S, e1: seq<Event<S>>, e2: seq<Event<S>>, i: nat)
    requires Ordered(Rights(e1)) && Ordered(Lefts(e1))
    requires Rights(e1) == Rights(e2) && Lefts(e1) == Lefts(e2)
    requires i < |Run(step, state, e1).1.fusions| && i < |Run(step, state, e2).1.fusions|
    ensures Run(step, state, e1).1.fusions[i].pair == Run(step, state, e2).1.fusions[i].pair
  {
    FusionIsScheduleIndependent(step, state, e1, Rights(e1), Lefts(e1));
    FusionIsScheduleIndependent(step, state, e2, Rights(e1), Lefts(e1));
    assert Pairs(Run(step, state, e1).1.fusions)[i] == Pairs(Run(step, state, e2).1.fusions)[i];
  }

  lemma IdleFuse<S>(n: Node<S>, tf: Option<Transform>)
    requires tf.Some? && Fuse(n, tf).1 == None
    ensures var lidars := Fuse(n, tf).0.lidars; lidars.right == [] || lidars.left == []
  {}

  lemma NothingBuffered(fusions: seq<Fusion>, q: Queues, right: seq<Frame>, left: seq<Frame>)
    requires OnTrack(fusions, q, right, left) && (q.right == [] || q.left == [])
    ensures Pairs(fusions) == Drain(right, left)
  {
    assert Pairs(fusions) + Drain(q.right + [], q.left + []) == Drain(right + [], left + []);
    assert q.right + [] == q.right && q.left + [] == q.left;
    assert right + [] == right && left + [] == left;
  }

  lemma NextFusions<S>(step: P.Step<S>, n: Node<S>, h: History, tf: Option<Transform>, update: Option<S>)
    ensures var (m, fusion) := Fuse(n, tf);
      && Next(step, n, h, Timer(tf, update)).1.fusions == h.fusions + Listed(fusion)
      && Next(step, n, h, Timer(tf, update)).0.lidars == m.lidars
  {
    DeliverKeepsLidars(step, Fuse(n, tf).0, update);
  }

  // A timer call with the transform at hand that finds no pair has fused everything the streams yield so far.
  lemma IdleTimerHasFusedAll<S>(step: P.Step<S>, state: S, events: seq<Event<S>>, tf: Transform, update: Option<S>)
    requires Ordered(Rights(events)) && Ordered(Lefts(events))
    requires var after := events + [Timer(Some(tf), update)];
      Run(step, state, after).1.fusions == Run(step, state, events).1.fusions
    ensures Pairs(Run(step, state, events).1.fusions) == Drain(Rights(events), Lefts(events))
  {
    var e := Timer(Some(tf), update);
    var after := events + [e];
    var (n, h) := Run(step, state, events);
    var m := Next(step, n, h, e).0;
    assert after[..|after| - 1] == events && after[|after| - 1] == e;
    assert Rights(after) == Rights(events) && Lefts(after) == Lefts(events);
    RunStaysOnTrack(step, state, after);
    hide OnTrack, Fuse, Next, Drain;
    NextFusions(step, n, h, Some(tf), update);
    IdleFuse(n, Some(tf));
    NothingBuffered(h.fusions, m.lidars.Buffered(), Rights(events), Lefts(events));
  }

  // So a run without stamps exactly the window apart has then fused as many pairs as any disjoint pairing of close
  // frames of the two streams, however the frames and the timer calls came.
  lemma IdleRunHasFusedMost<S>(step: P.Step<S>, state: S, events: seq<Event<S>>, tf: Transform, update: Option<S>,
                               m: set<(nat, nat)>)
    requires Ordered(Rights(events)) && Ordered(Lefts(events))
    requires forall i, j :: 0 <= i < |Rights(events)| && 0 <= j < |Lefts(events)| ==>
               Lefts(events)[j].stamp - Rights(events)[i].stamp != WINDOW
    requires var after := events + [Timer(Some(tf), update)];
      Run(step, state, after).1.fusions == Run(step, state, events).1.fusions
    requires IsMatching(m, Rights(events), Lefts(events), 0, 0)
    ensures |m| <= |Run(step, state, events).1.fusions|
  {
    hide Run, Drain, Ordered, IsMatching;
    IdleTimerHasFusedAll(step, state, events, tf, update);
    OptimalWithoutTies(Rights(events), Lefts(events));
  }

  // In general it has fused as many pairs as possible if and only if no tie is costly, and otherwise it has missed one
  // pair for each.
  lemma IdleRunHasFusedMostIff<S>(step: P.Step<S>, state: S, events: seq<Event<S>>, tf: Transform, update: Option<S>)
    requires Ordered(Rights(events)) && Ordered(Lefts(events))
    requires var after := events + [Timer(Some(tf), update)];
      Run(step, state, after).1.fusions == Run(step, state, events).1.fusions
    ensures var fused, costly := Run(step, state, events).1.fusions, CostlyTies(Rights(events), Lefts(events));
      && ((forall m :: IsMatching(m, Rights(events), Lefts(events), 0, 0) ==> |m| <= |fused|) <==> costly == 0)
      && (exists m :: IsMatching(m, Rights(events), Lefts(events), 0, 0) && |m| == |fused| + costly)
      && (forall m :: IsMatching(m, Rights(events), Lefts(events), 0, 0) ==> |m| <= |fused| + costly)
  {
    var right, left := Rights(events), Lefts(events);
    hide Run, Drain, DrainLate, CostlyTies, Ordered, IsMatching, Rights, Lefts;
    IdleTimerHasFusedAll(step, state, events, tf, update);
    FusesMostIffNoCostlyTie(right, left);
    EachCostlyTieCostsAPair(right, left);
    assert right[0..] == right && left[0..] == left;
    var late := LateIsMatching(right, left, 0, 0);
    forall m | IsMatching(m, right, left, 0, 0)
      ensures |m| <= |DrainLate(right, left)|
    {
      LateIsOptimal(m, right, left, 0, 0);
    }
  }

  // --------------------------------------------------------------------------
  // Loop-backs

  // The node remembers the newest frame of each side and the newest sample, whatever their stamps are.
  ghost predicate KnowsNewest<S>(n: Node<S>, right: seq<Frame>, left: seq<Frame>, samples: seq<Imu>) {
    && LastStamp(right, n.lidars.lastRight) && LastStamp(left, n.lidars.lastLeft)
    && (n.lidars.seen <==> right != [] || left != [])
    && n.sync.lastImuStamp == if samples == [] then -1.0 else samples[|samples| - 1].stamp
  }

  lemma NextKnowsNewest<S>(step: P.Step<S>, n: Node<S>, h: History, e: Event<S>, right: seq<Frame>, left: seq<Frame>,
                           samples: seq<Imu>)
    requires KnowsNewest(n, right, left, samples)
    ensures KnowsNewest(Next(step, n, h, e).0, right + RightOf(e), left + LeftOf(e), samples + SampleOf(e))
  {
    hide Fuse, Deliver, P.Receive;
    assert right + [] == right && left + [] == left && samples + [] == samples;
    if e.Timer? {
      TimerKeepsStamps(n, e.tf);
      DeliverKeepsStamps(step, Fuse(n, e.tf).0, e.update);
    }
  }

  lemma TimerKeepsStamps<S>(n: Node<S>, tf: Option<Transform>)
    ensures var m := Fuse(n, tf).0;
      && m.lidars == n.lidars.(right := m.lidars.right, left := m.lidars.left)
      && m.sync.lastImuStamp == n.sync.lastImuStamp
  {
    hide Skip, FusedScan;
  }

  lemma DeliverKeepsStamps<S>(step: P.Step<S>, n: Node<S>, update: Option<S>)
    ensures var m := Deliver(step, n, update).0;
      m.lidars == n.lidars && m.sync.lastImuStamp == n.sync.lastImuStamp
  {
    hide BatchSize, P.Reset;
  }

  lemma {:induction false} RunKnowsNewest<S>(step: P.Step<S>, state: S, events: seq<Event<S>>)
    ensures KnowsNewest(Run(step, state, events).0, Rights(events), Lefts(events), Samples(events))
    decreases |events|
  {
    if events != [] {
      var before, e := events[..|events| - 1], events[|events| - 1];
      RunKnowsNewest(step, state, before);
      var (n, h) := Run(step, state, before);
      hide KnowsNewest, Next;
      NextKnowsNewest(step, n, h, e, Rights(before), Lefts(before), Samples(before));
    }
  }

  // A frame goes back if it is older than the one before it, which counts from time 0 on.
  predicate IsOlder(frames: seq<Frame>, frame: Frame) {
    frames != [] && frames[|frames| - 1].stamp > 0.0 && frame.stamp < frames[|frames| - 1].stamp
  }

  // In every run, a frame that goes back leaves only itself in the buffer of its side and no fused scan; any other
  // frame joins the buffer of its side. The other side, the samples and the prediction stay as they are.
  lemma FrameArrives<S>(step: P.Step<S>, state: S, events: seq<Event<S>>, frame: Frame)
    ensures var (n, h) := Run(step, state, events);
      var m, back := Next(step, n, h, RightFrame(frame)).0, IsOlder(Rights(events), frame);
      && m.lidars.right == (if back then [frame] else n.lidars.right + [frame]) && m.lidars.left == n.lidars.left
      && m.sync == (if back then n.sync.(lidar := []) else n.sync) && m.predictor == n.predictor
    ensures var (n, h) := Run(step, state, events);
      var m, back := Next(step, n, h, LeftFrame(frame)).0, IsOlder(Lefts(events), frame);
      && m.lidars.left == (if back then [frame] else n.lidars.left + [frame]) && m.lidars.right == n.lidars.right
      && m.sync == (if back then n.sync.(lidar := []) else n.sync) && m.predictor == n.predictor
  {
    RunKnowsNewest(step, state, events);
    hide Run, Rights, Lefts, Samples;
  }

  // A sample that goes back leaves only itself in the IMU buffer; any other joins it. It joins the buffer of the
  // prediction in any case.
  lemma SampleArrives<S>(step: P.Step<S>, state: S, events: seq<Event<S>>, sample: Imu)
    ensures var (n, h) := Run(step, state, events);
      var m, samples := Next(step, n, h, Sample(sample)).0, Samples(events);
      var newest := if samples == [] then -1.0 else samples[|samples| - 1].stamp;
      && m.sync.imu == (if sample.stamp < newest then [sample] else n.sync.imu + [sample])
      && m.sync.lastImuStamp == sample.stamp && m.sync.lidar == n.sync.lidar && m.lidars == n.lidars
      && m.predictor.buffer == n.predictor.buffer + [sample]
  {
    RunKnowsNewest(step, state, events);
    hide Run, Rights, Lefts, Samples;
  }
}
