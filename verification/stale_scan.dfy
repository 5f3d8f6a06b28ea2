/**
 Which scan a run of the mapping node delivers when lidars may go back in time. A loop-back empties the queue but not
 the scan that was taken up from it; that scan is delivered next, and the first one fused since is dropped in its place.
 */
module StaleScan {
  import opened LidarFusion
  import opened ImuSync
  import opened MappingRun
  import opened MappingDelivery
  import P = ImuPredict

  // --------------------------------------------------------------------------
  // Every run

  // A scan that waits although the queue was emptied since it was taken up: its place among the scans fused, and how
  // many there were when the queue was emptied.
  datatype Stale = Stale(place: int, since: int)

  predicate GoesBack<S>(n: Node<S>, e: Event<S>) {
    || (e.RightFrame? && LoopsBack(n.lidars.seen, n.lidars.lastRight, e.frame))
    || (e.LeftFrame? && LoopsBack(n.lidars.seen, n.lidars.lastLeft, e.frame))
  }

  // A loop-back while a scan is taken up makes it stale, until the next delivery.
  function StaleNext<S>(step: P.Step<S>, n: Node<S>, h: History, e: Event<S>, stale: Option<Stale>): Option<Stale> {
    if GoesBack(n, e) then
      if !n.sync.pushed then None
      else Some(Stale(if stale.Some? then stale.value.place else |h.fusions| - |n.sync.lidar|, |h.fusions|))
    else if Next(step, n, h, e).1.packages != h.packages then None
    else stale
  }

  function StaleAfter<S>(step: P.Step<S>, state: S, events: seq<Event<S>>): Option<Stale>
    decreases |events|
  {
    if events == [] then None else
    var before := events[..|events| - 1];
    var (n, h) := Run(step, state, before);
    StaleNext(step, n, h, events[|events| - 1], StaleAfter(step, state, before))
  }

  // The queue holds the scans fused last. A scan that is taken up is the front one unless it is stale, and then the
  // queue holds what was fused since it was emptied.
  ghost predicate FrontOrStale(s: Sync, h: History, stale: Option<Stale>) {
    && |s.lidar| <= |h.fusions| && s.lidar == FusedScans(h.fusions)[|h.fusions| - |s.lidar|..]
    && (stale == None && s.pushed ==> s.lidar != [] && s.beginning == s.lidar[0])
    && (stale.Some? ==>
         && s.pushed && |s.lidar| == |h.fusions| - stale.value.since
         && 0 <= stale.value.place < stale.value.since && s.beginning == FusedScans(h.fusions)[stale.value.place])
  }

  lemma FusedKeepsFront(s: Sync, h: History, stale: Option<Stale>, fusion: Fusion)
    requires FrontOrStale(s, h, stale)
    ensures FrontOrStale(s.(lidar := s.lidar + [FusedScan(fusion.pair, fusion.tf)]),
                         h.(fusions := h.fusions + [fusion]), stale)
  {
    hide FusedScan;
    assert FusedScans(h.fusions + [fusion]) == FusedScans(h.fusions) + [FusedScan(fusion.pair, fusion.tf)];
  }

  lemma SyncKeepsFront(s: Sync, h: History, stale: Option<Stale>)
    requires FrontOrStale(s, h, stale)
    ensures var (t, package) := SyncPackages(s);
      var g := h.(packages := h.packages + Listed(package));
      && FrontOrStale(t, g, if package.Some? then None else stale)
      && (package.Some? ==>
           && s.lidar != [] && t.lidar == s.lidar[1..]
           && package.value.scan == if stale.Some? then FusedScans(h.fusions)[stale.value.place] else s.lidar[0])
  {
    hide FusedScans, BatchSize;
    assert h.packages + [] == h.packages;
  }

  // What a timer call does to the queue, in terms of its two parts.
  lemma TimerParts<S>(step: P.Step<S>, n: Node<S>, h: History, tf: Option<Transform>, update: Option<S>)
    ensures var (m, fusion) := Fuse(n, tf);
      var (t, package) := SyncPackages(m.sync);
      var (k, g) := Next(step, n, h, Timer(tf, update));
      && k.sync == t && g == History(h.fusions + Listed(fusion), h.packages + Listed(package))
      && m.sync == n.sync.(lidar := n.sync.lidar + if fusion.None? then [] else
                                    [FusedScan(fusion.value.pair, fusion.value.tf)])
  {
    hide Skip, SyncPackages, FusedScan;
  }

  lemma FuseKeepsFront<S>(n: Node<S>, h: History, tf: Option<Transform>, stale: Option<Stale>)
    requires FrontOrStale(n.sync, h, stale)
    ensures var (m, fusion) := Fuse(n, tf); FrontOrStale(m.sync, h.(fusions := h.fusions + Listed(fusion)), stale)
  {
    hide Skip, FrontOrStale, FusedScan;
    var (m, fusion) := Fuse(n, tf);
    assert h.fusions + [] == h.fusions;
    if fusion.Some? {
      FusedKeepsFront(n.sync, h, stale, fusion.value);
    }
  }

  lemma FrameKeepsFront<S>(step: P.Step<S>, n: Node<S>, h: History, e: Event<S>, stale: Option<Stale>)
    requires FrontOrStale(n.sync, h, stale) && !e.Timer?
    ensures var (m, g) := Next(step, n, h, e); g == h && FrontOrStale(m.sync, h, StaleNext(step, n, h, e, stale))
  {
    hide FusedScans, LoopsBack;
  }

  lemma TimerKeepsFront<S>(step: P.Step<S>, n: Node<S>, h: History, e: Event<S>, stale: Option<Stale>)
    requires FrontOrStale(n.sync, h, stale) && e.Timer?
    ensures var (m, g) := Next(step, n, h, e); FrontOrStale(m.sync, g, StaleNext(step, n, h, e, stale))
  {
    hide FrontOrStale, Fuse, SyncPackages, Next;
    TimerParts(step, n, h, e.tf, e.update);
    FuseKeepsFront(n, h, e.tf, stale);
    var (m, fusion) := Fuse(n, e.tf);
    SyncKeepsFront(m.sync, h.(fusions := h.fusions + Listed(fusion)), stale);
    var package := SyncPackages(m.sync).1;
    assert package.Some? ==> |h.packages + Listed(package)| > |h.packages|;
    assert package.None? ==> h.packages + Listed(package) == h.packages;
  }

  // What every run keeps, whatever the stamps are.
  lemma {:induction false} RunKeepsFront<S>(step: P.Step<S>, state: S, events: seq<Event<S>>)
    ensures var (n, h) := Run(step, state, events); FrontOrStale(n.sync, h, StaleAfter(step, state, events))
    decreases |events|
  {
    if events != [] {
      var before, e := events[..|events| - 1], events[|events| - 1];
      RunKeepsFront(step, state, before);
      var (n, h) := Run(step, state, before);
      hide FrontOrStale, Next, StaleNext;
      if e.Timer? {
        TimerKeepsFront(step, n, h, e, StaleAfter(step, state, before));
      } else {
        FrameKeepsFront(step, n, h, e, StaleAfter(step, state, before));
      }
    }
  }

  // A lidar goes back while a scan is taken up.
  ghost predicate GoesBackTooLate<S>(step: P.Step<S>, state: S, events: seq<Event<S>>, i: nat) {
    i < |events| &&
      var n := Run(step, state, events[..i]).0;
      GoesBack(n, events[i]) && n.sync.pushed
  }

  lemma TooLateBefore<S>(step: P.Step<S>, state: S, events: seq<Event<S>>, k: nat, i: nat)
    requires k <= |events| && GoesBackTooLate(step, state, events[..k], i)
    ensures GoesBackTooLate(step, state, events, i)
  {
    assert events[..k][..i] == events[..i];
    hide Run, GoesBack;
  }

  lemma StaleOrJustNow<S>(step: P.Step<S>, state: S, events: seq<Event<S>>)
    requires events != [] && StaleAfter(step, state, events).Some?
    ensures var last := |events| - 1;
      StaleAfter(step, state, events[..last]).Some? || GoesBackTooLate(step, state, events, last)
  {
    hide Run, GoesBack, Next;
  }

  // Nothing else makes a scan stale.
  lemma {:induction false} StaleByLoopBack<S>(step: P.Step<S>, state: S, events: seq<Event<S>>)
    ensures StaleAfter(step, state, events).Some? ==> exists i: nat :: GoesBackTooLate(step, state, events, i)
    decreases |events|
  {
    if StaleAfter(step, state, events).Some? {
      var last := |events| - 1;
      StaleOrJustNow(step, state, events);
      hide GoesBackTooLate;
      if StaleAfter(step, state, events[..last]).Some? {
        StaleByLoopBack(step, state, events[..last]);
        var i: nat :| GoesBackTooLate(step, state, events[..last], i);
        TooLateBefore(step, state, events, last, i);
      }
    }
  }

  // The scan that a run delivers, by its place among the scans fused, is the front one of the queue if and only if none
  // is stale. If one is stale, that one is delivered, and the first scan fused since the queue was emptied leaves the
  // queue in its place.
  lemma RunDelivers<S>(step: P.Step<S>, state: S, events: seq<Event<S>>, tf: Option<Transform>, update: Option<S>)
    requires var (n, h) := Run(step, state, events);
      |Next(step, n, h, Timer(tf, update)).1.packages| > |h.packages|
    ensures var (n, h) := Run(step, state, events);
      var (k, g) := Next(step, n, h, Timer(tf, update));
      var stale, queue := StaleAfter(step, state, events), Fuse(n, tf).0.sync.lidar;
      var front := |g.fusions| - |queue|;
      var sent := if stale.Some? then stale.value.place else front;
      && 0 <= sent <= front < |g.fusions| && (sent == front <==> stale == None)
      && (stale.Some? ==> front == stale.value.since)
      && queue == FusedScans(g.fusions)[front..] && k.sync.lidar == queue[1..]
      && |g.packages| == |h.packages| + 1 && g.packages[|h.packages|].scan == FusedScans(g.fusions)[sent]
  {
    var (n, h) := Run(step, state, events);
    var stale := StaleAfter(step, state, events);
    RunKeepsFront(step, state, events);
    hide Run, Next, StaleAfter, SyncPackages, Fuse, FusedScans;
    TimerParts(step, n, h, tf, update);
    FuseKeepsFront(n, h, tf, stale);
    var (m, fusion) := Fuse(n, tf);
    SyncKeepsFront(m.sync, h.(fusions := h.fusions + Listed(fusion)), stale);
  }

  // --------------------------------------------------------------------------
  // A run in which both lidars go back while a scan is taken up

  function At(stamp: real): Frame { Frame([], stamp) }

  function SampleAt(stamp: real): Imu { Imu(stamp, Vector(0.0, 0.0, 0.0), Vector(0.0, 0.0, 0.0)) }

  function Twins(stamp: real, tf: Transform): Fusion { Fusion(Pair(At(stamp), At(stamp)), tf) }

  // Frames at 10 are fused, and the scan waits for a sample.
  function Before<S>(tf: Transform): seq<Event<S>> {
    [] + [Sample(SampleAt(9.0))] + [RightFrame(At(10.0))] + [LeftFrame(At(10.0))] + [Timer(Some(tf), None)]
  }

  // Both lidars go back to 5 and are fused; then the sample comes.
  function StaleRun<S>(tf: Transform): seq<Event<S>> {
    Before(tf) + [RightFrame(At(5.0))] + [LeftFrame(At(5.0))] + [Timer(Some(tf), None)]
    + [Sample(SampleAt(11.0))] + [Timer(Some(tf), None)]
  }

  // The sync state of the node and the frames it has buffered.
  ghost predicate Stands<S>(n: Node<S>, lidars: Lidars, sync: Sync) { n.lidars == lidars && n.sync == sync }

  lemma TwinsAreFused<S>(n: Node<S>, stamp: real, tf: Transform)
    requires n.lidars.right == [At(stamp)] && n.lidars.left == [At(stamp)]
    ensures FusedScan(Twins(stamp, tf).pair, tf) == At(stamp)
    ensures Fuse(n, Some(tf)) == (n.(lidars := n.lidars.(right := [], left := []),
                                     sync := n.sync.(lidar := n.sync.lidar + [At(stamp)])), Some(Twins(stamp, tf)))
  {
    var none: Cloud := [];
    var pair := Pair(At(stamp), At(stamp));
    assert none + Moved(tf, 0.0, none) == none;
    assert Close(At(stamp), At(stamp));
    assert [At(stamp)][1..] == [];
    assert Skip(n.lidars.right, n.lidars.left) == Queues([At(stamp)], [At(stamp)]);
    hide SortByCurvature, Moved, Skip;
  }

  // A timer call that finds no pair.
  lemma NothingIsFused<S>(n: Node<S>, tf: Transform)
    requires n.lidars.right == []
    ensures Fuse(n, Some(tf)) == (n, None)
  {}

  // The scan at 10 has been taken up and waits for a sample.
  function Waiting(lidar: seq<Frame>, imu: seq<Imu>, newest: real): Sync {
    Sync(lidar, imu, newest, true, At(10.0), 10.0, 0.0, 0)
  }

  lemma RunUntilWaiting<S>(step: P.Step<S>, state: S, tf: Transform)
    ensures var (n, h) := Run(step, state, Before(tf));
      && Stands(n, Lidars([], [], 10.0, 10.0, true), Waiting([At(10.0)], [SampleAt(9.0)], 9.0))
      && h.fusions == [Twins(10.0, tf)] && h.packages == []
  {
    var e0: Event<S>, e1: Event<S> := Sample(SampleAt(9.0)), RightFrame(At(10.0));
    var e2: Event<S>, e3: Event<S> := LeftFrame(At(10.0)), Timer(Some(tf), None);
    var s0: seq<Event<S>> := [];
    OneMoreEvent(step, state, s0, e0);
    OneMoreEvent(step, state, s0 + [e0], e1);
    OneMoreEvent(step, state, s0 + [e0] + [e1], e2);
    OneMoreEvent(step, state, s0 + [e0] + [e1] + [e2], e3);
    assert Run(step, state, s0) == (Start(state), History([], []));
    var (n0, h0) := Run(step, state, s0);
    hide Run, Next, Stands, Start, FusedScan;
    FirstFrames(step, n0, h0, state);
    var (n3, h3) := Run(step, state, s0 + [e0] + [e1] + [e2]);
    TakesUp(step, n3, h3, tf);
  }

  lemma FirstFrames<S>(step: P.Step<S>, n: Node<S>, h: History, state: S)
    requires n == Start(state)
    ensures var (m, _) := Next(step, n, h, Sample(SampleAt(9.0)));
      var (k, _) := Next(step, m, h, RightFrame(At(10.0)));
      var (l, g) := Next(step, k, h, LeftFrame(At(10.0)));
      && Next(step, n, h, Sample(SampleAt(9.0))).1 == h && Next(step, m, h, RightFrame(At(10.0))).1 == h && g == h
      && Stands(l, Lidars([At(10.0)], [At(10.0)], 10.0, 10.0, true),
                Sync([], [SampleAt(9.0)], 9.0, false, Frame([], 0.0), 0.0, 0.0, 0))
  {}

  lemma TakesUp<S>(step: P.Step<S>, n: Node<S>, h: History, tf: Transform)
    requires Stands(n, Lidars([At(10.0)], [At(10.0)], 10.0, 10.0, true),
                    Sync([], [SampleAt(9.0)], 9.0, false, Frame([], 0.0), 0.0, 0.0, 0))
    ensures var (m, g) := Next(step, n, h, Timer(Some(tf), None));
      && g == History(h.fusions + [Twins(10.0, tf)], h.packages)
      && Stands(m, Lidars([], [], 10.0, 10.0, true), Waiting([At(10.0)], [SampleAt(9.0)], 9.0))
  {
    TwinsAreFused(n, 10.0, tf);
    hide Fuse;
  }

  lemma BothGoBack<S>(step: P.Step<S>, n: Node<S>, h: History)
    requires Stands(n, Lidars([], [], 10.0, 10.0, true), Waiting([At(10.0)], [SampleAt(9.0)], 9.0))
    ensures var (m, _) := Next(step, n, h, RightFrame(At(5.0)));
      var (k, g) := Next(step, m, h, LeftFrame(At(5.0)));
      Next(step, n, h, RightFrame(At(5.0))).1 == h && g == h
      && Stands(k, Lidars([At(5.0)], [At(5.0)], 5.0, 5.0, true), Waiting([], [SampleAt(9.0)], 9.0))
  {}

  lemma FusesAgain<S>(step: P.Step<S>, n: Node<S>, h: History, tf: Transform)
    requires Stands(n, Lidars([At(5.0)], [At(5.0)], 5.0, 5.0, true), Waiting([], [SampleAt(9.0)], 9.0))
    ensures var (m, g) := Next(step, n, h, Timer(Some(tf), None));
      && g == History(h.fusions + [Twins(5.0, tf)], h.packages)
      && Stands(m, Lidars([], [], 5.0, 5.0, true), Waiting([At(5.0)], [SampleAt(9.0)], 9.0))
  {
    TwinsAreFused(n, 5.0, tf);
    hide Fuse;
  }

  lemma DeliversStale<S>(step: P.Step<S>, n: Node<S>, h: History, tf: Transform)
    requires Stands(n, Lidars([], [], 5.0, 5.0, true), Waiting([At(5.0)], [SampleAt(9.0)], 9.0))
    ensures var (m, g) := Next(step, n, h, Sample(SampleAt(11.0)));
      var (k, f) := Next(step, m, g, Timer(Some(tf), None));
      && g == h && f.fusions == h.fusions && k.sync.lidar == []
      && |f.packages| == |h.packages| + 1 && f.packages[|h.packages|].scan == At(10.0)
  {
    var (m, g) := Next(step, n, h, Sample(SampleAt(11.0)));
    NothingIsFused(m, tf);
    hide Fuse;
  }

  // The scan at 10 is the only one delivered, and the one fused at 5 is neither delivered nor waiting.
  lemma StaleScanExample<S>(step: P.Step<S>, state: S, tf: Transform)
    ensures var (n, h) := Run(step, state, StaleRun(tf));
      && FusedScans(h.fusions) == [At(10.0), At(5.0)]
      && Scans(h.packages) == [At(10.0)] && n.sync.lidar == []
  {
    var b: seq<Event<S>> := Before(tf);
    var e0: Event<S>, e1: Event<S> := RightFrame(At(5.0)), LeftFrame(At(5.0));
    var e2: Event<S>, e3: Event<S> := Timer(Some(tf), None), Sample(SampleAt(11.0));
    RunUntilWaiting(step, state, tf);
    OneMoreEvent(step, state, b, e0);
    OneMoreEvent(step, state, b + [e0], e1);
    OneMoreEvent(step, state, b + [e0] + [e1], e2);
    OneMoreEvent(step, state, b + [e0] + [e1] + [e2], e3);
    OneMoreEvent(step, state, b + [e0] + [e1] + [e2] + [e3], e2);
    hide Run, Next, Stands, FusedScan, Before, FusedScans, Scans;
    var (n0, h0) := Run(step, state, b);
    BothGoBack(step, n0, h0);
    var (n2, h2) := Run(step, state, b + [e0] + [e1]);
    FusesAgain(step, n2, h2, tf);
    var (n3, h3) := Run(step, state, b + [e0] + [e1] + [e2]);
    DeliversStale(step, n3, h3, tf);
    var (n, h) := Run(step, state, StaleRun(tf));
    TwinsScans(tf, h);
  }

  lemma TwinsScans(tf: Transform, h: History)
    requires h.fusions == [Twins(10.0, tf)] + [Twins(5.0, tf)] && |h.packages| == 1 && h.packages[0].scan == At(10.0)
    ensures FusedScans(h.fusions) == [At(10.0), At(5.0)] && Scans(h.packages) == [At(10.0)]
  {
    var none: Cloud := [];
    assert none + Moved(tf, 0.0, none) == none;
  }
}
