/**
 What the high-rate prediction stands on in whole runs of the mapping node: the latest update by the estimator, and the
 samples since then.
 */
module PredictionRun {
  import opened LidarFusion
  import opened ImuSync
  import opened MappingRun
  import P = ImuPredict

  // A lidar update: the state the estimator arrived at, and the end of the scan it is for.
  datatype Update<+S> = Update(state: S, time: real)

  // A timer call makes an update if it delivers a package and the estimator does not skip it.
  function UpdateBy<S>(step: P.Step<S>, n: Node<S>, h: History, e: Event<S>): seq<Update<S>> {
    var packages := Next(step, n, h, e).1.packages;
    if e.Timer? && e.update.Some? && |packages| > |h.packages| then
      [Update(e.update.value, packages[|packages| - 1].endTime)]
    else []
  }

  function Updates<S>(step: P.Step<S>, state: S, events: seq<Event<S>>): seq<Update<S>>
    decreases |events|
  {
    if events == [] then [] else
    var before := events[..|events| - 1];
    var (n, h) := Run(step, state, before);
    Updates(step, state, before) + UpdateBy(step, n, h, events[|events| - 1])
  }

  // What one event does to the prediction.
  lemma NextPredicts<S>(step: P.Step<S>, n: Node<S>, h: History, e: Event<S>)
    ensures var p, q := n.predictor, Next(step, n, h, e).0.predictor;
      var made := UpdateBy(step, n, h, e);
      && (made != [] ==> q.buffer == P.DropBefore(p.buffer, made[0].time))
      && (made == [] ==> q.buffer == p.buffer + SampleOf(e))
  {
    hide Skip, SyncPackages, P.Replay, P.LastStepped, P.DropBefore;
    assert n.predictor.buffer + [] == n.predictor.buffer;
    assert |h.packages + []| == |h.packages|;
  }

  // --------------------------------------------------------------------------
  // The state that the prediction starts from

  ghost predicate StartsAt<S>(p: P.Predictor<S>, state: S, updates: seq<Update<S>>) {
    if updates == [] then !p.hasFirst && p.optimized == p.state == state && p.optimizedTime == -1.0
    else
      var last := updates[|updates| - 1];
      p.hasFirst && p.optimized == last.state && p.optimizedTime == last.time
  }

  lemma NextStartsAt<S>(step: P.Step<S>, n: Node<S>, h: History, e: Event<S>, state: S, updates: seq<Update<S>>)
    requires StartsAt(n.predictor, state, updates)
    ensures StartsAt(Next(step, n, h, e).0.predictor, state, updates + UpdateBy(step, n, h, e))
  {
    hide Skip, SyncPackages, P.Replay, P.LastStepped, P.DropBefore;
    assert updates + [] == updates;
    assert |h.packages + []| == |h.packages|;
  }

  // In every run the prediction starts from the state of the latest update, at the end of its scan; before the first
  // one, it stands still at the initial state.
  lemma {:induction false} RunStartsAt<S>(step: P.Step<S>, state: S, events: seq<Event<S>>)
    ensures StartsAt(Run(step, state, events).0.predictor, state, Updates(step, state, events))
    decreases |events|
  {
    if events != [] {
      var before, e := events[..|events| - 1], events[|events| - 1];
      RunStartsAt(step, state, before);
      var (n, h) := Run(step, state, before);
      hide StartsAt, Next, UpdateBy;
      NextStartsAt(step, n, h, e, state, Updates(step, state, before));
    }
  }

  // --------------------------------------------------------------------------
  // The samples that the prediction goes through

  // The sample is not before the end of the scan of any update.
  ghost predicate IsSince<S>(sample: Imu, updates: seq<Update<S>>) {
    forall u <- updates :: sample.stamp >= u.time
  }

  // Those are the samples from the k-th on.
  ghost predicate Divides<S>(k: nat, samples: seq<Imu>, updates: seq<Update<S>>) {
    k <= |samples| && forall i :: 0 <= i < |samples| ==> (i >= k <==> IsSince(samples[i], updates))
  }

  ghost predicate Retains<S>(p: P.Predictor<S>, samples: seq<Imu>, updates: seq<Update<S>>) {
    && |p.buffer| <= |samples| && p.buffer == samples[|samples| - |p.buffer|..]
    && Divides(|samples| - |p.buffer|, samples, updates)
  }

  // No update is for a scan that ends after the newest sample.
  ghost predicate NewestIsLate<S>(sync: Sync, samples: seq<Imu>, updates: seq<Update<S>>) {
    && (if samples == [] then sync.imu == [] else sync.lastImuStamp == samples[|samples| - 1].stamp)
    && (forall u <- updates :: samples != [] && u.time <= sync.lastImuStamp)
  }

  lemma SampleDivides<S>(k: nat, samples: seq<Imu>, sample: Imu, updates: seq<Update<S>>)
    requires Divides(k, samples, updates) && forall u <- updates :: u.time <= sample.stamp
    ensures Divides(k, samples + [sample], updates)
  {
    assert IsSince(sample, updates);
    hide IsSince;
  }

  lemma IsSinceBoth<S>(sample: Imu, updates: seq<Update<S>>, u: Update<S>)
    ensures IsSince(sample, updates + [u]) <==> IsSince(sample, updates) && sample.stamp >= u.time
  {
    assert u in updates + [u];
    assert forall v <- updates :: v in updates + [u];
  }

  lemma UpdateDivides<S>(k: nat, l: nat, samples: seq<Imu>, updates: seq<Update<S>>, u: Update<S>)
    requires Divides(k, samples, updates) && k + l <= |samples|
    requires forall i :: k <= i < k + l ==> samples[i].stamp < u.time
    requires forall i :: k + l <= i < |samples| ==> samples[i].stamp >= u.time
    ensures Divides(k + l, samples, updates + [u])
  {
    hide IsSince;
    forall i | 0 <= i < |samples|
      ensures i >= k + l <==> IsSince(samples[i], updates + [u])
    {
      IsSinceBoth(samples[i], updates, u);
    }
  }

  lemma SampleIsRetained<S>(p: P.Predictor<S>, q: P.Predictor<S>, samples: seq<Imu>, sample: Imu,
                            updates: seq<Update<S>>)
    requires Retains(p, samples, updates) && q.buffer == p.buffer + [sample]
    requires forall u <- updates :: u.time <= sample.stamp
    ensures Retains(q, samples + [sample], updates)
  {
    SampleDivides(|samples| - |p.buffer|, samples, sample, updates);
    hide Divides;
  }

  lemma UpdateIsRetained<S>(p: P.Predictor<S>, q: P.Predictor<S>, samples: seq<Imu>, updates: seq<Update<S>>,
                            u: Update<S>)
    requires Retains(p, samples, updates) && Sorted(samples) && q.buffer == P.DropBefore(p.buffer, u.time)
    ensures Retains(q, samples, updates + [u])
  {
    hide Divides, P.DropBefore, Sorted;
    var k := |samples| - |p.buffer|;
    SuffixIsSorted(samples, k);
    P.DropBeforeSplits(p.buffer, u.time);
    var l := |p.buffer| - |q.buffer|;
    forall i | k <= i < |samples|
      ensures samples[i] == p.buffer[i - k]
    {}
    UpdateDivides(k, l, samples, updates, u);
    assert p.buffer[l..] == samples[k + l..];
  }

  lemma SuffixIsSorted(samples: seq<Imu>, k: nat)
    requires Sorted(samples) && k <= |samples|
    ensures Sorted(samples[k..])
  {}

  lemma UpdateIsNotLate<S>(step: P.Step<S>, n: Node<S>, h: History, e: Event<S>)
    ensures var m := Next(step, n, h, e).0;
      && (!e.Sample? ==> m.sync.lastImuStamp == n.sync.lastImuStamp && (n.sync.imu == [] ==> m.sync.imu == []))
      && forall u <- UpdateBy(step, n, h, e) :: u.time <= n.sync.lastImuStamp && n.sync.imu != []
  {
    hide Skip, BatchSize, P.Reset, P.Receive, FusedScan;
    assert |h.packages + []| == |h.packages|;
  }

  lemma NextRetains<S>(step: P.Step<S>, n: Node<S>, h: History, e: Event<S>, samples: seq<Imu>,
                       updates: seq<Update<S>>)
    requires Sorted(samples + SampleOf(e)) && Retains(n.predictor, samples, updates)
    requires NewestIsLate(n.sync, samples, updates)
    ensures var m, made := Next(step, n, h, e).0, UpdateBy(step, n, h, e);
      && Retains(m.predictor, samples + SampleOf(e), updates + made)
      && NewestIsLate(m.sync, samples + SampleOf(e), updates + made)
  {
    NextPredicts(step, n, h, e);
    UpdateIsNotLate(step, n, h, e);
    var m, made := Next(step, n, h, e).0, UpdateBy(step, n, h, e);
    assert samples + [] == samples && updates + [] == updates;
    if e.Sample? {
      assert m.sync.lastImuStamp == e.sample.stamp && m.sync.imu != [];
      assert made == [];
      hide Next, UpdateBy;
      assert samples != [] ==> (samples + [e.sample])[|samples| - 1].stamp <= (samples + [e.sample])[|samples|].stamp;
      SampleIsRetained(n.predictor, m.predictor, samples, e.sample, updates);
    } else {
      assert |made| <= 1;
      hide Next, UpdateBy, Retains, Sorted;
      if made != [] {
        assert made == [made[0]];
        UpdateIsRetained(n.predictor, m.predictor, samples, updates, made[0]);
      } else {
        SameBuffer(n.predictor, m.predictor, samples, updates);
      }
    }
  }

  lemma SameBuffer<S>(p: P.Predictor<S>, q: P.Predictor<S>, samples: seq<Imu>, updates: seq<Update<S>>)
    requires Retains(p, samples, updates) && q.buffer == p.buffer + []
    ensures Retains(q, samples, updates)
  {}

  lemma {:induction false} RunRetains<S>(step: P.Step<S>, state: S, events: seq<Event<S>>)
    requires Sorted(Samples(events))
    ensures var n := Run(step, state, events).0;
      && Retains(n.predictor, Samples(events), Updates(step, state, events))
      && NewestIsLate(n.sync, Samples(events), Updates(step, state, events))
    decreases |events|
  {
    if events != [] {
      var before, e := events[..|events| - 1], events[|events| - 1];
      assert Samples(before) == Samples(events)[..|Samples(before)|];
      RunRetains(step, state, before);
      var (n, h) := Run(step, state, before);
      hide Retains, NewestIsLate, Next, UpdateBy, Sorted;
      NextRetains(step, n, h, e, Samples(before), Updates(step, state, before));
    }
  }

  // In every run in which the IMU does not go back: the samples that the prediction goes through are, of all samples
  // received, exactly those that are not before the end of the scan of any update, in the order in which they came.
  lemma PredictionBufferIs<S>(step: P.Step<S>, state: S, events: seq<Event<S>>)
    requires Sorted(Samples(events))
    ensures var samples, updates := Samples(events), Updates(step, state, events);
      var buffer := Run(step, state, events).0.predictor.buffer;
      var k := |samples| - |buffer|;
      && 0 <= k && buffer == samples[k..]
      && forall i :: 0 <= i < |samples| ==> (i >= k <==> IsSince(samples[i], updates))
  {
    RunRetains(step, state, events);
  }
}
