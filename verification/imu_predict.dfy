/**
 The high-rate prediction: a state integrated sample by sample since the last optimised state.

 One integration step is a parameter, since it is filter arithmetic; it is skipped when the time step is at most
 a microsecond.
 */
module ImuPredict {
  import opened ImuSync

  const MINIMAL_STEP := 0.000001

  type Step<!S> = (S, Imu, Imu, real) -> S

  datatype Predictor<S> = Predictor(
    buffer: seq<Imu>,
    state: S,
    optimized: S,
    optimizedTime: real,
    hasFirst: bool,
    lastPredictTime: real)

  function Integrate<S>(step: Step<S>, state: S, previous: Imu, current: Imu, dt: real): S {
    if dt <= MINIMAL_STEP then state else step(state, previous, current, dt)
  }

  // One more sample: the cached state moves on by one step from the sample before it.
  function Receive<S>(step: Step<S>, p: Predictor<S>, sample: Imu): Predictor<S> {
    var buffer := p.buffer + [sample];
    if !p.hasFirst then p.(buffer := buffer, lastPredictTime := sample.stamp) else
    var q := if p.lastPredictTime < 0.0
             then p.(buffer := buffer, state := p.optimized,
                     lastPredictTime := if p.optimizedTime > 0.0 then p.optimizedTime else sample.stamp)
             else p.(buffer := buffer);
    if |buffer| < 2 then q else
    var previous := buffer[|buffer| - 2];
    q.(state := Integrate(step, q.state, previous, sample, sample.stamp - previous.stamp),
       lastPredictTime := sample.stamp)
  }

  // The samples from the first one that is not before the given time.
  function DropBefore(buffer: seq<Imu>, time: real): seq<Imu> {
    if buffer == [] || buffer[0].stamp >= time then buffer else DropBefore(buffer[1..], time)
  }

  // The state after all samples of the buffer; time and previous describe the sample before them.
  function Replay<S>(step: Step<S>, state: S, time: real, previous: Option<Imu>, buffer: seq<Imu>): S
    decreases |buffer|
  {
    if buffer == [] then state else
    var current := buffer[0];
    var dt := current.stamp - time;
    var next :=
      if dt <= MINIMAL_STEP then state
      else if previous.Some? then Integrate(step, state, previous.value, current, dt)
      else Integrate(step, state, current, current, dt);
    Replay(step, next, current.stamp, Some(current), buffer[1..])
  }

  // The stamp of the last sample of the buffer that is a proper step after the one before it.
  function LastStepped(time: real, last: real, buffer: seq<Imu>): real
    decreases |buffer|
  {
    if buffer == [] then last else
    var stamp := buffer[0].stamp;
    LastStepped(stamp, if stamp - time <= MINIMAL_STEP then last else stamp, buffer[1..])
  }

  // After a lidar update everything restarts from the optimised state.
  function Reset<S>(step: Step<S>, p: Predictor<S>, optimized: S, time: real): Predictor<S> {
    var buffer := DropBefore(p.buffer, time);
    Predictor(buffer, Replay(step, optimized, time, None, buffer), optimized, time, true,
              LastStepped(time, time, buffer))
  }

  // --------------------------------------------------------------------------

  // The cached state is what replaying the whole buffer from the last optimised state would give.
  ghost predicate CacheIsReplay<S>(step: Step<S>, p: Predictor<S>) {
    p.state == Replay(step, p.optimized, p.optimizedTime, None, p.buffer)
  }

  ghost predicate Consistent<S>(step: Step<S>, p: Predictor<S>) {
    p.hasFirst ==> p.buffer != [] && p.lastPredictTime >= 0.0 && CacheIsReplay(step, p)
  }

  // Replaying one sample is one step up to it, from the sample before it if there is one, unless the step is too small.
  lemma ReplayOne<S>(step: Step<S>, state: S, time: real, previous: Option<Imu>, sample: Imu)
    ensures Replay(step, state, time, previous, []) == state
    ensures Replay(step, state, time, previous, [sample]) ==
      if sample.stamp - time <= 0.000001 then state
      else step(state, if previous.Some? then previous.value else sample, sample, sample.stamp - time)
  {
    assert [sample][1..] == [];
  }

  // Replaying one sample more is one step more, from the last sample to it.
  lemma {:induction false} ReplayOneMore<S>(step: Step<S>, state: S, time: real, previous: Option<Imu>,
                                            buffer: seq<Imu>, sample: Imu)
    requires buffer != []
    ensures var last, before := buffer[|buffer| - 1], Replay(step, state, time, previous, buffer);
      Replay(step, state, time, previous, buffer + [sample]) ==
      if sample.stamp - last.stamp <= 0.000001 then before else step(before, last, sample, sample.stamp - last.stamp)
    decreases |buffer|
  {
    var current := buffer[0];
    var dt := current.stamp - time;
    var next :=
      if dt <= MINIMAL_STEP then state
      else if previous.Some? then Integrate(step, state, previous.value, current, dt)
      else Integrate(step, state, current, current, dt);
    assert (buffer + [sample])[1..] == buffer[1..] + [sample];
    if |buffer| == 1 {
      assert buffer[1..] + [sample] == [sample];
      ReplayOne(step, next, current.stamp, Some(current), sample);
    } else {
      ReplayOneMore(step, next, current.stamp, Some(current), buffer[1..], sample);
    }
  }

  // A sample with a non-negative stamp keeps the cache equal to the replay.
  lemma ReceiveKeepsCache<S>(step: Step<S>, p: Predictor<S>, sample: Imu)
    requires Consistent(step, p) && sample.stamp >= 0.0
    ensures Consistent(step, Receive(step, p, sample))
  {
    if p.hasFirst {
      ReplayOneMore(step, p.optimized, p.optimizedTime, None, p.buffer, sample);
    }
  }

  // If the time of the prediction is not set, a sample makes it start again from the optimised state, at the time of
  // that state if that is positive.
  lemma ReceiveRestarts<S>(step: Step<S>, p: Predictor<S>, sample: Imu)
    requires p.hasFirst && p.lastPredictTime < 0.0
    ensures var q := Receive(step, p, sample);
      && q.buffer == p.buffer + [sample] && q.optimized == p.optimized && q.optimizedTime == p.optimizedTime
      && (p.buffer == [] ==>
           && q.state == p.optimized
           && q.lastPredictTime == if p.optimizedTime > 0.0 then p.optimizedTime else sample.stamp)
      && (p.buffer != [] ==>
           var last := p.buffer[|p.buffer| - 1];
           && q.lastPredictTime == sample.stamp
           && q.state == if sample.stamp - last.stamp <= 0.000001 then p.optimized
                         else step(p.optimized, last, sample, sample.stamp - last.stamp))
  {}

  // With an empty buffer the cache goes stale: the sample is not integrated, a replay would integrate it.
  lemma EmptyBufferLosesAStep<S>(step: Step<S>, p: Predictor<S>, sample: Imu)
    requires p.hasFirst && p.buffer == [] && p.lastPredictTime >= 0.0 && p.state == p.optimized
    requires sample.stamp - p.optimizedTime > MINIMAL_STEP
    ensures CacheIsReplay(step, Receive(step, p, sample))
       <==> step(p.state, sample, sample, sample.stamp - p.optimizedTime) == p.state
  {
    assert p.buffer + [sample] == [sample];
    ReplayOne(step, p.optimized, p.optimizedTime, None, sample);
  }

  lemma {:induction false} DropBeforeKeepsLast(buffer: seq<Imu>, time: real)
    requires buffer != [] && buffer[|buffer| - 1].stamp >= time
    ensures var b := DropBefore(buffer, time);
      b != [] && b[|b| - 1] == buffer[|buffer| - 1] && b[0].stamp >= time
    decreases |buffer|
  {
    if buffer[0].stamp < time {
      DropBeforeKeepsLast(buffer[1..], time);
    }
  }

  lemma {:induction false} LastSteppedNonNegative(time: real, last: real, buffer: seq<Imu>)
    requires last >= 0.0 && forall i :: 0 <= i < |buffer| ==> buffer[i].stamp >= 0.0
    ensures LastStepped(time, last, buffer) >= 0.0
    decreases |buffer|
  {
    if buffer != [] {
      var stamp := buffer[0].stamp;
      LastSteppedNonNegative(stamp, if stamp - time <= MINIMAL_STEP then last else stamp, buffer[1..]);
    }
  }

  lemma {:induction false} DropBeforeIsSuffix(buffer: seq<Imu>, time: real)
    ensures var b := DropBefore(buffer, time); |b| <= |buffer| && b == buffer[|buffer| - |b|..]
    decreases |buffer|
  {
    if buffer != [] && buffer[0].stamp < time {
      DropBeforeIsSuffix(buffer[1..], time);
    }
  }

  // The step in time up to a sample of the buffer.
  function StepTo(time: real, buffer: seq<Imu>, i: nat): real
    requires i < |buffer|
  {
    buffer[i].stamp - if i == 0 then time else buffer[i - 1].stamp
  }

  // The stamp kept is that of the last sample to which there is a proper step.
  lemma {:induction false} LastSteppedIs(time: real, last: real, buffer: seq<Imu>) returns (k: nat)
    ensures k <= |buffer| && forall i :: k <= i < |buffer| ==> StepTo(time, buffer, i) <= 0.000001
    ensures k > 0 ==> StepTo(time, buffer, k - 1) > 0.000001
    ensures LastStepped(time, last, buffer) == if k == 0 then last else buffer[k - 1].stamp
    decreases |buffer|
  {
    k := 0;
    if buffer != [] {
      var stamp, rest := buffer[0].stamp, buffer[1..];
      var l := LastSteppedIs(stamp, if stamp - time <= MINIMAL_STEP then last else stamp, rest);
      forall i | 0 <= i < |rest|
        ensures StepTo(time, buffer, i + 1) == StepTo(stamp, rest, i)
      {}
      forall i | l < i < |buffer|
        ensures StepTo(time, buffer, i) <= 0.000001
      {
        assert StepTo(time, buffer, i - 1 + 1) == StepTo(stamp, rest, i - 1);
      }
      k := if l > 0 then l + 1 else if StepTo(time, buffer, 0) > 0.000001 then 1 else 0;
      assert l > 0 ==> StepTo(time, buffer, l - 1 + 1) == StepTo(stamp, rest, l - 1);
    }
  }

  // In a buffer in order, what is dropped is what is before the time.
  lemma {:induction false} DropBeforeSplits(buffer: seq<Imu>, time: real)
    requires Sorted(buffer)
    ensures var k := |buffer| - |DropBefore(buffer, time)|;
      && 0 <= k && DropBefore(buffer, time) == buffer[k..]
      && (forall i :: 0 <= i < k ==> buffer[i].stamp < time)
      && (forall i :: k <= i < |buffer| ==> buffer[i].stamp >= time)
    decreases |buffer|
  {
    if buffer != [] && buffer[0].stamp < time {
      var rest := buffer[1..];
      DropBeforeSplits(rest, time);
      var k := |buffer| - |DropBefore(buffer, time)|;
      forall i | 0 < i < |buffer|
        ensures i < k ==> buffer[i].stamp < time
        ensures i >= k ==> buffer[i].stamp >= time
      {
        assert buffer[i] == rest[i - 1];
      }
    }
  }

  // After a reset the buffer still holds the newest sample if that sample is not before the end of the scan.
  lemma ResetKeepsCache<S>(step: Step<S>, p: Predictor<S>, optimized: S, time: real)
    requires time >= 0.0 && p.buffer != [] && p.buffer[|p.buffer| - 1].stamp >= time
    requires forall i :: 0 <= i < |p.buffer| ==> p.buffer[i].stamp >= 0.0
    ensures var q := Reset(step, p, optimized, time);
      && Consistent(step, q)
      && q.buffer[|q.buffer| - 1] == p.buffer[|p.buffer| - 1]
      && forall i :: 0 <= i < |q.buffer| ==> q.buffer[i].stamp >= 0.0
  {
    DropBeforeKeepsLast(p.buffer, time);
    DropBeforeIsSuffix(p.buffer, time);
    LastSteppedNonNegative(time, time, DropBefore(p.buffer, time));
  }
}
