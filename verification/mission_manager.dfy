/**
 The mission that maps the field at the start of a game: three goals are sent one after the other, and when the time for
 mapping is up the point cloud and then the grid map are saved, after which the normal behaviour is let go.

 The action server, the save services and the timers are the environment: they answer when they like.
 */
module MissionManagers {

  const GOALS: nat := 3

  // What the node keeps, and what it has set going in its environment: goals without a result yet, requests to save
  // without a response yet, the goals sent by number and the values published.
  datatype Mission = Mission(
    started: bool,
    finished: bool,
    goalIndex: nat,
    deadline: bool,
    retry: bool,
    inFlight: nat,
    pcdPending: nat,
    gridPending: nat,
    sent: seq<nat>,
    published: seq<bool>)

  function Start(): Mission { Mission(false, false, 0, false, false, 0, 0, 0, [], [false]) }

  // A goal can be rejected, in which case no result comes. Ready says whether the action server answers in time; the
  // two services have to be there when the time is up.
  datatype Event =
    | GameStatus(starts: bool, ready: bool)
    | Retry(ready: bool)
    | NavResult(succeeded: bool, ready: bool)
    | Rejected
    | Timeout(pcdReady: bool, gridReady: bool)
    | PcdSaved(success: bool)
    | GridSaved(success: bool)

  // A timer can fire if it is armed, and an answer can come if it was asked for.
  predicate Possible(m: Mission, e: Event) {
    match e
    case GameStatus(_, _) => true
    case Retry(_) => m.retry
    case NavResult(_, _) => m.inFlight > 0
    case Rejected => m.inFlight > 0
    case Timeout(_, _) => m.deadline
    case PcdSaved(_) => m.pcdPending > 0
    case GridSaved(_) => m.gridPending > 0
  }

  // --------------------------------------------------------------------------
  // The callbacks

  function GoalSent(m: Mission, ready: bool): Mission {
    if !ready then m.(retry := true)
    else if m.goalIndex >= GOALS then m
    else m.(inFlight := m.inFlight + 1, sent := m.sent + [m.goalIndex])
  }

  function Next(m: Mission, e: Event): Mission
    requires Possible(m, e)
  {
    match e
    case GameStatus(starts, ready) =>
      if m.started || !starts then m else GoalSent(m.(started := true, deadline := true), ready)
    case Retry(ready) => GoalSent(m.(retry := false), ready)
    case NavResult(_, ready) =>
      var n := m.(inFlight := m.inFlight - 1);
      if m.finished then n else GoalSent(n.(goalIndex := n.goalIndex + 1), ready)
    case Rejected => m.(inFlight := m.inFlight - 1)
    case Timeout(pcdReady, gridReady) =>
      if m.finished then m
      else m.(deadline := false, pcdPending := m.pcdPending + if pcdReady && gridReady then 1 else 0)
    case PcdSaved(success) =>
      m.(pcdPending := m.pcdPending - 1, gridPending := m.gridPending + if success then 1 else 0)
    case GridSaved(success) =>
      var n := m.(gridPending := m.gridPending - 1);
      if success then n.(finished := true, published := m.published + [true]) else n
  }

  // A mission that stands at m goes on with these events.
  predicate PossibleFrom(m: Mission, events: seq<Event>)
    decreases |events|, 0
  {
    events != [] ==>
      var last := |events| - 1;
      PossibleFrom(m, events[..last]) && Possible(From(m, events[..last]), events[last])
  }

  function From(m: Mission, events: seq<Event>): Mission
    requires PossibleFrom(m, events)
    decreases |events|, 1
  {
    if events == [] then m else
    var last := |events| - 1;
    Next(From(m, events[..last]), events[last])
  }

  predicate PossibleRun(events: seq<Event>) { PossibleFrom(Start(), events) }

  function Run(events: seq<Event>): Mission
    requires PossibleRun(events)
  {
    From(Start(), events)
  }

  // --------------------------------------------------------------------------
  // What every mission keeps

  function One(b: bool): nat { if b then 1 else 0 }

  // The first goals in their order, each once.
  ghost predicate FirstGoals(sent: seq<nat>, n: int) {
    |sent| == n && forall i :: 0 <= i < |sent| ==> sent[i] == i
  }

  function AtMostThree(n: int): int { if n < 3 then n else 3 }

  // The goals are sent in order, none twice and none left out, up to the one on its way or before the one about to be
  // sent again; only one is on its way or about to be sent again; and the mission is in at most one of the phases of
  // its end: waiting for the time, saving the cloud, saving the grid, done.
  ghost predicate Sound(m: Mission) {
    && (!m.started ==> m == Start())
    && m.inFlight + One(m.retry) <= 1
    && (m.started ==> FirstGoals(m.sent, AtMostThree(if m.retry then m.goalIndex else m.goalIndex + 1)))
    && One(m.deadline) + m.pcdPending + m.gridPending + One(m.finished) <= 1
    && m.published == [false] + if m.finished then [true] else []
  }

  lemma SendIsSound(m: Mission, ready: bool)
    requires m.started && One(m.deadline) + m.pcdPending + m.gridPending + One(m.finished) <= 1
    requires m.published == [false] + if m.finished then [true] else []
    requires m.inFlight == 0 && !m.retry && FirstGoals(m.sent, AtMostThree(m.goalIndex))
    ensures Sound(GoalSent(m, ready))
  {}

  lemma SavingIsSound(m: Mission, e: Event)
    requires Sound(m) && Possible(m, e) && (e.Timeout? || e.PcdSaved? || e.GridSaved?)
    ensures Sound(Next(m, e))
  {
    hide FirstGoals, GoalSent;
  }

  lemma NextIsSound(m: Mission, e: Event)
    requires Sound(m) && Possible(m, e)
    ensures Sound(Next(m, e))
  {
    if e.Timeout? || e.PcdSaved? || e.GridSaved? {
      SavingIsSound(m, e);
      return;
    }
    assert FirstGoals([], 0);
    hide FirstGoals, GoalSent;
    match e
    case GameStatus(starts, ready) =>
      if !m.started && starts {
        SendIsSound(m.(started := true, deadline := true), ready);
      }
    case Retry(ready) => SendIsSound(m.(retry := false), ready);
    case NavResult(_, ready) =>
      if !m.finished {
        SendIsSound(m.(inFlight := m.inFlight - 1, goalIndex := m.goalIndex + 1), ready);
      }
    case _ =>
  }

  // However the environment answers.
  lemma {:induction false} RunIsSound(events: seq<Event>)
    requires PossibleRun(events)
    ensures Sound(Run(events))
    decreases |events|
  {
    if events != [] {
      RunIsSound(events[..|events| - 1]);
      NextIsSound(Run(events[..|events| - 1]), events[|events| - 1]);
    }
  }

  // The time was up and both services were there, then the point cloud was saved, then the grid map.
  ghost predicate TimeUp(events: seq<Event>, i: nat) { i < |events| && events[i] == Timeout(true, true) }

  ghost predicate CloudSaved(events: seq<Event>, i: nat, j: nat) {
    TimeUp(events, i) && i < j < |events| && events[j] == PcdSaved(true)
  }

  ghost predicate MapsSaved(events: seq<Event>, i: nat, j: nat, k: nat) {
    CloudSaved(events, i, j) && j < k < |events| && events[k] == GridSaved(true)
  }

  // Each phase is entered from the one before it, by its event.
  lemma PhaseBegins(m: Mission, e: Event)
    requires Possible(m, e)
    ensures var n := Next(m, e);
      && (n.pcdPending > 0 ==> m.pcdPending > 0 || e == Timeout(true, true))
      && (n.gridPending > 0 ==> m.gridPending > 0 || (m.pcdPending > 0 && e == PcdSaved(true)))
      && (n.finished ==> m.finished || (m.gridPending > 0 && e == GridSaved(true)))
      && (m.finished ==> n.finished)
  {}

  lemma {:induction false} PhasesInOrder(events: seq<Event>)
    requires PossibleRun(events)
    ensures var m := Run(events);
      && (m.pcdPending > 0 ==> exists i :: TimeUp(events, i))
      && (m.gridPending > 0 ==> exists i, j :: CloudSaved(events, i, j))
      && (m.finished ==> exists i, j, k :: MapsSaved(events, i, j, k))
    decreases |events|
  {
    if events != [] {
      var last := |events| - 1;
      var before, e := events[..last], events[last];
      PhasesInOrder(before);
      PhaseBegins(Run(before), e);
      hide Next, Possible;
      OneMoreEvent(events, e);
    }
  }

  lemma OneMoreEvent(events: seq<Event>, e: Event)
    requires events != [] && events[|events| - 1] == e
    ensures var last := |events| - 1;
      var before := events[..last];
      && ((exists i :: TimeUp(before, i)) || e == Timeout(true, true) ==> exists i :: TimeUp(events, i))
      && ((exists i, j :: CloudSaved(before, i, j)) || (e == PcdSaved(true) && exists i :: TimeUp(before, i))
          ==> exists i, j :: CloudSaved(events, i, j))
      && ((exists i, j, k :: MapsSaved(before, i, j, k))
          || (e == GridSaved(true) && exists i, j :: CloudSaved(before, i, j))
          ==> exists i, j, k :: MapsSaved(events, i, j, k))
  {
    var last := |events| - 1;
    var before := events[..last];
    if e == Timeout(true, true) {
      assert TimeUp(events, last);
    }
    if i :| TimeUp(before, i) {
      assert TimeUp(events, i);
      assert e == PcdSaved(true) ==> CloudSaved(events, i, last);
    }
    if i, j :| CloudSaved(before, i, j) {
      assert CloudSaved(events, i, j);
      assert e == GridSaved(true) ==> MapsSaved(events, i, j, last);
    }
    if i, j, k :| MapsSaved(before, i, j, k) {
      assert MapsSaved(events, i, j, k);
    }
  }

  // The normal behaviour is let go only after both maps were saved, in this order, after the time was up; once let go,
  // it stays so.
  lemma FinishedOnlyAfterSaves(events: seq<Event>, n: nat)
    requires PossibleRun(events) && n <= |events| && PossibleRun(events[..n])
    ensures Run(events).finished ==> exists i, j, k :: MapsSaved(events, i, j, k)
    ensures Run(events[..n]).finished ==> Run(events).finished
  {
    PhasesInOrder(events);
    StaysFinished(events, n);
  }

  lemma {:induction false} StaysFinished(events: seq<Event>, n: nat)
    requires PossibleRun(events) && n <= |events| && PossibleRun(events[..n])
    ensures Run(events[..n]).finished ==> Run(events).finished
    decreases |events|
  {
    if n == |events| {
      assert events[..n] == events;
    } else {
      var last := |events| - 1;
      assert events[..last][..n] == events[..n];
      PhaseBegins(Run(events[..last]), events[last]);
      hide Next, Possible;
      StaysFinished(events[..last], n);
    }
  }

  // --------------------------------------------------------------------------
  // The node

  // The fields of the node; what it has set going in its environment is known to the proof only.
  class MissionManager {
    var bootstrapStarted: bool
    var bootstrapFinished: bool
    var goalIndex: nat
    var deadlineTimer: bool
    var retryGoalTimer: bool
    ghost var inFlight: nat
    ghost var pcdPending: nat
    ghost var gridPending: nat
    ghost var sent: seq<nat>
    ghost var published: seq<bool>

    ghost function State(): Mission
      reads this
    {
      Mission(bootstrapStarted, bootstrapFinished, goalIndex, deadlineTimer, retryGoalTimer, inFlight, pcdPending,
              gridPending, sent, published)
    }

    constructor ()
      ensures State() == Start() && Sound(State())
    {
      bootstrapStarted, bootstrapFinished, goalIndex, deadlineTimer, retryGoalTimer := false, false, 0, false, false;
      inFlight, pcdPending, gridPending, sent, published := 0, 0, 0, [], [false];
    }

    method SendNextGoal(ready: bool)
      modifies this
      ensures State() == GoalSent(old(State()), ready)
    {
      if !ready {
        retryGoalTimer := true;
        return;
      }
      if goalIndex >= GOALS {
        return;
      }
      inFlight, sent := inFlight + 1, sent + [goalIndex];
    }

    method OnGameStatus(gameProgress: int, startProgress: int, ready: bool)
      requires Sound(State())
      modifies this
      ensures State() == Next(old(State()), GameStatus(gameProgress == startProgress, ready)) && Sound(State())
    {
      NextIsSound(State(), GameStatus(gameProgress == startProgress, ready));
      if bootstrapStarted {
        return;
      }
      if gameProgress != startProgress {
        return;
      }
      bootstrapStarted := true;
      deadlineTimer := true;
      SendNextGoal(ready);
    }

    method RetrySendGoal(ready: bool)
      requires Sound(State()) && retryGoalTimer
      modifies this
      ensures State() == Next(old(State()), Retry(ready)) && Sound(State())
    {
      NextIsSound(State(), Retry(ready));
      retryGoalTimer := false;
      SendNextGoal(ready);
    }

    method OnNavResult(succeeded: bool, ready: bool)
      requires Sound(State()) && inFlight > 0
      modifies this
      ensures State() == Next(old(State()), NavResult(succeeded, ready)) && Sound(State())
    {
      NextIsSound(State(), NavResult(succeeded, ready));
      inFlight := inFlight - 1;
      if bootstrapFinished {
        return;
      }
      if succeeded {
        goalIndex := goalIndex + 1;
        SendNextGoal(ready);
        return;
      }
      goalIndex := goalIndex + 1;
      SendNextGoal(ready);
    }

    method OnBootstrapTimeout(pcdReady: bool, gridReady: bool)
      requires Sound(State()) && deadlineTimer
      modifies this
      ensures State() == Next(old(State()), Timeout(pcdReady, gridReady)) && Sound(State())
    {
      NextIsSound(State(), Timeout(pcdReady, gridReady));
      if bootstrapFinished {
        return;
      }
      deadlineTimer := false;
      SaveMaps(pcdReady, gridReady);
    }

    method SaveMaps(pcdReady: bool, gridReady: bool)
      modifies this`pcdPending
      ensures pcdPending == old(pcdPending) + if pcdReady && gridReady then 1 else 0
    {
      if !pcdReady {
        return;
      }
      if !gridReady {
        return;
      }
      pcdPending := pcdPending + 1;
    }

    method OnPcdSaved(success: bool)
      requires Sound(State()) && pcdPending > 0
      modifies this
      ensures State() == Next(old(State()), PcdSaved(success)) && Sound(State())
    {
      NextIsSound(State(), PcdSaved(success));
      pcdPending := pcdPending - 1;
      if !success {
        return;
      }
      gridPending := gridPending + 1;
    }

    method OnGridMapSaved(success: bool)
      requires Sound(State()) && gridPending > 0
      modifies this
      ensures State() == Next(old(State()), GridSaved(success)) && Sound(State())
    {
      NextIsSound(State(), GridSaved(success));
      gridPending := gridPending - 1;
      if !success {
        return;
      }
      bootstrapFinished := true;
      published := published + [true];
    }
  }

  // --------------------------------------------------------------------------
  // Goals after the time is up

  // When the time is up all goals are cancelled; yet a retry that was armed before is not disarmed, and the result of a
  // cancelled goal still brings the next one.
  predicate CanStillSend(m: Mission) {
    || (m.retry && m.goalIndex < GOALS)
    || (m.inFlight > 0 && !m.finished && m.goalIndex + 1 < GOALS)
  }

  // It was armed at the start of the mission and is not armed again.
  ghost predicate TimeIsUp(m: Mission) { Sound(m) && m.started && !m.deadline }

  lemma StillCannotSend(m: Mission, e: Event)
    requires TimeIsUp(m) && !CanStillSend(m) && Possible(m, e)
    ensures TimeIsUp(Next(m, e)) && !CanStillSend(Next(m, e)) && Next(m, e).sent == m.sent
  {
    NextIsSound(m, e);
    hide Sound;
    assert m.inFlight == 0 || !m.retry by {
      OneGoalAtATime(m);
    }
  }

  lemma OneGoalAtATime(m: Mission)
    requires Sound(m)
    ensures m.inFlight + One(m.retry) <= 1
  {}

  lemma {:induction false} NeverSendsAgain(m: Mission, more: seq<Event>)
    requires TimeIsUp(m) && !CanStillSend(m) && PossibleFrom(m, more)
    ensures var n := From(m, more);
      TimeIsUp(n) && !CanStillSend(n) && n.sent == m.sent
    decreases |more|
  {
    if more != [] {
      var last := |more| - 1;
      NeverSendsAgain(m, more[..last]);
      hide TimeIsUp, CanStillSend, Next;
      StillCannotSend(From(m, more[..last]), more[last]);
    }
  }

  lemma JustOneEvent(m: Mission, e: Event)
    requires Possible(m, e)
    ensures PossibleFrom(m, [e]) && From(m, [e]) == Next(m, e)
  {
    assert [e][..0] == [];
    assert PossibleFrom(m, []) && From(m, []) == m;
    hide Possible, Next;
  }

  // Whatever comes once the time is up, in whichever phase of the end the mission is: another goal can be sent if and
  // only if there is one left and a retry is armed, or one is left after the one on its way and the mission is not
  // finished.
  lemma SendsAfterDeadlineIff(m: Mission)
    requires TimeIsUp(m)
    ensures (exists more :: PossibleFrom(m, more) && From(m, more).sent != m.sent) <==> CanStillSend(m)
  {
    if CanStillSend(m) {
      var e := if m.retry && m.goalIndex < GOALS then Retry(true) else NavResult(false, true);
      JustOneEvent(m, e);
      assert From(m, [e]).sent != m.sent;
    } else {
      forall more | PossibleFrom(m, more)
        ensures From(m, more).sent == m.sent
      {
        NeverSendsAgain(m, more);
      }
    }
  }

  lemma RunGoesOn(events: seq<Event>, e: Event)
    requires PossibleRun(events) && Possible(Run(events), e)
    ensures PossibleRun(events + [e]) && Run(events + [e]) == Next(Run(events), e)
  {
    assert (events + [e])[..|events|] == events;
    hide Possible, Next;
  }

  // A mission that sends its second goal after the time was up and the first was cancelled.
  lemma GoalAfterDeadlineExample()
    ensures var before := [] + [GameStatus(true, true)] + [Timeout(true, true)];
      var after := before + [NavResult(false, true)];
      && PossibleRun(before) && Run(before).sent == [0] && !Run(before).deadline
      && PossibleRun(after) && Run(after).sent == [0, 1]
  {
    RunGoesOn([], GameStatus(true, true));
    RunGoesOn([] + [GameStatus(true, true)], Timeout(true, true));
    RunGoesOn([] + [GameStatus(true, true)] + [Timeout(true, true)], NavResult(false, true));
  }

  // A mission that finds no action server at the start, saves its maps, lets the normal behaviour go, and then sends
  // its first goal.
  lemma GoalAfterFinishExample()
    ensures var timedOut := [] + [GameStatus(true, false)] + [Timeout(true, true)];
      var finished := timedOut + [PcdSaved(true)] + [GridSaved(true)];
      && PossibleRun(timedOut) && PossibleRun(timedOut + [Retry(true)]) && Run(timedOut + [Retry(true)]).sent == [0]
      && PossibleRun(finished) && Run(finished).finished && Run(finished).sent == []
      && PossibleRun(finished + [Retry(true)]) && Run(finished + [Retry(true)]).sent == [0]
  {
    RunGoesOn([], GameStatus(true, false));
    var timedOut := [] + [GameStatus(true, false)] + [Timeout(true, true)];
    RunGoesOn([] + [GameStatus(true, false)], Timeout(true, true));
    RunGoesOn(timedOut, Retry(true));
    RunGoesOn(timedOut, PcdSaved(true));
    RunGoesOn(timedOut + [PcdSaved(true)], GridSaved(true));
    RunGoesOn(timedOut + [PcdSaved(true)] + [GridSaved(true)], Retry(true));
  }
}
