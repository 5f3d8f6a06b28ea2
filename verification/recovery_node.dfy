/**
 The control node of the behaviour tree that retries its first child, with its second child as the recovery in between.
 What the children answer is a parameter: the k-th answer that the node gets from either child.
 */
module RecoveryNodes {

  datatype Status = Idle | Running | Success | Failure

  datatype Error = BehaviorTreeException | LogicError

  datatype Outcome = Returned(status: Status) | Thrown(error: Error)

  // Which child is next, and how often the recovery has succeeded.
  datatype State = State(child: nat, retries: nat)

  const START := State(0, 0)

  // --------------------------------------------------------------------------
  // One answer

  datatype Reaction = GoOn(state: State) | Stop(outcome: Outcome, state: State)

  // What the node does about the answer of the child whose turn it is.
  function React(attempts: nat, s: State, answer: Status): Reaction
    requires s.child < 2
  {
    match answer
    case Running => Stop(Returned(Running), s)
    case Idle => Stop(Thrown(LogicError), s)
    case Success => if s.child == 0 then Stop(Returned(Success), START) else GoOn(State(0, s.retries + 1))
    case Failure =>
      if s.child == 0 && s.retries < attempts then GoOn(State(1, s.retries)) else Stop(Returned(Failure), START)
  }

  datatype End = End(outcome: Outcome, state: State, asked: nat)

  // One tick: answers are taken until the node has something to return.
  function TickFrom(attempts: nat, s: State, answers: nat -> Status, asked: nat): End
    requires s.child < 2
    decreases if s.retries <= attempts then 2 * (attempts - s.retries) + (2 - s.child) else 0
  {
    if s.retries > attempts then End(Returned(Failure), START, asked)
    else
      match React(attempts, s, answers(asked))
      case Stop(outcome, state) => End(outcome, state, asked + 1)
      case GoOn(state) => TickFrom(attempts, state, answers, asked + 1)
  }

  class RecoveryNode {
    var currentChildIdx: nat
    var numAttempts: nat
    var retryCount: nat
    const children: nat
    const answers: nat -> Status
    var asked: nat

    function View(): State
      reads this
    {
      State(currentChildIdx, retryCount)
    }

    constructor (children: nat, answers: nat -> Status)
      ensures View() == START && numAttempts == 1 && asked == 0
      ensures this.children == children && this.answers == answers
    {
      currentChildIdx, numAttempts, retryCount := 0, 1, 0;
      this.children, this.answers, asked := children, answers, 0;
    }

    method ExecuteTick() returns (answer: Status)
      modifies this`asked
      ensures answer == answers(old(asked)) && asked == old(asked) + 1
    {
      answer := answers(asked);
      asked := asked + 1;
    }

    method Halt()
      modifies this`currentChildIdx, this`retryCount
      ensures View() == START
    {
      retryCount := 0;
      currentChildIdx := 0;
    }

    method Tick(attempts: nat) returns (outcome: Outcome)
      requires currentChildIdx < 2
      modifies this
      ensures numAttempts == attempts && currentChildIdx < 2
      ensures children != 2 ==> outcome == Thrown(BehaviorTreeException) && View() == old(View()) && asked == old(asked)
      ensures children == 2 ==>
        End(outcome, View(), asked) == TickFrom(attempts, old(View()), answers, old(asked))
    {
      numAttempts := attempts;
      if children != 2 {
        return Thrown(BehaviorTreeException);
      }
      while currentChildIdx < children && retryCount <= numAttempts
        invariant currentChildIdx < 2 && numAttempts == attempts
        invariant TickFrom(attempts, View(), answers, asked) == TickFrom(attempts, old(View()), answers, old(asked))
        decreases 2 * (numAttempts - retryCount) + (2 - currentChildIdx)
      {
        var status := ExecuteTick();
        if currentChildIdx == 0 {
          match status {
            case Success =>
              Halt();
              return Returned(Success);
            case Failure =>
              if retryCount < numAttempts {
                currentChildIdx := currentChildIdx + 1;
              } else {
                Halt();
                return Returned(Failure);
              }
            case Running =>
              return Returned(Running);
            case Idle =>
              return Thrown(LogicError);
          }
        } else {
          match status {
            case Success =>
              retryCount := retryCount + 1;
              currentChildIdx := currentChildIdx - 1;
            case Failure =>
              Halt();
              return Returned(Failure);
            case Running =>
              return Returned(Running);
            case Idle =>
              return Thrown(LogicError);
          }
        }
      }
      Halt();
      outcome := Returned(Failure);
    }
  }

  // --------------------------------------------------------------------------
  // One tick

  // FAILURE is returned although no child has failed last: nobody was asked, or the last answer was not FAILURE.
  predicate FallsThrough(end: End, answers: nat -> Status, asked: nat) {
    end.outcome == Returned(Failure) && (end.asked <= asked || answers(end.asked - 1) != Failure)
  }

  // The tick falls through the loop if and only if there are more retries than attempts, or as many and the recovery,
  // whose turn it is, succeeds.
  lemma {:induction false} FallsThroughIff(attempts: nat, s: State, answers: nat -> Status, asked: nat)
    requires s.child < 2
    ensures var end := TickFrom(attempts, s, answers, asked);
      && end.asked >= asked
      && (end.asked == asked <==> s.retries > attempts)
      && (FallsThrough(end, answers, asked) <==>
           s.retries > attempts || (s.child == 1 && s.retries == attempts && answers(asked) == Success))
    decreases if s.retries <= attempts then 2 * (attempts - s.retries) + (2 - s.child) else 0
  {
    if s.retries <= attempts {
      match React(attempts, s, answers(asked))
      case Stop(outcome, state) =>
      case GoOn(state) => FallsThroughIff(attempts, state, answers, asked + 1);
    }
  }

  // No attempt is left for the state to go on with.
  predicate HasRoom(attempts: nat, s: State) { s.retries + s.child <= attempts }

  // Before the tick, and whatever the children will answer: it cannot fall through if and only if the retries, with
  // the recovery that is under way, are within the attempts.
  lemma CannotFallThroughIff(attempts: nat, s: State, asked: nat)
    requires s.child < 2
    ensures (forall answers: nat -> Status :: !FallsThrough(TickFrom(attempts, s, answers, asked), answers, asked))
       <==> HasRoom(attempts, s)
  {
    var recovers := (k: nat) => Success;
    hide FallsThrough;
    FallsThroughIff(attempts, s, recovers, asked);
    forall answers: nat -> Status
      ensures HasRoom(attempts, s) ==> !FallsThrough(TickFrom(attempts, s, answers, asked), answers, asked)
    {
      FallsThroughIff(attempts, s, answers, asked);
    }
  }

  // A tick that has room leaves room, so it takes fewer attempts than in the tick before to fall through.
  lemma {:induction false} TickLeavesRoom(attempts: nat, s: State, answers: nat -> Status, asked: nat)
    requires s.child < 2 && HasRoom(attempts, s)
    ensures HasRoom(attempts, TickFrom(attempts, s, answers, asked).state)
    decreases 2 * (attempts - s.retries) + (2 - s.child)
  {
    match React(attempts, s, answers(asked))
    case Stop(outcome, state) =>
    case GoOn(state) => TickLeavesRoom(attempts, state, answers, asked + 1);
  }

  // Two ticks, with two attempts and then with one: the recovery has just succeeded, the first child is not asked
  // again, and FAILURE is returned.
  lemma LoweredAttemptsExample(answers: nat -> Status)
    requires answers(0) == Failure && answers(1) == Success && answers(2) == Failure && answers(3) == Running
    requires answers(4) == Success
    ensures var first := TickFrom(2, START, answers, 0);
      && first == End(Returned(Running), State(1, 1), 4)
      && TickFrom(1, first.state, answers, first.asked) == End(Returned(Failure), START, 5)
  {
    assert TickFrom(2, State(1, 1), answers, 3) == End(Returned(Running), State(1, 1), 4);
    assert TickFrom(2, State(0, 1), answers, 2) == TickFrom(2, State(1, 1), answers, 3);
  }

  // --------------------------------------------------------------------------
  // A whole activation, from the start to the first return that is not RUNNING, over as many ticks as it takes

  // How an activation stands after a number of answers: how often the first child has completed, and how often the
  // recovery has succeeded.
  datatype Standing =
    | Going(state: State, completed: nat, recovered: nat)
    | Ended(outcome: Outcome, completed: nat, recovered: nat)

  function Counted(attempts: nat, st: Standing, answer: Status): Standing
    requires st.Going? ==> st.state.child < 2
  {
    if st.Ended? then st
    else
      var completed := st.completed + (if st.state.child == 0 && answer in {Success, Failure} then 1 else 0);
      var recovered := st.recovered + (if st.state.child == 1 && answer == Success then 1 else 0);
      match React(attempts, st.state, answer)
      case GoOn(state) => Going(state, completed, recovered)
      case Stop(outcome, state) =>
        if outcome == Returned(Running) then Going(state, completed, recovered)
        else Ended(outcome, completed, recovered)
  }

  function After(attempts: nat, answers: nat -> Status, from: nat, k: nat): (st: Standing)
    requires from <= k
    ensures st.Going? ==> st.state.child < 2
  {
    if k == from then Going(START, 0, 0) else Counted(attempts, After(attempts, answers, from, k - 1), answers(k - 1))
  }

  predicate InBounds(attempts: nat, st: Standing) {
    match st
    case Going(s, completed, recovered) =>
      && s.child < 2 && s.retries <= attempts && (s.child == 1 ==> s.retries < attempts)
      && recovered == s.retries && completed == s.retries + s.child
    case Ended(outcome, completed, recovered) =>
      completed <= attempts + 1 && recovered <= attempts
  }

  lemma CountedInBounds(attempts: nat, st: Standing, answer: Status)
    requires InBounds(attempts, st)
    ensures InBounds(attempts, Counted(attempts, st, answer))
  {}

  // The first child completes at most once more than there are attempts, and the recovery succeeds at most as often as
  // there are attempts, whatever the children answer.
  lemma {:induction false} ActivationIsBounded(attempts: nat, answers: nat -> Status, from: nat, k: nat)
    requires from <= k
    ensures InBounds(attempts, After(attempts, answers, from, k))
  {
    if k > from {
      ActivationIsBounded(attempts, answers, from, k - 1);
      CountedInBounds(attempts, After(attempts, answers, from, k - 1), answers(k - 1));
    }
  }

  function NotRunning(answers: nat -> Status, from: nat, k: nat): nat
    requires from <= k
  {
    if k == from then 0 else NotRunning(answers, from, k - 1) + (if answers(k - 1) == Running then 0 else 1)
  }

  // An activation that goes on has got no other answers than the completions of the first child and the successes of
  // the recovery and RUNNING; so it ends with the answer 2 * attempts + 1 that is not RUNNING, if not before.
  lemma {:induction false} ActivationEnds(attempts: nat, answers: nat -> Status, from: nat, k: nat)
    requires from <= k
    ensures var st := After(attempts, answers, from, k);
      st.Going? ==> NotRunning(answers, from, k) == st.completed + st.recovered <= 2 * attempts
  {
    if k > from {
      ActivationEnds(attempts, answers, from, k - 1);
      ActivationIsBounded(attempts, answers, from, k - 1);
      ActivationIsBounded(attempts, answers, from, k);
    }
  }

  lemma OneMoreAnswer(attempts: nat, answers: nat -> Status, from: nat, k: nat)
    requires from <= k
    ensures var st := After(attempts, answers, from, k);
      After(attempts, answers, from, k + 1) == Counted(attempts, st, answers(k))
  {}

  // --------------------------------------------------------------------------
  // Ticks make up the activation

  // A tick continues the activation where the last one left it. It returns RUNNING if and only if the activation goes
  // on. SUCCESS and FAILURE leave the node as it was at the start; an error leaves it as it was before the answer.
  lemma {:induction false} TickContinues(attempts: nat, answers: nat -> Status, from: nat, s: State, asked: nat)
    requires from <= asked && s.child < 2 && s.retries <= attempts
    requires After(attempts, answers, from, asked).Going? && After(attempts, answers, from, asked).state == s
    ensures var end := TickFrom(attempts, s, answers, asked);
      && end.asked > asked
      && var st := After(attempts, answers, from, end.asked);
         && (end.outcome == Returned(Running) ==> st.Going? && st.state == end.state && end.state.retries <= attempts)
         && (end.outcome != Returned(Running) ==> st.Ended? && st.outcome == end.outcome)
         && (end.outcome in {Returned(Success), Returned(Failure)} ==> end.state == START)
    decreases 2 * (attempts - s.retries) + (2 - s.child)
  {
    hide After;
    ActivationIsBounded(attempts, answers, from, asked);
    OneMoreAnswer(attempts, answers, from, asked);
    match React(attempts, s, answers(asked))
    case Stop(outcome, state) =>
    case GoOn(state) => TickContinues(attempts, answers, from, state, asked + 1);
  }

  // An error leaves the counters as they were when the child answered IDLE.
  lemma {:induction false} ErrorKeepsState(attempts: nat, answers: nat -> Status, from: nat, s: State, asked: nat)
    requires from <= asked && s.child < 2 && s.retries <= attempts
    requires After(attempts, answers, from, asked).Going? && After(attempts, answers, from, asked).state == s
    requires TickFrom(attempts, s, answers, asked).outcome.Thrown?
    ensures var end := TickFrom(attempts, s, answers, asked);
      && asked < end.asked && answers(end.asked - 1) == Idle
      && After(attempts, answers, from, end.asked - 1).Going?
      && After(attempts, answers, from, end.asked - 1).state == end.state
    decreases 2 * (attempts - s.retries) + (2 - s.child)
  {
    hide After;
    ActivationIsBounded(attempts, answers, from, asked);
    OneMoreAnswer(attempts, answers, from, asked);
    match React(attempts, s, answers(asked))
    case Stop(outcome, state) =>
    case GoOn(state) => ErrorKeepsState(attempts, answers, from, state, asked + 1);
  }

  // SUCCESS is returned exactly if the first child answered SUCCESS, and it is the last answer taken. FAILURE is
  // returned exactly if the recovery failed or the first child failed with no attempt left.
  lemma {:induction false} EndedBy(attempts: nat, answers: nat -> Status, from: nat, k: nat)
    requires from < k && After(attempts, answers, from, k - 1).Going? && After(attempts, answers, from, k).Ended?
    ensures var st, before := After(attempts, answers, from, k), After(attempts, answers, from, k - 1).state;
      && (st.outcome == Returned(Success) <==> before.child == 0 && answers(k - 1) == Success)
      && (st.outcome == Returned(Failure) <==>
           answers(k - 1) == Failure && (before.child == 1 || before.retries == attempts))
      && (st.outcome == Thrown(LogicError) <==> answers(k - 1) == Idle)
      && st.outcome in {Returned(Success), Returned(Failure), Thrown(LogicError)}
  {
    ActivationIsBounded(attempts, answers, from, k - 1);
  }
}
