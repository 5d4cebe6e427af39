/** The lock-free control used by read-only observation, and its agreement with the locked one. */
module ObservationControl {
  import opened Ownership

  const OBSERVATION_ACTIVE: nat := 0
  const OBSERVATION_COMPLETING: nat := 1
  const OBSERVATION_STOPPED: nat := 2

  /** The four questions an observing command can put to either kind of control. */
  datatype Call = IsStopped | AdmitRead | BeginCompletion | Stop

  predicate CasAnswer(state: nat, call: Call) {
    match call
    case IsStopped => state == OBSERVATION_STOPPED
    case _ => state == OBSERVATION_ACTIVE
  }

  function CasNext(state: nat, call: Call): nat {
    if state != OBSERVATION_ACTIVE then state
    else match call
      case IsStopped => state
      case AdmitRead => OBSERVATION_ACTIVE
      case BeginCompletion => OBSERVATION_COMPLETING
      case Stop => OBSERVATION_STOPPED
  }

  class BlockingObservationControl {
    var state: nat

    constructor ()
      ensures state == OBSERVATION_ACTIVE
    {
      state := OBSERVATION_ACTIVE;
    }

    /** One atomic compare-and-exchange. */
    method CompareExchange(current: nat, next: nat) returns (ok: bool)
      modifies this
      ensures ok == (old(state) == current)
      ensures state == if ok then next else old(state)
    {
      ok := state == current;
      if ok { state := next; }
    }

    method IsStopped() returns (stopped: bool)
      ensures stopped == CasAnswer(state, Call.IsStopped)
    {
      stopped := state == OBSERVATION_STOPPED;
    }

    method BeginCompletion() returns (ok: bool)
      modifies this
      ensures ok == CasAnswer(old(state), Call.BeginCompletion)
      ensures state == CasNext(old(state), Call.BeginCompletion)
    {
      ok := CompareExchange(OBSERVATION_ACTIVE, OBSERVATION_COMPLETING);
    }

    method Stop() returns (ok: bool)
      modifies this
      ensures ok == CasAnswer(old(state), Call.Stop)
      ensures state == CasNext(old(state), Call.Stop)
    {
      ok := CompareExchange(OBSERVATION_ACTIVE, OBSERVATION_STOPPED);
    }

    method AdmitRead() returns (ok: bool)
      modifies this
      ensures ok == CasAnswer(old(state), Call.AdmitRead)
      ensures state == CasNext(old(state), Call.AdmitRead) == old(state)
    {
      ok := CompareExchange(OBSERVATION_ACTIVE, OBSERVATION_ACTIVE);
    }
  }

  /** What the locked control answers to the same question. */
  predicate LockedAnswer<R>(s: State<R>, call: Call) {
    match call
    case IsStopped => s.owner == Signal
    case AdmitRead => Grants(s, Op.AdmitRead)
    case BeginCompletion => Grants(s, Op.BeginCompletion)
    case Stop => Claimable(s)
  }

  function LockedNext<R>(s: State<R>, call: Call): State<R> {
    match call
    case IsStopped => s
    case AdmitRead => After(s, Op.AdmitRead)
    case BeginCompletion => After(s, Op.BeginCompletion)
    case Stop => Claim(s)
  }

  function CasAnswers(state: nat, calls: seq<Call>): seq<bool>
    decreases |calls|
  {
    if calls == [] then [] else [CasAnswer(state, calls[0])] + CasAnswers(CasNext(state, calls[0]), calls[1..])
  }

  function LockedAnswers<R>(s: State<R>, calls: seq<Call>): seq<bool>
    decreases |calls|
  {
    if calls == [] then [] else [LockedAnswer(s, calls[0])] + LockedAnswers(LockedNext(s, calls[0]), calls[1..])
  }

  /** The locked states an observing command can be in, matched with the atomic byte. */
  predicate Related<R>(state: nat, s: State<R>) {
    || (state == OBSERVATION_ACTIVE && s.owner == Active)
    || (state == OBSERVATION_COMPLETING && s.owner == Completion)
    || (state == OBSERVATION_STOPPED && s.owner == Signal)
  }

  lemma {:induction false} SimulatedFrom<R>(state: nat, s: State<R>, calls: seq<Call>)
    requires Related(state, s)
    ensures CasAnswers(state, calls) == LockedAnswers(s, calls)
    decreases |calls|
  {
    if calls != [] {
      SimulatedFrom(CasNext(state, calls[0]), LockedNext(s, calls[0]), calls[1..]);
    }
  }

  /** From construction on, no sequence of questions tells the two controls apart. */
  lemma Indistinguishable<R>(recovery: R, calls: seq<Call>)
    ensures CasAnswers(OBSERVATION_ACTIVE, calls) == LockedAnswers(State(Active, false, recovery), calls)
  {
    SimulatedFrom(OBSERVATION_ACTIVE, State(Active, false, recovery), calls);
  }

  /** The answers on which a polling loop returns `Stopped`. */
  predicate StopAnswer(call: Call, answer: bool) {
    (call == IsStopped && answer) || (call == Call.AdmitRead && !answer)
  }

  lemma {:induction false} InactiveNeverCompletes(state: nat, calls: seq<Call>, j: nat)
    requires state != OBSERVATION_ACTIVE && j < |calls| && calls[j] == Call.BeginCompletion
    ensures |CasAnswers(state, calls)| == |calls| && !CasAnswers(state, calls)[j]
  {
    AnswersEach(state, calls);
    if j > 0 { InactiveNeverCompletes(state, calls[1..], j - 1); }
  }

  lemma {:induction false} AnswersEach(state: nat, calls: seq<Call>)
    ensures |CasAnswers(state, calls)| == |calls|
    decreases |calls|
  {
    if calls != [] { AnswersEach(CasNext(state, calls[0]), calls[1..]); }
  }

  /** A loop that was told to stop never wins the completion claim afterwards, under either control. */
  lemma {:induction false} StoppedNeverCompletes<R>(recovery: R, calls: seq<Call>, i: nat, j: nat)
    requires i < j < |calls| && calls[j] == Call.BeginCompletion
    ensures |CasAnswers(OBSERVATION_ACTIVE, calls)| == |calls|
    ensures StopAnswer(calls[i], CasAnswers(OBSERVATION_ACTIVE, calls)[i]) ==>
              !CasAnswers(OBSERVATION_ACTIVE, calls)[j]
    ensures LockedAnswers(State(Active, false, recovery), calls) == CasAnswers(OBSERVATION_ACTIVE, calls)
  {
    Indistinguishable(recovery, calls);
    StoppedFrom(OBSERVATION_ACTIVE, calls, i, j);
  }

  lemma {:induction false} StoppedFrom(state: nat, calls: seq<Call>, i: nat, j: nat)
    requires i < j < |calls| && calls[j] == Call.BeginCompletion
    ensures |CasAnswers(state, calls)| == |calls|
    ensures StopAnswer(calls[i], CasAnswers(state, calls)[i]) ==> !CasAnswers(state, calls)[j]
    decreases |calls|
  {
    AnswersEach(state, calls);
    AnswersEach(CasNext(state, calls[0]), calls[1..]);
    if i > 0 {
      StoppedFrom(CasNext(state, calls[0]), calls[1..], i - 1, j - 1);
    } else if StopAnswer(calls[0], CasAnswer(state, calls[0])) {
      InactiveNeverCompletes(CasNext(state, calls[0]), calls[1..], j - 1);
    }
  }
}
