/** Pieces that several commands share: the observation loop and the completion of an operation. */
module WorkerParts {
  import opened Basics
  import opened Supervision

  // ---- The terminal-observation loop, as the questions it puts to the control ----

  datatype Observed = TerminalSeen | TimedOut | Stopped | ReadFailed

  datatype Polling =
    | CheckFirst
    | CheckSecond
    | Admit
    | Reading
    | Answered
    | Recording
    | Narrated
    | CheckAfter
    | Over(outcome: Observed)

  /** An admitted read is one request, or two when a human's credential is renewed in between. After it the loop
      may record what it saw, may admit a second read of a linked publication, and may write a progress
      line, which nothing guards. `records` are the recovery values it may write. */
  ghost predicate PollNext<R(!new)>(
      records: R -> bool, narrates: bool, human: bool, q: Polling, a: Action<R>, q': Polling)
  {
    match q
    case CheckFirst => a.ReadStop? && q' == if a.stopped then Over(Stopped) else CheckSecond
    case CheckSecond => a.ReadStop? && if a.stopped then q' == Over(Stopped) else q' == Over(TimedOut) || q' == Admit
    case Admit => a.Ask? && a.op.AdmitRead? && q' == if a.granted then Reading else Over(Stopped)
    case Reading => a == Get(false) && q' == Answered
    case Answered => ((human && a == Get(true)) || a.Internal?) && q' == Recording
    case Recording =>
      || (a.Ask? && a.op.UpdateRecovery? && records(a.op.recovery) && q' == Recording)
      || (a.Ask? && a.op.AdmitRead? && q' == if a.granted then Reading else Recording)
      || (narrates && a == Print(Line) && q' == Narrated)
      || (a.Internal? && (q' == CheckAfter || q' == Over(TerminalSeen) || q' == Over(ReadFailed)))
    case Narrated => a.Internal? && (q' == CheckAfter || q' == Over(TerminalSeen))
    case CheckAfter =>
      a.ReadStop? && if a.stopped then q' == Over(Stopped) else q' == Over(TimedOut) || q' == CheckFirst
    case Over(_) => false
  }

  predicate IsRepeat<R>(a: Action<R>) {
    a.Get? && a.again
  }

  /** A read is about to leave only with an admission; `Stopped` is only returned when refused. */
  ghost predicate PollFits<R>(q: Polling, v: View<R>) {
    && v.held == Nothing
    && (q.Reading? ==> JustAdmittedRead(v))
    && (q.Answered? ==> v.last == Some(Get(false)))
    && (q.Reading? || q.Answered? || q.Recording? ==> v.owed)
    && (q == Over(Stopped) ==> v.refused)
  }

  /** The loop changes nothing but the recovery value, and that only to a recordable one; it writes no line
      unless it narrates, and repeats no read unless a human's credential can be renewed. */
  ghost predicate PollFrame<R>(records: R -> bool, narrates: bool, human: bool, v: View<R>, a: Action<R>) {
    var v' := Advance(v, a);
    && v'.admissions == v.admissions && v'.timed == v.timed
    && (v.fenced ==> v'.fenced)
    && (v'.written == v.written || records(v'.written))
    && !a.Send? && (IsLine(a) ==> narrates) && (a.Print? ==> a.document.Line?) && (IsRepeat(a) ==> human)
  }

  lemma PollKeepsFit<R(!new)>(
      records: R -> bool, narrates: bool, human: bool, q: Polling, v: View<R>, a: Action<R>, q': Polling)
    requires PollFits(q, v) && PollNext(records, narrates, human, q, a, q')
    ensures PollFits(q', Advance(v, a)) && PollFrame(records, narrates, human, v, a) && Permitted(v, a)
  {
  }

  // ---- Trying again ----

  /** Where a call stands: it makes a second attempt after a lost answer, and under a human session all of it is
      run once more after a rejected credential was renewed. */
  datatype Tries = Tries(rerun: bool, replay: bool)

  const FIRST := Tries(false, false)

  predicate TriesAgain(human: bool, k: Tries, k': Tries) {
    || (!k.replay && k' == Tries(k.rerun, true))
    || (human && !k.rerun && k' == Tries(true, false))
  }

  /** How many attempts can still be made, the one at hand included. */
  function AttemptsLeft(human: bool, k: Tries): nat {
    (if k.replay then 1 else 2) + if human && !k.rerun then 2 else 0
  }

  function AttemptLimit(human: bool): nat {
    if human then 4 else 2
  }

  lemma AttemptsRunOut(human: bool, k: Tries, k': Tries)
    requires TriesAgain(human, k, k')
    ensures AttemptsLeft(human, k') < AttemptsLeft(human, k) <= AttemptLimit(human)
  {
  }

  // ---- Completing an operation ----

  /** `Completing(true)` completes with a result that only a worker that lost can have, such as an
      observation that returned `Stopped`; `LosersArm` is the output arm for it. */
  datatype Ending = Completing(lost: bool) | Writing | LosersArm | Quitting | Ended

  const GENERAL_FAILURE: int := 1

  ghost predicate EndNext<R>(e: Ending, a: Action<R>, e': Ending) {
    match e
    case Completing(lost) =>
      a.Ask? && a.op.BeginCompletion? && e' == if !a.granted then Quitting else if lost then LosersArm else Writing
    case Writing =>
      || ((a.ReadRecovery? || a.ReadDispatched?) && e' == Writing)
      || (a == Print(Terminal) && e' == Writing)
      || (a.Finish? && !a.result.Placeholder? && e' == Ended)
    case LosersArm => a == Finish(Completed(GENERAL_FAILURE)) && e' == Ended
    case Quitting => a == Finish(Placeholder) && e' == Ended
    case Ended => false
  }

  ghost predicate EndFits<R>(e: Ending, v: View<R>) {
    match e
    case Completing(lost) => v.held == Nothing && (lost ==> v.refused)
    case Writing => v.held == Whole
    case LosersArm => false
    case Quitting => v.held == Nothing && v.refused
    case Ended => v.held != ReadOnly
  }

  ghost predicate EndFrame<R>(v: View<R>, a: Action<R>) {
    var v' := Advance(v, a);
    && v'.admissions == v.admissions && v'.timed == v.timed && v'.written == v.written && (v.fenced ==> v'.fenced)
    && !a.Send? && !IsLine(a) && !a.Get?
  }

  lemma EndKeepsFit<R>(e: Ending, v: View<R>, a: Action<R>, e': Ending)
    requires EndFits(e, v) && EndNext(e, a, e') && Truthful(v, a)
    ensures EndFits(e', Advance(v, a)) && EndFrame(v, a) && Permitted(v, a)
  {
  }
}
