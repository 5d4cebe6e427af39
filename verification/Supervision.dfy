/** One worker thread, one supervisor, one control: every interleaving of a supervised command.

    A worker is any program over the control's operations, the network and the terminal. The
    supervisor waits for the worker, a process signal or the observation timer, and tries to take
    ownership when a signal or the timer comes first. Its claim is two steps, because the
    cooperative stop flag is stored after the owner is written and is read without the mutex. */
module Supervision {
  import opened Basics
  import opened Ownership

  /** The result of a command; the pending document of an authorization; a progress line. */
  datatype Document = Terminal | Pending | Line

  /** What a mutation puts on the wire; `Mutation` carries the idempotency key and its subject. */
  datatype Request =
    | AllocateSet
    | UploadMember(setId: string)
    | SealSet(setId: string)
    | Mutation(key: string, subject: Option<string>)

  /** `Placeholder` is the exit status a worker returns when it knows that it lost the operation. */
  datatype Result = Placeholder | Completed(code: int) | Failed

  /** One step of a worker, with the answer it got. */
  datatype Action<R> =
    | Ask(op: Op<R>, granted: bool)
    | ReadStop(stopped: bool)
    | ReadRecovery(recovery: R)
    | ReadDispatched(dispatched: bool)
    | StartTimer
    | Send(request: Request)
    | Get(again: bool)     // `again`: repeated after a credential refresh, without a new admission
    | Print(document: Document)
    | Finish(result: Result)
    | Internal

  /** Everything a worker has done, latest action last. */
  datatype Trace<R> = Idle | Then(past: Trace<R>, action: Action<R>)

  // ---- What a trace says about the operation, without looking at the control ----

  predicate IsAdmission<R>(a: Action<R>) {
    a.Ask? && a.granted && (a.op.BeginDispatch? || a.op.BeginBoundedDispatch? || a.op.BeginDispatchWithRecovery?)
  }

  function Admissions<R>(t: Trace<R>): nat {
    if t.Idle? then 0 else Admissions(t.past) + if IsAdmission(t.action) then 1 else 0
  }

  function Sends<R>(t: Trace<R>): nat {
    if t.Idle? then 0 else Sends(t.past) + if t.action.Send? then 1 else 0
  }

  /** Every request that left is this one. */
  ghost predicate OnlySends<R>(request: Request, t: Trace<R>) {
    t.Then? ==> OnlySends(request, t.past) && (t.action.Send? ==> t.action.request == request)
  }

  function Gets<R>(t: Trace<R>): nat {
    if t.Idle? then 0 else Gets(t.past) + if t.action.Get? then 1 else 0
  }

  /** Reads as the control admits them: a repeated request is the same read. */
  function Reads<R>(t: Trace<R>): nat {
    if t.Idle? then 0 else Reads(t.past) + if t.action.Get? && !t.action.again then 1 else 0
  }

  function Lines<R>(t: Trace<R>): nat {
    if t.Idle? then 0 else Lines(t.past) + if IsLine(t.action) then 1 else 0
  }

  predicate IsLine<R>(a: Action<R>) {
    a.Print? && a.document.Line?
  }

  predicate IsReadAdmission<R>(a: Action<R>) {
    a.Ask? && a.granted && a.op.AdmitRead?
  }

  /** A read was admitted and its progress line has not been written. */
  predicate Owed<R>(t: Trace<R>) {
    t.Then? && (IsReadAdmission(t.action) || (Owed(t.past) && !IsLine(t.action)))
  }

  predicate Timed<R>(t: Trace<R>) {
    t.Then? && (Timed(t.past) || t.action.StartTimer?)
  }

  predicate Printed<R>(t: Trace<R>) {
    t.Then? && (Printed(t.past) || (t.action.Print? && t.action.document.Terminal?))
  }

  /** The last recovery value the control accepted. */
  function Written<R>(t: Trace<R>, initial: R): R {
    if t.Idle? then initial
    else match t.action
      case Ask(UpdateRecovery(r), true) => r
      case Ask(BeginDispatchWithRecovery(r), true) => r
      case _ => Written(t.past, initial)
  }

  /** How much of the output the worker has been granted. */
  datatype Holding = Nothing | ReadOnly | Whole

  function Held<R>(t: Trace<R>): Holding {
    if t.Idle? then Nothing
    else match t.action
      case Ask(BeginReadOnlyOutput, true) => ReadOnly
      case Ask(FinishReadOnlyOutput, true) => Whole
      case Ask(BeginCompletion, true) => Whole
      case Ask(BeginBoundedDispatch, true) => Whole
      case _ => Held(t.past)
  }

  /** The answer tells the worker that somebody else owns the operation. */
  predicate IsRefusal<R>(held: Holding, a: Action<R>) {
    match a
    case ReadStop(stopped) => stopped
    case Ask(FinishReadOnlyOutput, granted) => !granted && held == ReadOnly
    case Ask(_, granted) => !granted && held == Nothing
    case _ => false
  }

  predicate Refused<R>(t: Trace<R>) {
    t.Then? && (Refused(t.past) || IsRefusal(Held(t.past), t.action))
  }

  /** Some request was granted although the worker had already been refused. */
  predicate GrantedAfterRefusal<R>(t: Trace<R>) {
    t.Then? && (GrantedAfterRefusal(t.past) || (Refused(t.past) && t.action.Ask? && t.action.granted))
  }

  /** `late` continues `early`, and nothing the worker asked for in between was granted. */
  ghost predicate RefusedSince<R>(early: Trace<R>, late: Trace<R>) {
    early == late || (late.Then? && RefusedSince(early, late.past) && !(late.action.Ask? && late.action.granted))
  }

  /** Every mutation leaves directly after its own admission and every read after its own; a read may be
      repeated once, at once; and a progress line is written at most once for a read. */
  predicate Fenced<R>(t: Trace<R>) {
    t.Then? ==>
      && Fenced(t.past)
      && (t.action.Send? ==> t.past.Then? && IsAdmission(t.past.action))
      && (t.action.Get? ==> t.past.Then? && MayRead(t.past.action, t.action.again))
      && (IsLine(t.action) ==> Owed(t.past))
  }

  predicate MayRead<R>(last: Action<R>, again: bool) {
    if again then last.Get? && !last.again else IsReadAdmission(last)
  }

  /** Everything a proof about one worker needs to know of its trace. */
  datatype View<R> = View(
    held: Holding, refused: bool, admissions: nat, written: R, timed: bool, fenced: bool, owed: bool,
    last: Option<Action<R>>)

  function ViewOf<R>(t: Trace<R>, recovery: R): View<R> {
    View(Held(t), Refused(t), Admissions(t), Written(t, recovery), Timed(t), Fenced(t), Owed(t),
         if t.Idle? then None else Some(t.action))
  }

  predicate JustAdmitted<R>(v: View<R>) {
    v.last.Some? && IsAdmission(v.last.value)
  }

  predicate JustAdmittedRead<R>(v: View<R>) {
    v.last.Some? && IsReadAdmission(v.last.value)
  }

  function Advance<R>(v: View<R>, a: Action<R>): View<R> {
    View(
      match a
      case Ask(BeginReadOnlyOutput, true) => ReadOnly
      case Ask(FinishReadOnlyOutput, true) => Whole
      case Ask(BeginCompletion, true) => Whole
      case Ask(BeginBoundedDispatch, true) => Whole
      case _ => v.held,
      v.refused || IsRefusal(v.held, a),
      v.admissions + if IsAdmission(a) then 1 else 0,
      match a
      case Ask(UpdateRecovery(r), true) => r
      case Ask(BeginDispatchWithRecovery(r), true) => r
      case _ => v.written,
      v.timed || a.StartTimer?,
      && v.fenced
      && (a.Send? ==> JustAdmitted(v))
      && (a.Get? ==> v.last.Some? && MayRead(v.last.value, a.again))
      && (IsLine(a) ==> v.owed),
      IsReadAdmission(a) || (v.owed && !IsLine(a)),
      Some(a))
  }

  lemma {:induction false} ViewAdvances<R>(t: Trace<R>, recovery: R, a: Action<R>)
    ensures ViewOf(Then(t, a), recovery) == Advance(ViewOf(t, recovery), a)
  {
  }

  // ---- The system ----

  datatype Cause = Interrupt(code: int) | Timeout

  datatype Speaker = Handler(cause: Cause) | Worker(result: Result)

  datatype Supervisor<R> =
    | Selecting
    | Claiming(claimant: Cause)
    | Handling(cause: Cause, snapshot: Snapshot<R>)
    | Joining
    | Returned(speaker: Speaker)

  /** A won claim and what the worker had done when the owner was written. */
  datatype Victory<R> = Victory(cause: Cause, at: Trace<R>)

  datatype Program<!L, !R> = Program(start: L, next: (L, Action<R>, L) -> bool)

  datatype Timer = NoTimer | Deferred | Immediate

  /** `joins` is the supervisor that lets the worker finish before it reports a won claim. */
  datatype Config = Config(timer: Timer, joins: bool)

  datatype System<L, R> = System(
    local: L,
    trace: Trace<R>,
    done: Option<Result>,
    control: State<R>,
    stop: bool,
    supervisor: Supervisor<R>,
    claim: Option<Victory<R>>)

  predicate Locked<L, R>(s: System<L, R>) {
    s.supervisor.Claiming?
  }

  predicate Armed<R>(cfg: Config, t: Trace<R>) {
    cfg.timer == Immediate || (cfg.timer == Deferred && Timed(t))
  }

  function Initial<L, R>(p: Program<L, R>, recovery: R): System<L, R> {
    System(p.start, Idle, None, State(Active, false, recovery), false, Selecting, None)
  }

  /** Whether the shared state gives the worker this answer now. */
  ghost predicate Answers<L, R>(s: System<L, R>, a: Action<R>) {
    match a
    case Ask(op, granted) => !Locked(s) && granted == Grants(s.control, op)
    case ReadStop(stopped) => stopped == s.stop
    case ReadRecovery(r) => !Locked(s) && r == s.control.recovery
    case ReadDispatched(d) => !Locked(s) && d == s.control.dispatched
    case _ => true
  }

  ghost predicate WorkerStep<L, R>(p: Program<L, R>, s: System<L, R>, a: Action<R>, s': System<L, R>) {
    && s.done.None?
    && p.next(s.local, a, s'.local)
    && Answers(s, a)
    && s' == s.(
         local := s'.local,
         trace := Then(s.trace, a),
         control := if a.Ask? then After(s.control, a.op) else s.control,
         done := if a.Finish? then Some(a.result) else None)
  }

  /** The thread may also die; the join then yields an error. */
  ghost predicate CrashStep<L, R>(s: System<L, R>, s': System<L, R>) {
    s.done.None? && s' == s.(done := Some(Failed))
  }

  ghost predicate SupervisorStep<L, R>(cfg: Config, s: System<L, R>, s': System<L, R>) {
    match s.supervisor
    case Selecting =>
      || (exists cause :: ClaimStarts(cfg, s, cause, s'))
      || (s.done.Some? && s' == s.(supervisor := Returned(Worker(s.done.value))))
    case Claiming(cause) =>
      s' == s.(stop := true, supervisor := Handling(cause, Snapshot(s.control.dispatched, s.control.recovery)))
    case Handling(cause, _) =>
      if cfg.joins then
        && s.done.Some?
        && s' == s.(supervisor := Returned(if s.done.value.Failed? then Worker(Failed) else Handler(cause)))
      else
        s' == s.(supervisor := Returned(Handler(cause)))
    case Joining =>
      s.done.Some? && s' == s.(supervisor := Returned(Worker(s.done.value)))
    case Returned(_) => false
  }

  /** A signal or the timer fires: the owner is written under the mutex, or the claim fails. */
  ghost predicate ClaimStarts<L, R>(cfg: Config, s: System<L, R>, cause: Cause, s': System<L, R>) {
    && (cause.Timeout? ==> Armed(cfg, s.trace))
    && s' == if Claimable(s.control)
             then s.(control := Claim(s.control), supervisor := Claiming(cause), claim := Some(Victory(cause, s.trace)))
             else s.(supervisor := Joining)
  }

  ghost predicate Step<L, R>(p: Program<L, R>, cfg: Config, s: System<L, R>, s': System<L, R>) {
    || (s'.trace.Then? && WorkerStep(p, s, s'.trace.action, s'))
    || CrashStep(s, s')
    || SupervisorStep(cfg, s, s')
  }

  ghost predicate IsRun<L, R>(p: Program<L, R>, cfg: Config, recovery: R, run: seq<System<L, R>>) {
    && |run| > 0
    && run[0] == Initial(p, recovery)
    && forall i :: 0 <= i < |run| - 1 ==> Step(p, cfg, run[i], run[i + 1])
  }

  // ---- What every step keeps ----

  /** The owner is what the worker was granted, unless a stop took it. */
  function OwnerFor(held: Holding): Owner {
    match held
    case Nothing => Active
    case ReadOnly => ReadOnlyOutput
    case Whole => Completion
  }

  ghost predicate ControlFollowsTrace<L, R>(recovery: R, s: System<L, R>) {
    && s.control.dispatched == (Admissions(s.trace) > 0)
    && s.control.recovery == Written(s.trace, recovery)
    && s.control.owner == (if s.claim.Some? then Signal else OwnerFor(Held(s.trace)))
    && (Refused(s.trace) ==> s.claim.Some?)
    && !GrantedAfterRefusal(s.trace)
  }

  /** The lock-free flag never runs ahead of the owner and agrees with it whenever the mutex is free. */
  ghost predicate FlagIsDerived<L, R>(s: System<L, R>) {
    && (s.stop ==> s.control.owner == Signal)
    && (!Locked(s) ==> (s.stop <==> s.control.owner == Signal))
  }

  /** A won claim freezes everything the worker could still change through the control. */
  ghost predicate ClaimFreezes<L, R>(cfg: Config, recovery: R, s: System<L, R>) {
    s.claim.Some? ==>
      var at := s.claim.value.at;
      && RefusedSince(at, s.trace)
      && Held(s.trace) == Held(at) != Whole
      && Admissions(s.trace) == Admissions(at)
      && Written(s.trace, recovery) == Written(at, recovery)
      && (s.claim.value.cause.Timeout? ==> Armed(cfg, at))
  }

  ghost predicate PhasesAgree<L, R>(cfg: Config, recovery: R, s: System<L, R>) {
    match s.supervisor
    case Selecting => s.claim.None?
    case Claiming(cause) => s.claim.Some? && s.claim.value.cause == cause && !s.stop
    case Handling(cause, snapshot) =>
      && s.claim.Some? && s.claim.value.cause == cause
      && snapshot == Snapshot(Admissions(s.trace) > 0, Written(s.trace, recovery))
    case Joining => s.claim.None? && Held(s.trace) == Whole
    case Returned(Handler(cause)) =>
      s.claim.Some? && s.claim.value.cause == cause && (cfg.joins ==> s.done.Some? && !s.done.value.Failed?)
    case Returned(Worker(result)) => s.done == Some(result) && (s.claim.Some? ==> cfg.joins && result.Failed?)
  }

  ghost predicate ResultIsLast<L, R>(s: System<L, R>) {
    s.done.Some? && !s.done.value.Failed? ==> s.trace.Then? && s.trace.action == Finish(s.done.value)
  }

  ghost predicate Sound<L, R>(cfg: Config, recovery: R, s: System<L, R>) {
    && ControlFollowsTrace(recovery, s)
    && FlagIsDerived(s)
    && ClaimFreezes(cfg, recovery, s)
    && PhasesAgree(cfg, recovery, s)
    && ResultIsLast(s)
  }

  lemma {:induction false} WorkerKeepsSound<L, R>(
      p: Program<L, R>, cfg: Config, recovery: R, s: System<L, R>, a: Action<R>, s': System<L, R>)
    requires Sound(cfg, recovery, s) && WorkerStep(p, s, a, s')
    ensures Sound(cfg, recovery, s')
  {
  }

  lemma {:induction false} SupervisorKeepsSound<L, R>(cfg: Config, recovery: R, s: System<L, R>, s': System<L, R>)
    requires Sound(cfg, recovery, s) && SupervisorStep(cfg, s, s')
    ensures Sound(cfg, recovery, s')
  {
  }

  lemma {:induction false} EveryRunIsSound<L, R>(
      p: Program<L, R>, cfg: Config, recovery: R, run: seq<System<L, R>>, i: nat)
    requires IsRun(p, cfg, recovery, run) && i < |run|
    ensures Sound(cfg, recovery, run[i])
  {
    if i > 0 {
      EveryRunIsSound(p, cfg, recovery, run, i - 1);
      var s, s' := run[i - 1], run[i];
      assert Step(p, cfg, run[i - 1], run[i - 1 + 1]);
      if s'.trace.Then? && WorkerStep(p, s, s'.trace.action, s') {
        WorkerKeepsSound(p, cfg, recovery, s, s'.trace.action, s');
      } else if !CrashStep(s, s') {
        SupervisorKeepsSound(cfg, recovery, s, s');
      }
    }
  }

  lemma {:induction false} TraceGrows<L, R>(p: Program<L, R>, cfg: Config, recovery: R, run: seq<System<L, R>>, i: nat)
    requires IsRun(p, cfg, recovery, run) && 0 < i < |run|
    ensures run[i].trace == run[i - 1].trace || (run[i].trace.Then? && run[i].trace.past == run[i - 1].trace)
  {
    assert Step(p, cfg, run[i - 1], run[i - 1 + 1]);
  }

  /** The stop flag is read without the mutex and may be stale, but only in one direction and only while a
      claim is being stored; and once the owner is written nothing is granted, whatever the flag said. */
  lemma {:induction false} StaleFlagGrantsNothing<L, R>(
      p: Program<L, R>, cfg: Config, recovery: R, run: seq<System<L, R>>, i: nat)
    requires IsRun(p, cfg, recovery, run) && i + 1 < |run|
    ensures FlagIsDerived(run[i])
    ensures run[i].control.owner == Signal && !run[i].stop ==> run[i].supervisor.Claiming?
    ensures run[i].control.owner == Signal && run[i + 1].trace != run[i].trace && run[i + 1].trace.action.Ask? ==>
              !run[i + 1].trace.action.granted
  {
    EveryRunIsSound(p, cfg, recovery, run, i);
    assert Step(p, cfg, run[i], run[i + 1]);
  }

  // ---- What is granted ----

  /** A question is answered with yes exactly when the worker has been granted what it needs for it and no
      stop has won: output can be finished once it is open, dispatch that owns the operation can be repeated
      as often as it is asked for, and everything else needs an operation that nobody owns. */
  lemma {:induction false} GrantedExactlyWhen<L, R>(
      p: Program<L, R>, cfg: Config, recovery: R, run: seq<System<L, R>>, i: nat, op: Op<R>, granted: bool)
    requires IsRun(p, cfg, recovery, run) && i + 1 < |run|
    requires run[i + 1].trace == Then(run[i].trace, Ask(op, granted))
    ensures var t, free := run[i].trace, run[i].claim.None?;
            granted <==>
              match op
              case FinishReadOnlyOutput => Held(t) == ReadOnly && free
              case BeginBoundedDispatch => (Held(t) == Nothing && free) || (Held(t) == Whole && Admissions(t) > 0)
              case _ => Held(t) == Nothing && free
  {
    EveryRunIsSound(p, cfg, recovery, run, i);
    assert Step(p, cfg, run[i], run[i + 1]);
    assert run[i].trace < run[i + 1].trace;
  }

  predicate IsBounded<R>(a: Action<R>) {
    a.Ask? && a.op.BeginBoundedDispatch?
  }

  predicate BoundedGranted<R>(t: Trace<R>) {
    t.Then? && (BoundedGranted(t.past) || (IsBounded(t.action) && t.action.granted))
  }

  /** Once a bounded dispatch was granted every later one is; and from a completion that nothing was
      dispatched for, none is. */
  predicate BoundedFits<R>(t: Trace<R>) {
    t.Then? ==>
      && BoundedFits(t.past)
      && (IsBounded(t.action) && BoundedGranted(t.past) ==> t.action.granted)
      && (IsBounded(t.action) && Held(t.past) == Whole && Admissions(t.past) == 0 ==> !t.action.granted)
  }

  lemma {:induction false} BoundedDispatchStays<L, R>(
      p: Program<L, R>, cfg: Config, recovery: R, run: seq<System<L, R>>, i: nat)
    requires IsRun(p, cfg, recovery, run) && i < |run|
    ensures BoundedFits(run[i].trace)
    ensures BoundedGranted(run[i].trace) ==> run[i].control.owner == Completion && run[i].control.dispatched
  {
    if i > 0 {
      BoundedDispatchStays(p, cfg, recovery, run, i - 1);
      EveryRunIsSound(p, cfg, recovery, run, i - 1);
      EveryRunIsSound(p, cfg, recovery, run, i);
      assert Step(p, cfg, run[i - 1], run[i - 1 + 1]);
    }
  }

  // ---- Ownership settles once ----

  lemma {:induction false} OwnershipSettlesOnce<L, R>(
      p: Program<L, R>, cfg: Config, recovery: R, run: seq<System<L, R>>, i: nat, j: nat)
    requires IsRun(p, cfg, recovery, run) && i <= j < |run|
    ensures Settled(run[i].control) ==> run[j].control == run[i].control && run[j].claim == run[i].claim
    decreases j
  {
    if i < j {
      OwnershipSettlesOnce(p, cfg, recovery, run, i, j - 1);
      EveryRunIsSound(p, cfg, recovery, run, j - 1);
      assert Step(p, cfg, run[j - 1], run[j - 1 + 1]);
    }
  }

  // ---- Programs that keep the worker's side of the bargain ----

  /** What a well-behaved worker may do next: print the result only when it was granted the output,
      return a result only after completing, and return the placeholder only when it was refused. */
  predicate Permitted<R>(v: View<R>, a: Action<R>) {
    match a
    case Print(Terminal) => v.held != Nothing
    case Finish(Completed(_)) => v.held == Whole
    case Finish(Placeholder) => v.refused
    case _ => true
  }

  /** The answers the control can give to a worker with this past. */
  ghost predicate Truthful<R>(v: View<R>, a: Action<R>) {
    match a
    case Ask(_, granted) => granted ==> !v.refused
    case ReadRecovery(r) => r == v.written
    case ReadDispatched(d) => d == (v.admissions > 0)
    case _ => true
  }

  /** A local proof outline: `inv` holds of the worker alone, whatever truthful answers it gets. */
  ghost predicate Conforms<L(!new), R(!new)>(p: Program<L, R>, recovery: R, inv: (L, Trace<R>) -> bool) {
    && inv(p.start, Idle)
    && forall l, t, a, l' :: inv(l, t) && p.next(l, a, l') && Truthful(ViewOf(t, recovery), a) ==>
         Permitted(ViewOf(t, recovery), a) && inv(l', Then(t, a))
  }

  ghost predicate Disciplined<R>(t: Trace<R>, recovery: R) {
    t.Then? ==> Disciplined(t.past, recovery) && Permitted(ViewOf(t.past, recovery), t.action)
  }

  lemma {:induction false} AnswersAreTruthful<L, R>(cfg: Config, recovery: R, s: System<L, R>, a: Action<R>)
    requires Sound(cfg, recovery, s) && Answers(s, a)
    ensures Truthful(ViewOf(s.trace, recovery), a)
  {
  }

  /** A local proof outline holds in every interleaving. */
  lemma {:induction false} LocalProofHolds<L(!new), R(!new)>(
      p: Program<L, R>, cfg: Config, recovery: R, inv: (L, Trace<R>) -> bool, run: seq<System<L, R>>, i: nat)
    requires Conforms(p, recovery, inv) && IsRun(p, cfg, recovery, run) && i < |run|
    ensures inv(run[i].local, run[i].trace) && Disciplined(run[i].trace, recovery)
  {
    if i > 0 {
      LocalProofHolds(p, cfg, recovery, inv, run, i - 1);
      EveryRunIsSound(p, cfg, recovery, run, i - 1);
      var s, s' := run[i - 1], run[i];
      assert Step(p, cfg, run[i - 1], run[i - 1 + 1]);
      if s'.trace.Then? && WorkerStep(p, s, s'.trace.action, s') {
        AnswersAreTruthful(cfg, recovery, s, s'.trace.action);
      }
    }
  }

  lemma {:induction false} PrintedOnlyWhenHeld<R>(t: Trace<R>, recovery: R)
    requires Disciplined(t, recovery)
    ensures Printed(t) ==> Held(t) != Nothing
  {
    if t.Then? { PrintedOnlyWhenHeld(t.past, recovery); }
  }

  /** At most one party speaks, and the status that is returned is the speaker's own.
      - If the handler speaks, the worker never completes and printed at most abandoned read-only output.
      - If the worker's status is returned, it is a real one; it meets a won claim exactly when the
        supervisor joins a worker that failed. */
  lemma {:induction false} OneSpeaker<L(!new), R(!new)>(
      p: Program<L, R>, cfg: Config, recovery: R, inv: (L, Trace<R>) -> bool, run: seq<System<L, R>>, i: nat)
    requires Conforms(p, recovery, inv) && IsRun(p, cfg, recovery, run) && i < |run| && run[i].supervisor.Returned?
    ensures var s := run[i]; match s.supervisor.speaker
            case Handler(cause) =>
              && s.claim.Some? && s.claim.value.cause == cause
              && Held(s.trace) != Whole
              && (Printed(s.trace) ==> Held(s.trace) == ReadOnly)
            case Worker(result) =>
              && s.done == Some(result) && result != Placeholder
              && (s.claim.Some? ==> cfg.joins && result == Failed)
              && (result.Completed? ==> Held(s.trace) == Whole)
    ensures run[i].claim.Some? ==> (run[i].supervisor.speaker.Worker? <==> cfg.joins && run[i].done == Some(Failed))
  {
    EveryRunIsSound(p, cfg, recovery, run, i);
    LocalProofHolds(p, cfg, recovery, inv, run, i);
    PrintedOnlyWhenHeld(run[i].trace, recovery);
  }

  // ---- The dispatch fence ----

  lemma {:induction false} FencedSendsWereAdmitted<R>(t: Trace<R>)
    requires Fenced(t)
    ensures Sends(t) <= Admissions(t)
    ensures t.Then? && IsAdmission(t.action) ==> Sends(t) < Admissions(t)
  {
    if t.Then? { FencedSendsWereAdmitted(t.past); }
  }

  /** How many requests of a kind the last action still allows without another grant. */
  function SendsLeft<R>(t: Trace<R>): nat {
    if t.Then? && IsAdmission(t.action) then 1 else 0
  }

  function ReadsLeft<R>(t: Trace<R>): nat {
    if t.Then? && IsReadAdmission(t.action) then 1 else 0
  }

  function GetsLeft<R>(t: Trace<R>): nat {
    if t.Then? && IsReadAdmission(t.action) then 2 else if t.Then? && t.action.Get? && !t.action.again then 1 else 0
  }

  function LinesLeft<R>(t: Trace<R>): nat {
    if Owed(t) then 1 else 0
  }

  /** Without another grant a fenced worker lets out what its last grant still allows, and no more. */
  lemma {:induction false} LateRequests<R>(at: Trace<R>, t: Trace<R>)
    requires Fenced(t) && RefusedSince(at, t)
    ensures Sends(at) <= Sends(t) && Sends(t) + SendsLeft(t) <= Sends(at) + SendsLeft(at)
    ensures Reads(at) <= Reads(t) && Reads(t) + ReadsLeft(t) <= Reads(at) + ReadsLeft(at)
    ensures Gets(at) <= Gets(t) && Gets(t) + GetsLeft(t) <= Gets(at) + GetsLeft(at)
    ensures Lines(at) <= Lines(t) && Lines(t) + LinesLeft(t) <= Lines(at) + LinesLeft(at)
  {
    if at != t { LateRequests(at, t.past); }
  }

  /** What can still leave after the worker's last grant, at `at`. */
  ghost predicate FencedAfter<R>(at: Trace<R>, t: Trace<R>) {
    && Admissions(t) == Admissions(at)
    && Sends(t) + Reads(t) <= Sends(at) + Reads(at) + 1
    && Gets(t) <= Gets(at) + 2
    && Lines(t) <= Lines(at) + 1
  }

  /** What a stop reports about dispatch is true of the whole run: the snapshot says `dispatched`
      exactly when an attempt had been admitted, and no attempt is admitted later. A fenced worker lets
      out at most the one mutation or the one read it had been granted just before; the read may be two
      requests, because it is repeated after a credential refresh, and one progress line may follow. */
  lemma {:induction false} SnapshotTellsTheTruth<L, R>(
      p: Program<L, R>, cfg: Config, recovery: R, run: seq<System<L, R>>, i: nat, j: nat)
    requires IsRun(p, cfg, recovery, run) && i <= j < |run|
    requires run[i].supervisor.Handling?
    requires Fenced(run[j].trace)
    ensures run[j].claim == run[i].claim && run[i].claim.Some?
    ensures var at, snapshot := run[i].claim.value.at, run[i].supervisor.snapshot;
            && (snapshot.dispatched <==> Admissions(at) > 0)
            && snapshot.recovery == Written(at, recovery)
            && FencedAfter(at, run[j].trace)
            && (!snapshot.dispatched ==> Sends(run[j].trace) == 0)
  {
    OwnershipSettlesOnce(p, cfg, recovery, run, i, j);
    EveryRunIsSound(p, cfg, recovery, run, i);
    EveryRunIsSound(p, cfg, recovery, run, j);
    FencedSendsWereAdmitted(run[j].trace);
    LateRequests(run[i].claim.value.at, run[j].trace);
  }

  // ---- The timer ----

  /** If the worker starts the timer only once a recovery value is `accepted`, a timeout handler
      is only ever given an accepted value. */
  lemma {:induction false} TimeoutSeesAccepted<L(!new), R(!new)>(
      p: Program<L, R>, recovery: R, joins: bool, inv: (L, Trace<R>) -> bool, accepted: R -> bool,
      run: seq<System<L, R>>, i: nat)
    requires Conforms(p, recovery, inv) && IsRun(p, Config(Deferred, joins), recovery, run) && i < |run|
    requires forall l, t :: inv(l, t) && Timed(t) ==> accepted(Written(t, recovery))
    requires run[i].supervisor.Handling? && run[i].supervisor.cause.Timeout?
    ensures accepted(run[i].supervisor.snapshot.recovery)
  {
    EveryRunIsSound(p, Config(Deferred, joins), recovery, run, i);
    LocalProofHolds(p, Config(Deferred, joins), recovery, inv, run, i);
    StillTimed(run[i].claim.value.at, run[i].trace);
  }

  lemma {:induction false} StillTimed<R>(at: Trace<R>, t: Trace<R>)
    requires RefusedSince(at, t) && Timed(at)
    ensures Timed(t)
  {
    if at != t { StillTimed(at, t.past); }
  }

  // ---- Building runs, to show what can happen ----

  function Acted<L, R>(s: System<L, R>, a: Action<R>, l': L): System<L, R> {
    s.(local := l', trace := Then(s.trace, a),
       control := if a.Ask? then After(s.control, a.op) else s.control,
       done := if a.Finish? then Some(a.result) else None)
  }

  /** Nothing has been decided yet. */
  ghost predicate IsOpen<L, R>(s: System<L, R>) {
    s.done.None? && s.supervisor.Selecting? && s.control.owner == Active && !s.stop && s.claim.None?
  }

  ghost predicate LineAfterStop<L, R>(s: System<L, R>) {
    s.claim.Some? && Lines(s.trace) > Lines(s.claim.value.at)
  }

  /** How many read requests, and how many mutations, left after the claim was won. */
  ghost function GetsAfterStop<L, R>(s: System<L, R>): int {
    if s.claim.None? then 0 else Gets(s.trace) - Gets(s.claim.value.at)
  }

  ghost function SendsAfterStop<L, R>(s: System<L, R>): int {
    if s.claim.None? then 0 else Sends(s.trace) - Sends(s.claim.value.at)
  }

  lemma {:induction false} ReadsAreRequests<R>(t: Trace<R>)
    ensures Reads(t) <= Gets(t)
  {
    if t.Then? { ReadsAreRequests(t.past); }
  }

  /** Between nothing and two read requests follow a stop; at most one if none is ever repeated. */
  lemma {:induction false} LateReadsAreBounded<L, R>(cfg: Config, recovery: R, s: System<L, R>)
    requires Sound(cfg, recovery, s) && Fenced(s.trace)
    ensures 0 <= GetsAfterStop(s) <= 2
    ensures Gets(s.trace) == Reads(s.trace) ==> GetsAfterStop(s) <= 1
    ensures Gets(s.trace) == 0 ==> GetsAfterStop(s) == 0
  {
    if s.claim.Some? {
      LateRequests(s.claim.value.at, s.trace);
      ReadsAreRequests(s.claim.value.at);
    }
  }

  /** An interrupt that wins and is reported at once. */
  function Interrupted<L, R>(s: System<L, R>, code: int): seq<System<L, R>> {
    var struck := s.(control := s.control.(owner := Signal), supervisor := Claiming(Interrupt(code)),
                     claim := Some(Victory(Interrupt(code), s.trace)));
    var snapshot := Snapshot(s.control.dispatched, s.control.recovery);
    var stored := struck.(stop := true, supervisor := Handling(Interrupt(code), snapshot));
    [struck, stored, stored.(supervisor := Returned(Handler(Interrupt(code))))]
  }

  lemma ExtendByAction<L, R>(
      p: Program<L, R>, cfg: Config, recovery: R, run: seq<System<L, R>>, a: Action<R>, l': L)
    returns (longer: seq<System<L, R>>)
    requires IsRun(p, cfg, recovery, run)
    requires var s := run[|run| - 1]; s.done.None? && p.next(s.local, a, l') && Answers(s, a)
    ensures IsRun(p, cfg, recovery, longer) && |longer| == |run| + 1 && run < longer
    ensures longer[|run|] == Acted(run[|run| - 1], a, l')
  {
    longer := run + [Acted(run[|run| - 1], a, l')];
    assert Step(p, cfg, longer[|run| - 1], longer[|run|]);
  }

  /** An answered action that settles nothing leaves everything open. */
  lemma ExtendOpen<L, R>(p: Program<L, R>, cfg: Config, recovery: R, run: seq<System<L, R>>, a: Action<R>, l': L)
      returns (longer: seq<System<L, R>>)
    requires IsRun(p, cfg, recovery, run)
    requires var s := run[|run| - 1]; IsOpen(s) && p.next(s.local, a, l') && Answers(s, a)
    requires !a.Finish? && (a.Ask? ==> Grant(run[|run| - 1].control, a.op).owner == Active)
    ensures IsRun(p, cfg, recovery, longer)
    ensures longer[|longer| - 1] == Acted(run[|run| - 1], a, l') && IsOpen(longer[|longer| - 1])
  {
    longer := ExtendByAction(p, cfg, recovery, run, a, l');
  }

  lemma ExtendByInterrupt<L, R>(
      p: Program<L, R>, cfg: Config, recovery: R, run: seq<System<L, R>>, code: int)
    returns (longer: seq<System<L, R>>)
    requires IsRun(p, cfg, recovery, run) && !cfg.joins
    requires var s := run[|run| - 1]; s.supervisor.Selecting? && Claimable(s.control)
    ensures IsRun(p, cfg, recovery, longer) && longer == run + Interrupted(run[|run| - 1], code)
  {
    var s := run[|run| - 1];
    var tail := Interrupted(s, code);
    longer := run + tail;
    assert ClaimStarts(cfg, s, Interrupt(code), tail[0]);
    assert Step(p, cfg, longer[|run| - 1], longer[|run|]);
    assert Step(p, cfg, longer[|run|], longer[|run| + 1]);
    assert Step(p, cfg, longer[|run| + 1], longer[|run| + 2]);
  }

  /** A worker that is done has its result returned, if nobody else claimed the operation. */
  lemma ExtendByReturn<L, R>(p: Program<L, R>, cfg: Config, recovery: R, run: seq<System<L, R>>)
    returns (longer: seq<System<L, R>>)
    requires IsRun(p, cfg, recovery, run)
    requires var s := run[|run| - 1]; s.done.Some? && (s.supervisor.Selecting? || s.supervisor.Joining?)
    ensures IsRun(p, cfg, recovery, longer)
    ensures longer == run + [run[|run| - 1].(supervisor := Returned(Worker(run[|run| - 1].done.value)))]
  {
    var s := run[|run| - 1];
    longer := run + [s.(supervisor := Returned(Worker(s.done.value)))];
    assert Step(p, cfg, longer[|run| - 1], longer[|run|]);
  }

  /** A timeout needs a timer, and a deferred one only fires once the worker has started it ... */
  lemma {:induction false} TimeoutNeedsATimer<L, R>(
      p: Program<L, R>, cfg: Config, recovery: R, run: seq<System<L, R>>, i: nat)
    requires IsRun(p, cfg, recovery, run) && i < |run| && run[i].claim.Some? && run[i].claim.value.cause.Timeout?
    ensures cfg.timer.Immediate? || (cfg.timer.Deferred? && Timed(run[i].claim.value.at))
  {
    EveryRunIsSound(p, cfg, recovery, run, i);
  }

  /** ... and then it can, as long as nobody owns the operation. */
  lemma TimerCanFire<L, R>(p: Program<L, R>, cfg: Config, recovery: R, run: seq<System<L, R>>)
    returns (longer: seq<System<L, R>>)
    requires IsRun(p, cfg, recovery, run) && !cfg.joins
    requires var s := run[|run| - 1];
             && s.supervisor.Selecting? && Claimable(s.control)
             && (cfg.timer.Immediate? || (cfg.timer.Deferred? && Timed(s.trace)))
    ensures IsRun(p, cfg, recovery, longer) && run < longer
    ensures longer[|longer| - 1].supervisor == Returned(Handler(Timeout))
  {
    var s := run[|run| - 1];
    var struck := s.(control := Claim(s.control), supervisor := Claiming(Timeout),
                     claim := Some(Victory(Timeout, s.trace)));
    var snapshot := Snapshot(s.control.dispatched, s.control.recovery);
    var stored := struck.(stop := true, supervisor := Handling(Timeout, snapshot));
    longer := run + [struck, stored, stored.(supervisor := Returned(Handler(Timeout)))];
    assert ClaimStarts(cfg, s, Timeout, struck);
    assert Step(p, cfg, longer[|run| - 1], longer[|run|]);
    assert Step(p, cfg, longer[|run|], longer[|run| + 1]);
    assert Step(p, cfg, longer[|run| + 1], longer[|run| + 2]);
  }

  /** Any command under a joining supervisor has a run that returns the worker's error although the
      interrupt won. */
  lemma JoinedErrorIsReturned<L, R>(
      p: Program<L, R>, timer: Timer, recovery: R, code: int)
    returns (run: seq<System<L, R>>)
    ensures IsRun(p, Config(timer, true), recovery, run)
    ensures var s := run[|run| - 1]; s.claim.Some? && s.supervisor == Returned(Worker(Failed))
  {
    var cfg, s := Config(timer, true), Initial(p, recovery);
    var won := Interrupted(s, code);
    var dead := won[1].(done := Some(Failed));
    run := [s, won[0], won[1], dead, dead.(supervisor := Returned(Worker(Failed)))];
    assert ClaimStarts(cfg, s, Interrupt(code), won[0]);
    assert Step(p, cfg, run[0], run[1]) && Step(p, cfg, run[1], run[2]);
    assert Step(p, cfg, run[2], run[3]) && Step(p, cfg, run[3], run[4]);
  }

  // ---- What a worker still does once the stop flag is set ----

  predicate SawClear<R>(a: Action<R>) {
    a.ReadStop? && !a.stopped
  }

  /** Every read leaves directly after the flag was seen clear, and may be repeated once, at once. */
  predicate Watchful<R>(t: Trace<R>) {
    t.Then? ==>
      && Watchful(t.past)
      && (t.action.Get? ==> t.past.Then?)
      && (t.action.Get? && t.action.again ==> t.past.action.Get? && !t.past.action.again)
      && (t.action.Get? && !t.action.again ==> SawClear(t.past.action))
  }

  /** `late` continues `early` without the worker seeing the flag clear. */
  ghost predicate FlaggedSince<R>(early: Trace<R>, late: Trace<R>) {
    early == late || (late.Then? && FlaggedSince(early, late.past) && !(late.action.ReadStop? && !late.action.stopped))
  }

  function WatchedReadsLeft<R>(t: Trace<R>): nat {
    if t.Then? && SawClear(t.action) then 1 else 0
  }

  function WatchedGetsLeft<R>(t: Trace<R>): nat {
    if t.Then? && SawClear(t.action) then 2 else if t.Then? && t.action.Get? && !t.action.again then 1 else 0
  }

  lemma {:induction false} AtMostOneLateRead<R>(early: Trace<R>, late: Trace<R>)
    requires Watchful(late) && FlaggedSince(early, late)
    ensures Reads(late) + WatchedReadsLeft(late) <= Reads(early) + WatchedReadsLeft(early)
    ensures Gets(late) + WatchedGetsLeft(late) <= Gets(early) + WatchedGetsLeft(early)
  {
    if early != late { AtMostOneLateRead(early, late.past); }
  }

  lemma {:induction false} FlagStays<L, R>(
      p: Program<L, R>, cfg: Config, recovery: R, run: seq<System<L, R>>, i: nat, j: nat)
    requires IsRun(p, cfg, recovery, run) && i <= j < |run| && run[i].stop
    ensures run[j].stop && FlaggedSince(run[i].trace, run[j].trace)
    decreases j
  {
    if i < j {
      FlagStays(p, cfg, recovery, run, i, j - 1);
      assert Step(p, cfg, run[j - 1], run[j - 1 + 1]);
    }
  }
}
