/** `connection linear authorization create` and `wait`: one dispatch, a pending document, polling. */
module LinearAuthorization {
  import opened Basics
  import opened Ownership
  import opened Supervision
  import opened WorkerParts

  /** The session, once it is known. */
  type Recovery = Option<string>

  /** `human`: the command acts under a human session and not under a service key. */
  datatype Args = Args(noWait: bool, human: bool, key: string, connection: Option<string>)

  datatype Position =
    | Asking
    | Calling(rerun: bool, replay: bool)
    | Called(rerun: bool, replay: bool)
    | RecordingSession(id: string, pending: bool)
    | Checking
    | Announcing
    | Arming
    | Pausing
    | Looking
    | Replied
    | Looked
    | Finishing(ending: Ending)

  /** The dispatch is asked for once. The request is replayed once after a lost response, and under a human
      session all of that is run once more after a credential refresh. An observation of the session, `Get`,
      is repeated after a refresh only. */
  ghost predicate Next(args: Args, l: Position, a: Action<Recovery>, l': Position) {
    match l
    case Asking =>
      a.Ask? && a.op.BeginDispatch? && l' == if a.granted then Calling(false, false) else Finishing(Quitting)
    case Calling(rerun, replay) =>
      || (a == Send(Mutation(args.key, args.connection)) && l' == Called(rerun, replay))
      || (a.Internal? && l' == Finishing(Completing(false)))
      || (a == Finish(Failed) && l' == Finishing(Ended))
    case Called(rerun, replay) =>
      || (a.Internal? && !replay && l' == Calling(rerun, true))
      || (a.Internal? && args.human && !rerun && l' == Calling(true, false))
      || (a.Internal? && (l' == Finishing(Completing(false)) || l'.RecordingSession?))
      || (a == Finish(Failed) && l' == Finishing(Ended))
    case RecordingSession(id, pending) =>
      a.Ask? && a.op == UpdateRecovery(Some(id))
      && l' == if !a.granted then Finishing(Quitting)
               else if args.noWait || !pending then Finishing(Completing(false)) else Checking
    case Checking => a.ReadStop? && l' == if a.stopped then Finishing(Quitting) else Announcing
    case Announcing =>
      || (a == Print(Pending) && l' == Arming)
      || (a == Finish(Failed) && l' == Finishing(Ended))
    case Arming => a.StartTimer? && l' == Pausing
    case Pausing => a.ReadStop? && if a.stopped then l' == Finishing(Quitting) else l' == Pausing || l' == Looking
    case Looking => a == Get(false) && l' == Replied
    case Replied => ((args.human && a == Get(true)) || a.Internal?) && l' == Looked
    case Looked =>
      || (a.Internal? && (l' == Pausing || l' == Finishing(Completing(false))))
      || (a == Finish(Failed) && l' == Finishing(Ended))
    case Finishing(e) => l'.Finishing? && EndNext(e, a, l'.ending)
  }

  ghost function Create(args: Args): Program<Position, Recovery> {
    Program(Asking, (l, a, l') => Next(args, l, a, l'))
  }

  ghost function Wait(args: Args): Program<Position, Recovery> {
    Program(Arming, (l, a, l') => Next(args, l, a, l'))
  }

  function Announcements(t: Trace<Recovery>): nat {
    if t.Idle? then 0 else Announcements(t.past) + if t.action.Print? && t.action.document.Pending? then 1 else 0
  }

  /** How many requests can still leave from a position, once the dispatch was admitted. */
  function RequestsLeft(args: Args, l: Position): nat {
    match l
    case Calling(rerun, replay) => (if replay then 1 else 2) + if args.human && !rerun then 2 else 0
    case Called(rerun, replay) => (if replay then 0 else 1) + if args.human && !rerun then 2 else 0
    case _ => 0
  }

  function RequestLimit(args: Args): nat {
    if args.human then 4 else 2
  }

  ghost predicate Fits(args: Args, l: Position, v: View<Recovery>) {
    && (v.timed ==> v.written.Some?)
    && match l
       case Asking => v.held == Nothing && v.written.None?
       case Calling(_, _) => v.held == Nothing && v.written.None? && v.admissions > 0
       case Called(_, _) => v.held == Nothing && v.written.None? && v.admissions > 0
       case RecordingSession(_, _) => v.held == Nothing
       case Looking => v.held == Nothing && v.written.Some? && !args.noWait && v.last == Some(ReadStop(false))
       case Replied => v.held == Nothing && v.written.Some? && !args.noWait && v.last == Some(Get(false))
       case Finishing(e) => EndFits(e, v)
       case _ => v.held == Nothing && v.written.Some? && !args.noWait
  }

  /** Requests leave only between the admission and the recording of a session, and within the limit. */
  ghost predicate RequestsFit(args: Args, recovery: Recovery, l: Position, t: Trace<Recovery>) {
    && Sends(t) + RequestsLeft(args, l) <= RequestLimit(args)
    && (l.Asking? ==> Sends(t) == 0)
    && (Sends(t) > 0 ==> Admissions(t) > 0)
    && OnlyUnnamed(recovery, t)
    && OnlySends(Mutation(args.key, args.connection), t)
  }

  ghost predicate OnlyUnnamed(recovery: Recovery, t: Trace<Recovery>) {
    t.Then? ==>
      && OnlyUnnamed(recovery, t.past)
      && (t.action.Send? ==> Written(t.past, recovery).None? && Admissions(t.past) > 0)
  }

  /** Nothing is announced or observed without waiting, no observation repeated without a human session. */
  ghost predicate Counted(args: Args, t: Trace<Recovery>) {
    && (args.noWait ==> Announcements(t) == 0 && Gets(t) == 0)
    && (!args.human ==> Gets(t) == Reads(t))
  }

  ghost predicate Inv(args: Args, recovery: Recovery, l: Position, t: Trace<Recovery>) {
    && Fits(args, l, ViewOf(t, recovery))
    && Watchful(t)
    && Counted(args, t)
    && RequestsFit(args, recovery, l, t)
    && (recovery.Some? ==> Written(t, recovery).Some?)
  }

  ghost function Outline(args: Args, recovery: Recovery): (Position, Trace<Recovery>) -> bool {
    (l, t) => Inv(args, recovery, l, t)
  }

  lemma NextKeeps(args: Args, l: Position, v: View<Recovery>, a: Action<Recovery>, l': Position)
    requires Fits(args, l, v) && Next(args, l, a, l') && Truthful(v, a)
    ensures Permitted(v, a) && Fits(args, l', Advance(v, a))
    ensures a.Get? ==> !args.noWait && v.last == Some(if a.again then Get(false) else ReadStop(false))
    ensures IsRepeat(a) ==> args.human
    ensures a == Print(Pending) ==> !args.noWait
    ensures a.Send? ==> v.admissions > 0 && v.written.None? && a.request == Mutation(args.key, args.connection)
    ensures v.written.Some? ==> Advance(v, a).written.Some?
    ensures !l.Asking? ==> RequestsLeft(args, l') + (if a.Send? then 1 else 0) <= RequestsLeft(args, l)
    ensures l.Asking? ==> !a.Send? && RequestsLeft(args, l') <= RequestLimit(args)
    ensures !l'.Asking?
  {
    if l.Finishing? { EndKeepsFit(l.ending, v, a, l'.ending); }
  }

  lemma {:induction false} CountedAdvances(args: Args, t: Trace<Recovery>, a: Action<Recovery>)
    requires Counted(args, t) && (a.Get? || a == Print(Pending) ==> !args.noWait) && (IsRepeat(a) ==> args.human)
    ensures Counted(args, Then(t, a))
  {
  }

  lemma {:induction false} RequestsAdvance(
      args: Args, recovery: Recovery, l: Position, t: Trace<Recovery>, a: Action<Recovery>, l': Position)
    requires RequestsFit(args, recovery, l, t) && !l'.Asking?
    requires a.Send? ==> Written(t, recovery).None? && Admissions(t) > 0
    requires a.Send? ==> a.request == Mutation(args.key, args.connection)
    requires if l.Asking? then !a.Send? && RequestsLeft(args, l') <= RequestLimit(args)
             else RequestsLeft(args, l') + (if a.Send? then 1 else 0) <= RequestsLeft(args, l)
    ensures RequestsFit(args, recovery, l', Then(t, a))
  {
  }

  lemma {:induction false} InvAdvances(
      args: Args, recovery: Recovery, l: Position, t: Trace<Recovery>, a: Action<Recovery>, l': Position)
    requires Inv(args, recovery, l, t) && Next(args, l, a, l') && Truthful(ViewOf(t, recovery), a)
    ensures Permitted(ViewOf(t, recovery), a) && Inv(args, recovery, l', Then(t, a))
  {
    ViewAdvances(t, recovery, a);
    NextKeeps(args, l, ViewOf(t, recovery), a, l');
    CountedAdvances(args, t, a);
    RequestsAdvance(args, recovery, l, t, a, l');
  }

  lemma {:induction false} Conform(args: Args, recovery: Recovery)
    requires recovery.Some? ==> !args.noWait
    ensures Conforms(ProgramFor(args, recovery), recovery, Outline(args, recovery))
  {
    forall l, t, a, l' | Outline(args, recovery)(l, t) && Next(args, l, a, l') && Truthful(ViewOf(t, recovery), a)
      ensures Permitted(ViewOf(t, recovery), a) && Outline(args, recovery)(l', Then(t, a))
    {
      InvAdvances(args, recovery, l, t, a, l');
    }
  }

  const SUPERVISED := Config(Deferred, false)

  /** `authorization create` starts without a session; `authorization wait` is given one, and waits. */
  ghost predicate IsLinearRun(args: Args, recovery: Recovery, run: seq<System<Position, Recovery>>) {
    (recovery.Some? ==> !args.noWait) && IsRun(ProgramFor(args, recovery), SUPERVISED, recovery, run)
  }

  ghost function ProgramFor(args: Args, recovery: Recovery): Program<Position, Recovery> {
    if recovery.None? then Create(args) else Wait(args)
  }

  /** The timeout handler always has a session to name. */
  lemma {:induction false} TimeoutNamesTheSession(
      args: Args, recovery: Recovery, run: seq<System<Position, Recovery>>, i: nat)
    requires IsLinearRun(args, recovery, run) && i < |run|
    requires run[i].supervisor.Handling? && run[i].supervisor.cause.Timeout?
    ensures run[i].supervisor.snapshot.recovery.Some?
  {
    Conform(args, recovery);
    var known := (r: Recovery) => r.Some?;
    TimeoutSeesAccepted(ProgramFor(args, recovery), recovery, false, Outline(args, recovery), known, run, i);
  }

  /** What the handlers write. Only `create` looks at whether anything was dispatched. */
  datatype Statement = Silence | ObservationStopped(session: Option<string>) | WaitTimedOut(session: Option<string>)

  function StopStatement(creating: bool, s: Snapshot<Recovery>, cause: Cause): Statement {
    if cause.Timeout? then WaitTimedOut(s.recovery)
    else if creating && !s.dispatched then Silence
    else ObservationStopped(s.recovery)
  }

  /** A stop is silent exactly when `create` had not been admitted, and then no request ever leaves. The
      session it names is the one that was recorded, and a timeout always has one; but observation is also
      said to have stopped when none was known, exactly when the request was admitted and no session had
      been recorded. */
  lemma {:induction false} StopsAreSaidExactlyWhen(
      args: Args, recovery: Recovery, run: seq<System<Position, Recovery>>, i: nat, j: nat)
    requires IsLinearRun(args, recovery, run) && i <= j < |run| && run[i].supervisor.Handling?
    ensures var t := run[i].trace;
            var said := StopStatement(recovery.None?, run[i].supervisor.snapshot, run[i].supervisor.cause);
            && (said.Silence? <==> run[i].supervisor.cause.Interrupt? && recovery.None? && Admissions(t) == 0)
            && (said.Silence? ==> Sends(run[j].trace) == 0)
            && (!said.Silence? ==> said.session == Written(t, recovery))
            && (said.WaitTimedOut? ==> said.session.Some?)
            && (said == ObservationStopped(None) <==>
                  run[i].supervisor.cause.Interrupt? && Admissions(t) > 0 && Written(t, recovery).None?)
  {
    var p := ProgramFor(args, recovery);
    Conform(args, recovery);
    EveryRunIsSound(p, SUPERVISED, recovery, run, i);
    EveryRunIsSound(p, SUPERVISED, recovery, run, j);
    OwnershipSettlesOnce(p, SUPERVISED, recovery, run, i, j);
    LocalProofHolds(p, SUPERVISED, recovery, Outline(args, recovery), run, i);
    LocalProofHolds(p, SUPERVISED, recovery, Outline(args, recovery), run, j);
    if run[i].supervisor.cause.Timeout? { TimeoutNamesTheSession(args, recovery, run, i); }
  }

  /** Such a run, for any arguments. */
  lemma StoppedBeforeASession(args: Args, code: int) returns (run: seq<System<Position, Recovery>>)
    ensures IsLinearRun(args, None, run) && |run| == 5 && run[3].supervisor.Handling?
    ensures StopStatement(true, run[3].supervisor.snapshot, run[3].supervisor.cause) == ObservationStopped(None)
  {
    run := [Initial(Create(args), None)];
    run := ExtendByAction(Create(args), SUPERVISED, None, run, Ask(BeginDispatch, true), Calling(false, false));
    run := ExtendByInterrupt(Create(args), SUPERVISED, None, run, code);
  }

  lemma {:induction false} EveryStateFits(
      args: Args, recovery: Recovery, run: seq<System<Position, Recovery>>, i: nat)
    requires IsLinearRun(args, recovery, run) && i < |run|
    ensures Sound(SUPERVISED, recovery, run[i]) && Inv(args, recovery, run[i].local, run[i].trace)
    ensures Disciplined(run[i].trace, recovery)
  {
    Conform(args, recovery);
    EveryRunIsSound(ProgramFor(args, recovery), SUPERVISED, recovery, run, i);
    LocalProofHolds(ProgramFor(args, recovery), SUPERVISED, recovery, Outline(args, recovery), run, i);
  }

  // ---- Observations after a stop ----

  /** Once the stop flag is stored at most one more observation of the session starts, which may be two
      requests under a human session; the worker prints no result, and its status is not the one that is
      returned. */
  lemma {:induction false} OneLateObservation(
      args: Args, recovery: Recovery, run: seq<System<Position, Recovery>>, i: nat, j: nat)
    requires IsLinearRun(args, recovery, run) && i <= j < |run| && run[i].stop
    ensures Reads(run[j].trace) <= Reads(run[i].trace) + 1
    ensures Gets(run[j].trace) - Gets(run[i].trace) <= if args.noWait then 0 else if args.human then 2 else 1
    ensures !Printed(run[j].trace)
    ensures run[j].supervisor.Returned? ==> run[j].supervisor.speaker.Handler?
  {
    FlagStays(ProgramFor(args, recovery), SUPERVISED, recovery, run, i, j);
    EveryStateFits(args, recovery, run, i);
    EveryStateFits(args, recovery, run, j);
    PrintedOnlyWhenHeld(run[j].trace, recovery);
    AtMostOneLateRead(run[i].trace, run[j].trace);
  }

  lemma ReachLooking(args: Args, recovery: Recovery) returns (run: seq<System<Position, Recovery>>)
    requires !args.noWait
    ensures IsLinearRun(args, recovery, run)
    ensures IsOpen(run[|run| - 1]) && run[|run| - 1].local == Looking
  {
    var p := ProgramFor(args, recovery);
    if recovery.None? {
      run := AboutToAnnounce(args);
      run := ExtendOpen(p, SUPERVISED, recovery, run, Print(Pending), Arming);
    } else {
      run := [Initial(p, recovery)];
    }
    run := ExtendOpen(p, SUPERVISED, recovery, run, StartTimer, Pausing);
    run := ExtendOpen(p, SUPERVISED, recovery, run, ReadStop(false), Looking);
  }

  /** The bound is met, for `create` and for `wait`: after the handler has answered, and the flag is stored, an
      observation leaves, and under a human session once more. */
  lemma ObservationsFollowTheReport(args: Args, recovery: Recovery)
      returns (run: seq<System<Position, Recovery>>, i: nat)
    requires !args.noWait
    ensures IsLinearRun(args, recovery, run) && i < |run| && run[i].stop && run[i].supervisor.Returned?
    ensures Gets(run[|run| - 1].trace) == Gets(run[i].trace) + if args.human then 2 else 1
  {
    var p := ProgramFor(args, recovery);
    run := ReachLooking(args, recovery);
    run := ExtendByInterrupt(p, SUPERVISED, recovery, run, 130);
    i := |run| - 1;
    ghost var before := run[i].trace;
    run := ExtendByAction(p, SUPERVISED, recovery, run, Get(false), Replied);
    assert Gets(run[|run| - 1].trace) == Gets(before) + 1;
    if args.human {
      run := ExtendByAction(p, SUPERVISED, recovery, run, Get(true), Looked);
    }
  }

  /** The pending document is guarded by the stop flag alone, so it can follow the handler's own
      report. That cannot happen exactly when the command was told not to wait. */
  ghost predicate DocumentAfterStop(s: System<Position, Recovery>) {
    s.claim.Some? && Announcements(s.trace) > Announcements(s.claim.value.at)
  }

  lemma {:induction false} LateDocumentNeedsWaiting(args: Args, run: seq<System<Position, Recovery>>, i: nat)
    requires IsLinearRun(args, None, run) && i < |run| && args.noWait
    ensures !DocumentAfterStop(run[i])
  {
    EveryStateFits(args, None, run, i);
  }

  /** A run that has just read the flag clear, right before the pending document. */
  lemma {:induction false} AboutToAnnounce(args: Args) returns (run: seq<System<Position, Recovery>>)
    requires !args.noWait
    ensures IsLinearRun(args, None, run)
    ensures IsOpen(run[|run| - 1]) && run[|run| - 1].local == Announcing
  {
    var p := Create(args);
    run := [Initial(p, None)];
    run := ExtendOpen(p, SUPERVISED, None, run, Ask(BeginDispatch, true), Calling(false, false));
    run := ExtendOpen(p, SUPERVISED, None, run, Send(Mutation(args.key, args.connection)), Called(false, false));
    run := ExtendOpen(p, SUPERVISED, None, run, Internal, RecordingSession("las", true));
    run := ExtendOpen(p, SUPERVISED, None, run, Ask(UpdateRecovery(Some("las")), true), Checking);
    run := ExtendOpen(p, SUPERVISED, None, run, ReadStop(false), Announcing);
  }

  lemma {:induction false} LateDocumentExactlyWhenWaiting(args: Args)
    ensures args.noWait <==>
              forall run, i: nat :: IsLinearRun(args, None, run) && i < |run| ==> !DocumentAfterStop(run[i])
  {
    if args.noWait {
      forall run, i: nat | IsLinearRun(args, None, run) && i < |run| ensures !DocumentAfterStop(run[i]) {
        LateDocumentNeedsWaiting(args, run, i);
      }
    } else {
      var run := AboutToAnnounce(args);
      run := ExtendByInterrupt(Create(args), SUPERVISED, None, run, 130);
      run := ExtendByAction(Create(args), SUPERVISED, None, run, Print(Pending), Arming);
      assert DocumentAfterStop(run[|run| - 1]);
    }
  }

  // ---- Requests after a stop ----

  lemma {:induction false} RequestsRunOut(args: Args, s: System<Position, Recovery>, s': System<Position, Recovery>)
    requires Step(Create(args), SUPERVISED, s, s') && s.control.owner == Signal
    ensures Sends(s'.trace) + RequestsLeft(args, s'.local) <= Sends(s.trace) + RequestsLeft(args, s.local)
  {
  }

  lemma {:induction false} ClaimStays(args: Args, run: seq<System<Position, Recovery>>, i: nat, j: nat)
    requires IsLinearRun(args, None, run) && i <= j < |run| && run[i].claim.Some?
    ensures run[j].control.owner == Signal
  {
    EveryStateFits(args, None, run, i);
    OwnershipSettlesOnce(Create(args), SUPERVISED, None, run, i, j);
  }

  /** A refused dispatch bars every request. An admitted one is not asked about again: after a stop as many
      requests can still leave as the position in the program has left, and no more ... */
  lemma {:induction false} LateRequestsAreBounded(args: Args, run: seq<System<Position, Recovery>>, i: nat, j: nat)
    requires IsLinearRun(args, None, run) && i <= j < |run| && run[i].claim.Some?
    ensures Sends(run[j].trace) + RequestsLeft(args, run[j].local)
            <= Sends(run[i].trace) + RequestsLeft(args, run[i].local)
    decreases j
  {
    if i < j {
      LateRequestsAreBounded(args, run, i, j - 1);
      ClaimStays(args, run, i, j - 1);
      assert Step(Create(args), SUPERVISED, run[j - 1], run[j - 1 + 1]);
      RequestsRunOut(args, run[j - 1], run[j]);
    }
  }

  /** ... and from every such position all of them can, whatever has happened. */
  lemma AllRequestsLeftCanLeave(args: Args, run: seq<System<Position, Recovery>>)
      returns (longer: seq<System<Position, Recovery>>)
    requires IsLinearRun(args, None, run) && run[|run| - 1].done.None?
    ensures IsLinearRun(args, None, longer) && run <= longer
    ensures var s, s' := run[|run| - 1], longer[|longer| - 1];
            && Sends(s'.trace) == Sends(s.trace) + RequestsLeft(args, s.local)
            && s'.supervisor == s.supervisor && s'.claim == s.claim
    decreases RequestsLeft(args, run[|run| - 1].local), run[|run| - 1].local.Called?
  {
    var p, l, request := Create(args), run[|run| - 1].local, Mutation(args.key, args.connection);
    longer := run;
    if l.Calling? {
      longer := ExtendByAction(p, SUPERVISED, None, run, Send(request), Called(l.rerun, l.replay));
      longer := AllRequestsLeftCanLeave(args, longer);
    } else if l.Called? && RequestsLeft(args, l) > 0 {
      var next := if l.replay then Calling(true, false) else Calling(l.rerun, true);
      longer := ExtendByAction(p, SUPERVISED, None, run, Internal, next);
      longer := AllRequestsLeftCanLeave(args, longer);
    }
  }

  lemma {:induction false} LateRequestsAreUnnamed(recovery: Recovery, at: Trace<Recovery>, t: Trace<Recovery>)
    requires RefusedSince(at, t) && OnlyUnnamed(recovery, t)
    ensures Written(t, recovery) == Written(at, recovery) && Admissions(t) == Admissions(at) && Sends(at) <= Sends(t)
    ensures Sends(at) < Sends(t) ==> Written(at, recovery).None? && Admissions(at) > 0
  {
    if at != t { LateRequestsAreUnnamed(recovery, at, t.past); }
  }

  /** The request, its replay and the rerun of both are one idempotent request: in every state, before and after
      a stop, all that has left is this connection's request under this command's key. */
  lemma {:induction false} OneRequestOnly(
      args: Args, recovery: Recovery, run: seq<System<Position, Recovery>>, i: nat)
    requires IsLinearRun(args, recovery, run) && i < |run|
    ensures OnlySends(Mutation(args.key, args.connection), run[i].trace)
  {
    EveryStateFits(args, recovery, run, i);
  }

  /** No run sends more than four requests under a human session or two under a service key; and one leaves
      after a stop only if the dispatch had been admitted and no session recorded. It is the same request. */
  lemma {:induction false} LateRequestsNeedAnAdmission(
      args: Args, recovery: Recovery, run: seq<System<Position, Recovery>>, i: nat)
    requires IsLinearRun(args, recovery, run) && i < |run|
    ensures Sends(run[i].trace) <= RequestLimit(args)
    ensures SendsAfterStop(run[i]) > 0 ==>
              && Admissions(run[i].claim.value.at) > 0
              && Written(run[i].claim.value.at, recovery).None?
              && OnlySends(Mutation(args.key, args.connection), run[i].trace)
  {
    EveryStateFits(args, recovery, run, i);
    if run[i].claim.Some? { LateRequestsAreUnnamed(recovery, run[i].claim.value.at, run[i].trace); }
  }

  /** The limit is met after the handler's report, for any arguments. */
  lemma {:induction false} RequestsLeaveAfterTheReport(args: Args) returns (run: seq<System<Position, Recovery>>)
    ensures IsLinearRun(args, None, run)
    ensures var s := run[|run| - 1];
            s.supervisor.Returned? && s.claim.Some? && SendsAfterStop(s) == Sends(s.trace) == RequestLimit(args)
  {
    run := [Initial(Create(args), None)];
    run := ExtendByAction(Create(args), SUPERVISED, None, run, Ask(BeginDispatch, true), Calling(false, false));
    run := ExtendByInterrupt(Create(args), SUPERVISED, None, run, 130);
    run := AllRequestsLeftCanLeave(args, run);
  }

  // ---- What the command can do ----

  datatype Point = AtCalling | AtCalled | AtAnnouncing | AtLooked

  lemma Reach(args: Args, point: Point) returns (run: seq<System<Position, Recovery>>)
    requires point.AtAnnouncing? || point.AtLooked? ==> !args.noWait
    ensures IsLinearRun(args, None, run) && IsOpen(run[|run| - 1])
    ensures run[|run| - 1].local == match point
                                    case AtCalling => Calling(false, false)
                                    case AtCalled => Called(false, false)
                                    case AtAnnouncing => Announcing
                                    case AtLooked => Looked
  {
    var p := Create(args);
    match point {
      case AtAnnouncing => run := AboutToAnnounce(args);
      case AtLooked =>
        run := ReachLooking(args, None);
        run := ExtendOpen(p, SUPERVISED, None, run, Get(false), Replied);
        run := ExtendOpen(p, SUPERVISED, None, run, Internal, Looked);
      case _ =>
        run := [Initial(p, None)];
        run := ExtendOpen(p, SUPERVISED, None, run, Ask(BeginDispatch, true), Calling(false, false));
        if point.AtCalled? {
          var request := Mutation(args.key, args.connection);
          run := ExtendOpen(p, SUPERVISED, None, run, Send(request), Called(false, false));
        }
    }
  }

  /** The command can fail at any of these points with an error, which is returned ... */
  lemma ErrorsAreReturned(args: Args, point: Point) returns (run: seq<System<Position, Recovery>>)
    requires point.AtAnnouncing? || point.AtLooked? ==> !args.noWait
    ensures IsLinearRun(args, None, run) && run[|run| - 1].supervisor == Returned(Worker(Failed))
  {
    run := Reach(args, point);
    run := ExtendByAction(Create(args), SUPERVISED, None, run, Finish(Failed), Finishing(Ended));
    run := ExtendByReturn(Create(args), SUPERVISED, None, run);
  }

  /** ... with an outcome to publish, where the service was asked ... */
  lemma OutcomesArePublished(args: Args, point: Point) returns (run: seq<System<Position, Recovery>>)
    requires !point.AtAnnouncing? && (point.AtLooked? ==> !args.noWait)
    ensures IsLinearRun(args, None, run) && IsOpen(run[|run| - 1])
    ensures run[|run| - 1].local == Finishing(Completing(false))
  {
    run := Reach(args, point);
    run := ExtendOpen(Create(args), SUPERVISED, None, run, Internal, Finishing(Completing(false)));
  }

  /** ... and an observation that settles nothing is followed by another one. */
  lemma ObservationIsRepeated(args: Args) returns (run: seq<System<Position, Recovery>>)
    requires !args.noWait
    ensures IsLinearRun(args, None, run) && IsOpen(run[|run| - 1]) && run[|run| - 1].local == Looking
  {
    run := Reach(args, AtLooked);
    run := ExtendOpen(Create(args), SUPERVISED, None, run, Internal, Pausing);
    run := ExtendOpen(Create(args), SUPERVISED, None, run, ReadStop(false), Pausing);
    run := ExtendOpen(Create(args), SUPERVISED, None, run, ReadStop(false), Looking);
  }
}
