/** Commands that send one kind of mutation, record its acceptance and may wait for the outcome:
    `run cancel` and `publication create --wait`; and `publication show --wait`, which only waits. */
module SubmitAndWait {
  import opened Basics
  import opened Ownership
  import opened Supervision
  import opened WorkerParts

  /** `accepted` are the recovery values that stand for an acceptance; once a receipt was recorded,
      observation may record those that `refreshes` relates to it, and may write progress lines. `human`: the
      command acts under a human session and not under a service key. */
  datatype Shape<!R> = Shape(
    request: Request, accepted: R -> bool, refreshes: (R, R) -> bool, wait: bool, mayBeSettled: bool, narrates: bool,
    human: bool)

  datatype Position<R> =
    | Trying(tries: Tries)
    | Admitted(tries: Tries)
    | Sent(tries: Tries)
    | Erred
    | RecordingAcceptance(received: R)
    | StartingTimer(receipt: R)
    | Observing(since: Option<R>, poll: Polling)
    | Finishing(ending: Ending)

  ghost predicate Records<R>(c: Shape<R>, since: Option<R>, r: R) {
    since.Some? && c.refreshes(since.value, r) && c.accepted(r)
  }

  ghost predicate Next<R(!new)>(c: Shape<R>, l: Position<R>, a: Action<R>, l': Position<R>) {
    match l
    case Trying(k) =>
      || (a.ReadRecovery? && l' == l)
      || (a.Ask? && a.op.BeginDispatch? && l' == if a.granted then Admitted(k) else Finishing(Completing(false)))
      || (a.Internal? && (l' == Erred || l' == Finishing(Completing(false))))
    case Admitted(k) => a == Send(c.request) && l' == Sent(k)
    case Sent(k) =>
      a.Internal? && (|| (l'.Trying? && TriesAgain(c.human, k, l'.tries))
                      || l' == Erred || l' == Finishing(Completing(false))
                      || (l'.RecordingAcceptance? && c.accepted(l'.received)))
    case Erred => a.ReadDispatched? && l' == Finishing(Completing(false))
    case RecordingAcceptance(r) =>
      a.Ask? && a.op == UpdateRecovery(r)
      && l' == if !a.granted then Finishing(Quitting)
               else if c.wait then StartingTimer(r) else Finishing(Completing(false))
    case StartingTimer(r) =>
      a.StartTimer? && (|| l' == Observing(Some(r), CheckFirst)
                        || (c.mayBeSettled && l' == Observing(Some(r), Over(TerminalSeen))))
    case Observing(since, q) =>
      if q.Over? then a.Internal? && l' == Finishing(Completing(q.outcome.Stopped?))
      else l'.Observing? && l'.since == since
           && PollNext((r: R) => Records(c, since, r), c.narrates, c.human, q, a, l'.poll)
    case Finishing(e) => l'.Finishing? && EndNext(e, a, l'.ending)
  }

  ghost function Command<R(!new)>(c: Shape<R>): Program<Position<R>, R> {
    Program(Trying(FIRST), (l, a, l') => Next(c, l, a, l'))
  }

  /** Observation alone. */
  ghost function Watch<R(!new)>(c: Shape<R>): Program<Position<R>, R> {
    Program(Observing(None, CheckFirst), (l, a, l') => Next(c, l, a, l'))
  }

  // ---- What happened ----

  /** The receipt that was recorded first, and whether a request left. */
  datatype Facts<R> = Facts(receipt: Option<R>, sent: bool)

  function Learn<R>(f: Facts<R>, a: Action<R>): Facts<R> {
    match a
    case Ask(UpdateRecovery(r), true) => f.(receipt := if f.receipt.Some? then f.receipt else Some(r))
    case Send(_) => f.(sent := true)
    case _ => f
  }

  function FactsOf<R>(t: Trace<R>): Facts<R> {
    if t.Idle? then Facts(None, false) else Learn(FactsOf(t.past), t.action)
  }

  /** The recovery value is the initial one until a receipt is recorded, and then that receipt or a
      refreshed one. */
  ghost predicate Explains<R>(c: Shape<R>, recovery: R, f: Facts<R>, written: R) {
    match f.receipt
    case None => written == recovery
    case Some(r) => c.accepted(r) && c.accepted(written) && (written == r || c.refreshes(r, written))
  }

  ghost predicate Fits<R>(c: Shape<R>, recovery: R, l: Position<R>, f: Facts<R>, v: View<R>) {
    && v.fenced
    && Explains(c, recovery, f, v.written)
    && (v.timed ==> f.receipt.Some?)
    && (f.receipt.Some? ==> v.admissions > 0)
    && (v.admissions > 0 && !f.sent ==> l.Admitted?)
    && match l
       case Trying(_) => v.held == Nothing && f.receipt.None?
       case Admitted(_) => v.held == Nothing && f.receipt.None? && v.admissions > 0 && JustAdmitted(v)
       case Sent(_) => v.held == Nothing && f.receipt.None? && v.admissions > 0
       case Erred => v.held == Nothing
       case RecordingAcceptance(r) => v.held == Nothing && f.receipt.None? && v.admissions > 0 && c.accepted(r)
       case StartingTimer(r) => v.held == Nothing && c.wait && f.receipt == Some(r)
       case Observing(since, q) => PollFits(q, v) && c.wait && f.receipt == since
       case Finishing(e) => EndFits(e, v)
  }

  ghost predicate Inv<R>(c: Shape<R>, recovery: R, l: Position<R>, t: Trace<R>) {
    && Fits(c, recovery, l, FactsOf(t), ViewOf(t, recovery)) && OnlySends(c.request, t)
    && Counted(c, t) && Looked(c, l, t) && AttemptsFit(c, l, t)
  }

  /** How many requests can still leave from a position. */
  function RequestsLeft<R>(c: Shape<R>, l: Position<R>): nat {
    match l
    case Trying(k) => AttemptsLeft(c.human, k)
    case Admitted(k) => AttemptsLeft(c.human, k)
    case Sent(k) => AttemptsLeft(c.human, k) - 1
    case _ => 0
  }

  ghost predicate AttemptsFit<R>(c: Shape<R>, l: Position<R>, t: Trace<R>) {
    Sends(t) + RequestsLeft(c, l) <= AttemptLimit(c.human)
  }

  lemma {:induction false} AttemptsAdvance<R(!new)>(
      c: Shape<R>, l: Position<R>, t: Trace<R>, a: Action<R>, l': Position<R>)
    requires AttemptsFit(c, l, t) && Next(c, l, a, l')
    ensures AttemptsFit(c, l', Then(t, a))
  {
    if l.Sent? && l'.Trying? { AttemptsRunOut(c.human, l.tries, l'.tries); }
  }

  /** The loop has made a read, in the positions behind one. */
  predicate IsBehindRead(q: Polling) {
    q.Answered? || q.Recording? || q.Narrated? || q.CheckAfter? || q == Over(TerminalSeen) || q == Over(ReadFailed)
  }

  ghost predicate Looked<R>(c: Shape<R>, l: Position<R>, t: Trace<R>) {
    l.Observing? && IsBehindRead(l.poll) && !c.mayBeSettled ==> Gets(t) > 0
  }

  lemma LookedAdvances<R(!new)>(c: Shape<R>, l: Position<R>, t: Trace<R>, a: Action<R>, l': Position<R>)
    requires Looked(c, l, t) && Next(c, l, a, l')
    ensures Looked(c, l', Then(t, a))
  {
  }

  /** No reads and lines without waiting, no repeated read without a human session. */
  ghost predicate Counted<R>(c: Shape<R>, t: Trace<R>) {
    && (Lines(t) > 0 ==> c.wait && c.narrates)
    && (!c.wait ==> Gets(t) == 0)
    && (!c.human ==> Gets(t) == Reads(t))
  }

  lemma {:induction false} CountedAdvances<R>(c: Shape<R>, t: Trace<R>, a: Action<R>)
    requires Counted(c, t) && (IsLine(a) ==> c.wait && c.narrates) && (a.Get? ==> c.wait) && (IsRepeat(a) ==> c.human)
    ensures Counted(c, Then(t, a))
  {
  }

  ghost function Outline<R>(c: Shape<R>, recovery: R): (Position<R>, Trace<R>) -> bool {
    (l, t) => Inv(c, recovery, l, t)
  }

  ghost predicate Kept<R>(c: Shape<R>, recovery: R, l': Position<R>, f: Facts<R>, v: View<R>, a: Action<R>) {
    && Permitted(v, a)
    && (a.Send? ==> a.request == c.request)
    && (IsLine(a) ==> c.wait && c.narrates)
    && (a.Get? ==> c.wait)
    && (IsRepeat(a) ==> c.human)
    && Fits(c, recovery, l', Learn(f, a), Advance(v, a))
  }

  lemma ObserveKeeps<R(!new)>(
      c: Shape<R>, recovery: R, since: Option<R>, q: Polling, f: Facts<R>, v: View<R>, a: Action<R>, l': Position<R>)
    requires Fits(c, recovery, Observing(since, q), f, v) && Next(c, Observing(since, q), a, l') && Truthful(v, a)
    ensures Kept(c, recovery, l', f, v, a)
  {
    if !q.Over? { PollKeepsFit((r: R) => Records(c, since, r), c.narrates, c.human, q, v, a, l'.poll); }
  }

  lemma NextKeeps<R(!new)>(
      c: Shape<R>, recovery: R, l: Position<R>, f: Facts<R>, v: View<R>, a: Action<R>, l': Position<R>)
    requires Fits(c, recovery, l, f, v) && Next(c, l, a, l') && Truthful(v, a)
    ensures Kept(c, recovery, l', f, v, a)
  {
    match l
    case Observing(since, q) => ObserveKeeps(c, recovery, since, q, f, v, a, l');
    case Finishing(e) => EndKeepsFit(e, v, a, l'.ending);
    case _ =>
  }

  lemma {:induction false} InvAdvances<R(!new)>(
      c: Shape<R>, recovery: R, l: Position<R>, t: Trace<R>, a: Action<R>, l': Position<R>)
    requires Inv(c, recovery, l, t) && Next(c, l, a, l') && Truthful(ViewOf(t, recovery), a)
    ensures Permitted(ViewOf(t, recovery), a) && Inv(c, recovery, l', Then(t, a))
  {
    ViewAdvances(t, recovery, a);
    NextKeeps(c, recovery, l, FactsOf(t), ViewOf(t, recovery), a, l');
    CountedAdvances(c, t, a);
    LookedAdvances(c, l, t, a, l');
    AttemptsAdvance(c, l, t, a, l');
  }

  lemma {:induction false} Conform<R(!new)>(c: Shape<R>, recovery: R, watch: bool)
    requires watch ==> c.wait
    ensures Conforms(if watch then Watch(c) else Command(c), recovery, Outline(c, recovery))
  {
    forall l, t, a, l' | Outline(c, recovery)(l, t) && Next(c, l, a, l') && Truthful(ViewOf(t, recovery), a)
      ensures Permitted(ViewOf(t, recovery), a) && Outline(c, recovery)(l', Then(t, a))
    {
      InvAdvances(c, recovery, l, t, a, l');
    }
  }

  // ---- Every run ----

  const SUPERVISED := Config(Deferred, false)

  ghost predicate IsCommandRun<R(!new)>(c: Shape<R>, recovery: R, run: seq<System<Position<R>, R>>) {
    IsRun(Command(c), SUPERVISED, recovery, run)
  }

  lemma {:induction false} EveryStateIsExplained<R(!new)>(
      c: Shape<R>, recovery: R, run: seq<System<Position<R>, R>>, i: nat)
    requires IsCommandRun(c, recovery, run) && i < |run|
    ensures Sound(SUPERVISED, recovery, run[i]) && Inv(c, recovery, run[i].local, run[i].trace)
  {
    Conform(c, recovery, false);
    EveryRunIsSound(Command(c), SUPERVISED, recovery, run, i);
    LocalProofHolds(Command(c), SUPERVISED, recovery, Outline(c, recovery), run, i);
  }

  lemma {:induction false} FactsAreFrozen<R>(at: Trace<R>, t: Trace<R>)
    requires RefusedSince(at, t)
    ensures FactsOf(t) == FactsOf(at).(sent := FactsOf(t).sent)
  {
    if at != t { FactsAreFrozen(at, t.past); }
  }

  /** In every run of the mutation: a handler sees an accepted value exactly when a receipt was recorded,
      and then that receipt or a refreshed one; a timeout handler always sees one. A dispatch is reported
      exactly when a request left or is about to, and without it none ever will. */
  lemma {:induction false} HandlersKnowTheOutcome<R(!new)>(
      c: Shape<R>, recovery: R, run: seq<System<Position<R>, R>>, i: nat, j: nat)
    requires !c.accepted(recovery)
    requires IsCommandRun(c, recovery, run) && i <= j < |run| && run[i].supervisor.Handling?
    ensures var snapshot, f := run[i].supervisor.snapshot, FactsOf(run[i].trace);
            && (c.accepted(snapshot.recovery) <==> f.receipt.Some?)
            && Explains(c, recovery, f, snapshot.recovery)
            && (run[i].supervisor.cause.Timeout? ==> f.receipt.Some?)
            && (f.receipt.Some? ==> snapshot.dispatched)
            && (snapshot.dispatched ==> FactsOf(run[j].trace).sent || run[j].local.Admitted?)
            && (!snapshot.dispatched ==> Sends(run[j].trace) == 0 && !FactsOf(run[j].trace).sent)
            && FactsOf(run[j].trace).receipt == f.receipt
            && OnlySends(c.request, run[j].trace)
  {
    EveryStateIsExplained(c, recovery, run, i);
    EveryStateIsExplained(c, recovery, run, j);
    OwnershipSettlesOnce(Command(c), SUPERVISED, recovery, run, i, j);
    FactsAreFrozen(run[i].claim.value.at, run[i].trace);
    FactsAreFrozen(run[i].claim.value.at, run[j].trace);
    FencedSendsWereAdmitted(run[j].trace);
    SentMeansSends(run[j].trace);
    if run[i].supervisor.cause.Timeout? { StillTimed(run[i].claim.value.at, run[i].trace); }
  }

  lemma {:induction false} SentMeansSends<R>(t: Trace<R>)
    ensures FactsOf(t).sent <==> Sends(t) > 0
  {
    if t.Then? { SentMeansSends(t.past); }
  }

  /** Once a stop is being handled no attempt is admitted any more. At most the one mutation already let
      through still leaves, or the one read, which may be two requests; at most one line follows. */
  lemma {:induction false} StopFencesDispatch<R(!new)>(
      c: Shape<R>, recovery: R, run: seq<System<Position<R>, R>>, i: nat, j: nat)
    requires IsCommandRun(c, recovery, run) && i <= j < |run| && run[i].supervisor.Handling?
    ensures run[i].claim.Some? && FencedAfter(run[i].claim.value.at, run[j].trace)
    ensures !(c.wait && c.narrates) ==> Lines(run[j].trace) == 0
  {
    EveryStateIsExplained(c, recovery, run, j);
    SnapshotTellsTheTruth(Command(c), SUPERVISED, recovery, run, i, j);
  }

  /** For the mutation and for observation alone: the output arm of a stopped observation is never
      entered, a handler speaks alone, and no placeholder status is returned. */
  lemma {:induction false} LosersArmIsDead<R(!new)>(
      c: Shape<R>, recovery: R, watch: bool, timer: Timer, run: seq<System<Position<R>, R>>, i: nat)
    requires watch ==> c.wait
    requires IsRun(if watch then Watch(c) else Command(c), Config(timer, false), recovery, run) && i < |run|
    ensures run[i].local != Finishing(LosersArm)
    ensures run[i].supervisor.Returned? ==>
              match run[i].supervisor.speaker
              case Handler(cause) => run[i].claim.Some? && !Printed(run[i].trace)
              case Worker(result) => run[i].claim.None? && result != Placeholder
  {
    var p, cfg := if watch then Watch(c) else Command(c), Config(timer, false);
    Conform(c, recovery, watch);
    LocalProofHolds(p, cfg, recovery, Outline(c, recovery), run, i);
    if run[i].supervisor.Returned? {
      OneSpeaker(p, cfg, recovery, Outline(c, recovery), run, i);
    }
  }

  // ---- What can follow a report ----

  lemma Act<R(!new)>(c: Shape<R>, recovery: R, run: seq<System<Position<R>, R>>, a: Action<R>, l': Position<R>)
      returns (longer: seq<System<Position<R>, R>>)
    requires IsCommandRun(c, recovery, run)
    requires var s := run[|run| - 1]; IsOpen(s) && Next(c, s.local, a, l') && Answers(s, a)
    requires !a.Finish? && (a.Ask? ==> Grant(run[|run| - 1].control, a.op).owner == Active)
    ensures IsCommandRun(c, recovery, longer)
    ensures longer[|longer| - 1] == Acted(run[|run| - 1], a, l') && IsOpen(longer[|longer| - 1])
  {
    longer := ExtendOpen(Command(c), SUPERVISED, recovery, run, a, l');
  }

  lemma ReachTimer<R(!new)>(c: Shape<R>, recovery: R, r: R) returns (run: seq<System<Position<R>, R>>)
    requires c.wait && c.accepted(r)
    ensures IsCommandRun(c, recovery, run) && IsOpen(run[|run| - 1]) && run[|run| - 1].local == StartingTimer(r)
    ensures Gets(run[|run| - 1].trace) == 0 && run[|run| - 1].control.recovery == r
  {
    run := [Initial(Command(c), recovery)];
    run := Act(c, recovery, run, Ask(BeginDispatch, true), Admitted(FIRST));
    run := Act(c, recovery, run, Send(c.request), Sent(FIRST));
    assert Gets(run[|run| - 1].trace) == 0;
    run := Act(c, recovery, run, Internal, RecordingAcceptance(r));
    run := Act(c, recovery, run, Ask(UpdateRecovery(r), true), StartingTimer(r));
  }

  /** A waiting command with an admitted read about to leave. */
  lemma ReachReading<R(!new)>(c: Shape<R>, recovery: R, r: R) returns (run: seq<System<Position<R>, R>>)
    requires c.wait && c.accepted(r)
    ensures IsCommandRun(c, recovery, run)
    ensures IsOpen(run[|run| - 1]) && run[|run| - 1].local == Observing(Some(r), Reading)
  {
    run := ReachTimer(c, recovery, r);
    run := Act(c, recovery, run, StartTimer, Observing(Some(r), CheckFirst));
    run := Act(c, recovery, run, ReadStop(false), Observing(Some(r), CheckSecond));
    run := Act(c, recovery, run, ReadStop(false), Observing(Some(r), Admit));
    run := Act(c, recovery, run, Ask(AdmitRead, true), Observing(Some(r), Reading));
  }

  ghost predicate HandlerAnswered<R>(s: System<Position<R>, R>) {
    s.supervisor.Returned? && s.supervisor.speaker.Handler? && s.claim.Some?
  }

  /** From there a read request follows the handler's report ... */
  lemma ReadFollowsTheReport<R(!new)>(c: Shape<R>, recovery: R, r: R) returns (run: seq<System<Position<R>, R>>)
    requires c.wait && c.accepted(r)
    ensures IsCommandRun(c, recovery, run)
    ensures var s := run[|run| - 1];
            && HandlerAnswered(s) && s.done.None? && s.local == Observing(Some(r), Answered)
            && GetsAfterStop(s) == 1 && Lines(s.trace) == Lines(s.claim.value.at)
  {
    run := ReachReading(c, recovery, r);
    run := ExtendByInterrupt(Command(c), SUPERVISED, recovery, run, 130);
    run := ExtendByAction(Command(c), SUPERVISED, recovery, run, Get(false), Observing(Some(r), Answered));
  }

  /** ... under a human session a second one, and then a line if there are lines. */
  lemma ReadsFollowTheReport<R(!new)>(c: Shape<R>, recovery: R, r: R, repeated: bool)
      returns (run: seq<System<Position<R>, R>>)
    requires c.wait && c.accepted(r) && (repeated ==> c.human)
    ensures IsCommandRun(c, recovery, run) && HandlerAnswered(run[|run| - 1])
    ensures GetsAfterStop(run[|run| - 1]) == if repeated then 2 else 1
    ensures c.narrates ==> LineAfterStop(run[|run| - 1])
  {
    run := ReadFollowsTheReport(c, recovery, r);
    ghost var before := run[|run| - 1];
    var again := if repeated then Get(true) else Internal;
    run := ExtendByAction(Command(c), SUPERVISED, recovery, run, again, Observing(Some(r), Recording));
    assert GetsAfterStop(run[|run| - 1]) == if repeated then 2 else 1;
    assert Lines(run[|run| - 1].trace) == Lines(before.trace);
    if c.narrates {
      run := ExtendByAction(Command(c), SUPERVISED, recovery, run, Print(Line), Observing(Some(r), Narrated));
    }
  }

  /** Every state of every run has at most `n` read requests after a stop. */
  ghost predicate AtMostLate<R(!new)>(c: Shape<R>, recovery: R, n: int) {
    forall run, i: nat :: IsCommandRun(c, recovery, run) && i < |run| ==> GetsAfterStop(run[i]) <= n
  }

  /** A read request can follow a stop exactly when the command waits, a second one exactly when it also acts
      under a human session, and never a third. `r` is any receipt the service could give. */
  lemma LateReadsExactlyWhen<R(!new)>(c: Shape<R>, recovery: R, r: R)
    requires c.accepted(r)
    ensures c.wait <==> !AtMostLate(c, recovery, 0)
    ensures c.wait && c.human <==> !AtMostLate(c, recovery, 1)
    ensures AtMostLate(c, recovery, 2)
  {
    forall run, i: nat | IsCommandRun(c, recovery, run) && i < |run|
      ensures GetsAfterStop(run[i]) <= 2
      ensures !(c.wait && c.human) ==> GetsAfterStop(run[i]) <= 1
      ensures !c.wait ==> GetsAfterStop(run[i]) <= 0
    {
      EveryStateIsExplained(c, recovery, run, i);
      LateReadsAreBounded(SUPERVISED, recovery, run[i]);
    }
    if c.wait {
      var run := ReadsFollowTheReport(c, recovery, r, c.human);
      assert GetsAfterStop(run[|run| - 1]) == if c.human then 2 else 1;
    }
  }

  // ---- What a command can do ----

  ghost predicate IsAt<R(!new)>(c: Shape<R>, recovery: R, run: seq<System<Position<R>, R>>, l: Position<R>) {
    IsCommandRun(c, recovery, run) && IsOpen(run[|run| - 1]) && run[|run| - 1].local == l
  }

  /** An operation that nobody has stopped is completed: its output is written, and its result, whichever it is,
      is returned. */
  lemma CanComplete<R(!new)>(c: Shape<R>, recovery: R, start: seq<System<Position<R>, R>>, result: Result)
      returns (run: seq<System<Position<R>, R>>)
    requires IsAt(c, recovery, start, Finishing(Completing(false))) && result != Placeholder
    ensures IsCommandRun(c, recovery, run)
    ensures run[|run| - 1].supervisor == Returned(Worker(result)) && Printed(run[|run| - 1].trace)
  {
    run := CanOutput(c, recovery, start);
    run := ExtendByAction(Command(c), SUPERVISED, recovery, run, Finish(result), Finishing(Ended));
    run := ExtendByReturn(Command(c), SUPERVISED, recovery, run);
  }

  lemma CanOutput<R(!new)>(c: Shape<R>, recovery: R, start: seq<System<Position<R>, R>>)
      returns (run: seq<System<Position<R>, R>>)
    requires IsAt(c, recovery, start, Finishing(Completing(false)))
    ensures IsCommandRun(c, recovery, run)
    ensures var s := run[|run| - 1];
            s.local == Finishing(Writing) && s.supervisor.Selecting? && s.done.None? && Printed(s.trace)
  {
    var p, control := Command(c), start[|start| - 1].control;
    run := ExtendByAction(p, SUPERVISED, recovery, start, Ask(BeginCompletion, true), Finishing(Writing));
    run := ExtendByAction(p, SUPERVISED, recovery, run, ReadRecovery(control.recovery), Finishing(Writing));
    run := ExtendByAction(p, SUPERVISED, recovery, run, ReadDispatched(control.dispatched), Finishing(Writing));
    run := ExtendByAction(p, SUPERVISED, recovery, run, Print(Terminal), Finishing(Writing));
  }

  lemma CanTry<R(!new)>(c: Shape<R>, recovery: R, start: seq<System<Position<R>, R>>, k: Tries)
      returns (run: seq<System<Position<R>, R>>)
    requires IsAt(c, recovery, start, Trying(k))
    ensures IsAt(c, recovery, run, Sent(k))
    ensures Sends(run[|run| - 1].trace) == Sends(start[|start| - 1].trace) + 1
    ensures Admissions(run[|run| - 1].trace) == Admissions(start[|start| - 1].trace) + 1
  {
    run := Act(c, recovery, start, Ask(BeginDispatch, true), Admitted(k));
    assert Sends(run[|run| - 1].trace) == Sends(start[|start| - 1].trace);
    assert Admissions(run[|run| - 1].trace) == Admissions(start[|start| - 1].trace) + 1;
    run := Act(c, recovery, run, Send(c.request), Sent(k));
  }

  /** No more than two attempts are made under a service key, and four under a human session, each under an
      admission of its own ... */
  lemma {:induction false} AttemptsAreBounded<R(!new)>(
      c: Shape<R>, recovery: R, run: seq<System<Position<R>, R>>, i: nat)
    requires IsCommandRun(c, recovery, run) && i < |run|
    ensures Sends(run[i].trace) <= Admissions(run[i].trace)
    ensures Sends(run[i].trace) <= if c.human then 4 else 2
  {
    EveryStateIsExplained(c, recovery, run, i);
    FencedSendsWereAdmitted(run[i].trace);
  }

  /** ... and all of them can be made. */
  lemma AllAttemptsCanBeMade<R(!new)>(c: Shape<R>, recovery: R)
      returns (run: seq<System<Position<R>, R>>)
    ensures IsCommandRun(c, recovery, run) && IsOpen(run[|run| - 1]) && run[|run| - 1].local.Sent?
    ensures Sends(run[|run| - 1].trace) == Admissions(run[|run| - 1].trace) == if c.human then 4 else 2
  {
    run := [Initial(Command(c), recovery)];
    run := Act(c, recovery, run, ReadRecovery(recovery), Trying(FIRST));
    run := CanTryTwice(c, recovery, run, false);
    if c.human {
      run := Act(c, recovery, run, Internal, Trying(Tries(true, false)));
      run := CanTryTwice(c, recovery, run, true);
    }
  }

  lemma CanTryTwice<R(!new)>(c: Shape<R>, recovery: R, start: seq<System<Position<R>, R>>, rerun: bool)
      returns (run: seq<System<Position<R>, R>>)
    requires IsAt(c, recovery, start, Trying(Tries(rerun, false)))
    ensures IsAt(c, recovery, run, Sent(Tries(rerun, true)))
    ensures Sends(run[|run| - 1].trace) == Sends(start[|start| - 1].trace) + 2
    ensures Admissions(run[|run| - 1].trace) == Admissions(start[|start| - 1].trace) + 2
  {
    run := CanTry(c, recovery, start, Tries(rerun, false));
    run := Act(c, recovery, run, Internal, Trying(Tries(rerun, true)));
    run := CanTry(c, recovery, run, Tries(rerun, true));
  }

  /** What is accepted, on any attempt, is recorded, and published or waited for. */
  lemma AcceptanceIsRecorded<R(!new)>(c: Shape<R>, recovery: R, r: R) returns (run: seq<System<Position<R>, R>>)
    requires c.accepted(r)
    ensures IsAt(c, recovery, run, if c.wait then StartingTimer(r) else Finishing(Completing(false)))
    ensures run[|run| - 1].control.recovery == r && FactsOf(run[|run| - 1].trace).receipt == Some(r)
  {
    run := AllAttemptsCanBeMade(c, recovery);
    EveryStateIsExplained(c, recovery, run, |run| - 1);
    run := Act(c, recovery, run, Internal, RecordingAcceptance(r));
    var l' := if c.wait then StartingTimer(r) else Finishing(Completing(false));
    run := Act(c, recovery, run, Ask(UpdateRecovery(r), true), l');
  }

  /** Any failure, before a request or after it, is reported by the worker. */
  lemma FailuresAreReported<R(!new)>(c: Shape<R>, recovery: R, sent: bool, erred: bool, result: Result)
      returns (run: seq<System<Position<R>, R>>)
    requires result != Placeholder
    ensures IsCommandRun(c, recovery, run)
    ensures run[|run| - 1].supervisor == Returned(Worker(result)) && Printed(run[|run| - 1].trace)
  {
    run := [Initial(Command(c), recovery)];
    if sent { run := CanTry(c, recovery, run, FIRST); }
    if erred {
      run := Act(c, recovery, run, Internal, Erred);
      run := Act(c, recovery, run, ReadDispatched(run[|run| - 1].control.dispatched), Finishing(Completing(false)));
    } else {
      run := Act(c, recovery, run, Internal, Finishing(Completing(false)));
    }
    run := CanComplete(c, recovery, run, result);
  }

  /** The wait goes round: a snapshot may be recorded, a second read admitted, a line written, and the next read
      comes after both looks at the flag. */
  lemma WaitGoesRound<R(!new)>(c: Shape<R>, recovery: R, r: R, newer: R) returns (run: seq<System<Position<R>, R>>)
    requires c.wait && c.accepted(r) && c.accepted(newer) && c.refreshes(r, newer)
    ensures IsAt(c, recovery, run, Observing(Some(r), CheckFirst)) && run[|run| - 1].control.recovery == newer
  {
    run := ReachReading(c, recovery, r);
    run := CanRead(c, recovery, r, run);
    run := Act(c, recovery, run, Ask(AdmitRead, true), Observing(Some(r), Reading));
    run := CanRead(c, recovery, r, run);
    run := CanRecord(c, recovery, r, newer, run);
  }

  lemma CanRead<R(!new)>(c: Shape<R>, recovery: R, r: R, start: seq<System<Position<R>, R>>)
      returns (run: seq<System<Position<R>, R>>)
    requires IsAt(c, recovery, start, Observing(Some(r), Reading))
    ensures IsAt(c, recovery, run, Observing(Some(r), Recording))
  {
    run := Act(c, recovery, start, Get(false), Observing(Some(r), Answered));
    run := Act(c, recovery, run, Internal, Observing(Some(r), Recording));
  }

  lemma CanRecord<R(!new)>(c: Shape<R>, recovery: R, r: R, newer: R, start: seq<System<Position<R>, R>>)
      returns (run: seq<System<Position<R>, R>>)
    requires IsAt(c, recovery, start, Observing(Some(r), Recording)) && c.accepted(newer) && c.refreshes(r, newer)
    ensures IsAt(c, recovery, run, Observing(Some(r), CheckFirst)) && run[|run| - 1].control.recovery == newer
  {
    run := Act(c, recovery, start, Ask(UpdateRecovery(newer), true), Observing(Some(r), Recording));
    if c.narrates { run := Act(c, recovery, run, Print(Line), Observing(Some(r), Narrated)); }
    run := Act(c, recovery, run, Internal, Observing(Some(r), CheckAfter));
    run := Act(c, recovery, run, ReadStop(false), Observing(Some(r), CheckFirst));
  }

  /** It can end in a terminal resource or a failed read, and a timeout can be noticed after a read; then the
      outcome is published. */
  lemma WaitCanEnd<R(!new)>(c: Shape<R>, recovery: R, r: R, outcome: Observed, result: Result)
      returns (run: seq<System<Position<R>, R>>)
    requires c.wait && c.accepted(r) && outcome != Stopped && result != Placeholder
    ensures IsCommandRun(c, recovery, run)
    ensures run[|run| - 1].supervisor == Returned(Worker(result)) && Printed(run[|run| - 1].trace)
  {
    run := ReachReading(c, recovery, r);
    run := CanRead(c, recovery, r, run);
    if outcome == TimedOut {
      run := Act(c, recovery, run, Internal, Observing(Some(r), CheckAfter));
      run := Act(c, recovery, run, ReadStop(false), Observing(Some(r), Over(TimedOut)));
    } else {
      run := Act(c, recovery, run, Internal, Observing(Some(r), Over(outcome)));
    }
    run := Act(c, recovery, run, Internal, Finishing(Completing(false)));
    run := CanComplete(c, recovery, run, result);
  }

  /** A timeout can also be noticed before any read ... */
  lemma WaitCanEndEarly<R(!new)>(c: Shape<R>, recovery: R, r: R) returns (run: seq<System<Position<R>, R>>)
    requires c.wait && c.accepted(r)
    ensures IsAt(c, recovery, run, Observing(Some(r), Over(TimedOut)))
  {
    run := ReachTimer(c, recovery, r);
    run := Act(c, recovery, run, StartTimer, Observing(Some(r), CheckFirst));
    run := Act(c, recovery, run, ReadStop(false), Observing(Some(r), CheckSecond));
    run := Act(c, recovery, run, ReadStop(false), Observing(Some(r), Over(TimedOut)));
  }

  /** ... and a terminal resource can be found after a line was written for it. */
  lemma LineCanBeLast<R(!new)>(c: Shape<R>, recovery: R, r: R) returns (run: seq<System<Position<R>, R>>)
    requires c.wait && c.narrates && c.accepted(r)
    ensures IsAt(c, recovery, run, Observing(Some(r), Over(TerminalSeen)))
  {
    run := ReachReading(c, recovery, r);
    run := CanRead(c, recovery, r, run);
    run := Act(c, recovery, run, Print(Line), Observing(Some(r), Narrated));
    run := Act(c, recovery, run, Internal, Observing(Some(r), Over(TerminalSeen)));
  }

  // ---- The two mutations, and what their handlers write ----

  datatype Statement = Silence | AcceptanceUnknown(key: string) | ObservationStopped

  /** `requestId` is the cancellation request, `observed` what a read may refresh. */
  datatype CancelRecovery = CancelRecovery(key: string, mode: string, requestId: Option<string>, observed: int)

  ghost function CancelShape(start: CancelRecovery, runId: string, wait: bool, human: bool): Shape<CancelRecovery> {
    Shape(Mutation(start.key, Some(runId)),
          (r: CancelRecovery) => r.key == start.key && r.mode == start.mode && r.requestId.Some?,
          (r: CancelRecovery, r': CancelRecovery) => r' == r.(observed := r'.observed),
          wait, false, true, human)
  }

  /** The cancel handler does not look at whether anything was dispatched. */
  function CancelStatement(s: Snapshot<CancelRecovery>): Statement {
    if s.recovery.requestId.Some? then ObservationStopped else AcceptanceUnknown(s.recovery.key)
  }

  datatype PublicationRecovery = PublicationRecovery(key: string, publicationId: Option<string>)

  /** The waiting publication command records its ID once and refreshes nothing. */
  ghost function PublicationShape(key: string, runId: string, human: bool): Shape<PublicationRecovery> {
    Shape(Mutation(key, Some(runId)),
          (r: PublicationRecovery) => r.key == key && r.publicationId.Some?,
          (r: PublicationRecovery, r': PublicationRecovery) => false,
          true, true, false, human)
  }

  function PublicationStatement(s: Snapshot<PublicationRecovery>): Statement {
    if s.recovery.publicationId.Some? || !s.dispatched then Silence else AcceptanceUnknown(s.recovery.key)
  }

  ghost predicate IsCancelRun(
      start: CancelRecovery, runId: string, wait: bool, human: bool,
      run: seq<System<Position<CancelRecovery>, CancelRecovery>>)
  {
    start.requestId.None? && IsCommandRun(CancelShape(start, runId, wait, human), start, run)
  }

  /** `run cancel`: key and mode are the command's own, and the request named is the one whose receipt was
      recorded first; observation is said to have stopped exactly when there is one, and acceptance to be
      unknown otherwise. That is a false alarm exactly when nothing was dispatched: then no request has
      left or ever will, and otherwise one has left or is about to. */
  lemma {:induction false} CancelHandlersTellTheTruth(
      start: CancelRecovery, runId: string, wait: bool, human: bool,
      run: seq<System<Position<CancelRecovery>, CancelRecovery>>, i: nat, j: nat)
    requires IsCancelRun(start, runId, wait, human, run) && i <= j < |run| && run[i].supervisor.Handling?
    ensures var s, f := run[i].supervisor.snapshot, FactsOf(run[i].trace);
            && s.recovery.key == start.key && s.recovery.mode == start.mode
            && s.recovery.requestId == (if f.receipt.Some? then f.receipt.value.requestId else None)
            && (CancelStatement(s) == ObservationStopped <==> f.receipt.Some?)
            && (CancelStatement(s) == AcceptanceUnknown(start.key) <==> f.receipt.None?)
            && (run[i].supervisor.cause.Timeout? ==> f.receipt.Some?)
            && (s.dispatched ==> FactsOf(run[j].trace).sent || run[j].local.Admitted?)
            && (!s.dispatched ==> CancelStatement(s).AcceptanceUnknown? && Sends(run[j].trace) == 0)
  {
    HandlersKnowTheOutcome(CancelShape(start, runId, wait, human), start, run, i, j);
  }

  /** Every request that leaves is the cancellation of this run under this command's key. */
  lemma {:induction false} CancelSendsOneRequest(
      start: CancelRecovery, runId: string, wait: bool, human: bool,
      run: seq<System<Position<CancelRecovery>, CancelRecovery>>, i: nat)
    requires IsCancelRun(start, runId, wait, human, run) && i < |run|
    ensures OnlySends(Mutation(start.key, Some(runId)), run[i].trace)
    ensures Sends(run[i].trace) <= if human then 4 else 2
  {
    EveryStateIsExplained(CancelShape(start, runId, wait, human), start, run, i);
  }

  /** A cancellation that waits is not found resolved before it was read. A read request can follow a stop
      exactly when it waits, and a second one exactly when it also acts under a human session. */
  lemma {:induction false} CancelIsReadFirst(
      start: CancelRecovery, runId: string, wait: bool, human: bool,
      run: seq<System<Position<CancelRecovery>, CancelRecovery>>, i: nat)
    requires IsCancelRun(start, runId, wait, human, run) && i < |run|
    ensures run[i].local.Observing? && run[i].local.poll == Over(TerminalSeen) ==> Gets(run[i].trace) > 0
    ensures wait <==> !AtMostLate(CancelShape(start, runId, wait, human), start, 0)
    ensures wait && human <==> !AtMostLate(CancelShape(start, runId, wait, human), start, 1)
  {
    EveryStateIsExplained(CancelShape(start, runId, wait, human), start, run, i);
    LateReadsExactlyWhen(CancelShape(start, runId, wait, human), start, start.(requestId := Some("q")));
  }

  /** Such a false alarm: an interrupt before the first request. */
  lemma CancelUnknownBeforeAnyRequest(start: CancelRecovery, runId: string, wait: bool, human: bool, code: int)
      returns (run: seq<System<Position<CancelRecovery>, CancelRecovery>>)
    requires start.requestId.None?
    ensures IsCancelRun(start, runId, wait, human, run)
    ensures |run| == 4 && run[2].supervisor.Handling? && run[2].trace.Idle?
    ensures CancelStatement(run[2].supervisor.snapshot) == AcceptanceUnknown(start.key)
  {
    run := [Initial(Command(CancelShape(start, runId, wait, human)), start)];
    run := ExtendByInterrupt(Command(CancelShape(start, runId, wait, human)), SUPERVISED, start, run, code);
  }

  /** A progress line can follow the handler's report exactly when the command waits. */
  lemma CancelLateLineExactlyWhenWaiting(start: CancelRecovery, runId: string, wait: bool, human: bool)
    requires start.requestId.None?
    ensures wait <==>
              !forall run, i: nat :: IsCancelRun(start, runId, wait, human, run) && i < |run| ==> !LineAfterStop(run[i])
  {
    var c := CancelShape(start, runId, wait, human);
    if wait {
      var run := ReadsFollowTheReport(c, start, start.(requestId := Some("q")), false);
      assert IsCancelRun(start, runId, wait, human, run) && LineAfterStop(run[|run| - 1]);
    } else {
      forall run, i: nat | IsCancelRun(start, runId, wait, human, run) && i < |run| ensures !LineAfterStop(run[i]) {
        EveryStateIsExplained(c, start, run, i);
      }
    }
  }

  /** `publication create --wait`: the ID is the one the first receipt recorded, the timeout handler always
      has one, and acceptance is said to be unknown, under the key that was sent, exactly when an attempt
      was admitted and no ID recorded. No false alarm here, and no progress line at all. */
  lemma {:induction false} PublicationHandlersTellTheTruth(
      key: string, runId: string, human: bool, run: seq<System<Position<PublicationRecovery>, PublicationRecovery>>,
      i: nat, j: nat)
    requires IsCommandRun(PublicationShape(key, runId, human), PublicationRecovery(key, None), run) && i <= j < |run|
    requires run[i].supervisor.Handling?
    ensures var s, f := run[i].supervisor.snapshot, FactsOf(run[i].trace);
            && s.recovery == (if f.receipt.Some? then f.receipt.value else PublicationRecovery(key, None))
            && s.recovery.key == key
            && (s.recovery.publicationId.Some? <==> f.receipt.Some?)
            && (run[i].supervisor.cause.Timeout? ==> s.recovery.publicationId.Some?)
            && (PublicationStatement(s) == AcceptanceUnknown(key) <==> s.dispatched && f.receipt.None?)
            && (s.dispatched ==> FactsOf(run[j].trace).sent || run[j].local.Admitted?)
            && (!s.dispatched ==> Sends(run[j].trace) == 0)
            && OnlySends(Mutation(key, Some(runId)), run[j].trace)
            && Lines(run[j].trace) == 0
  {
    HandlersKnowTheOutcome(PublicationShape(key, runId, human), PublicationRecovery(key, None), run, i, j);
    StopFencesDispatch(PublicationShape(key, runId, human), PublicationRecovery(key, None), run, i, j);
  }

  /** Every request that leaves publishes this run under this command's key. */
  lemma {:induction false} PublicationSendsOneRequest(
      key: string, runId: string, human: bool, run: seq<System<Position<PublicationRecovery>, PublicationRecovery>>,
      i: nat)
    requires IsCommandRun(PublicationShape(key, runId, human), PublicationRecovery(key, None), run) && i < |run|
    ensures OnlySends(Mutation(key, Some(runId)), run[i].trace)
    ensures Sends(run[i].trace) <= if human then 4 else 2
  {
    EveryStateIsExplained(PublicationShape(key, runId, human), PublicationRecovery(key, None), run, i);
  }

  /** A publication may be settled in its receipt: then it is published without any read. It can be read after a
      stop all the same. */
  lemma PublicationMayBeSettled(key: string, runId: string, human: bool, id: string)
      returns (run: seq<System<Position<PublicationRecovery>, PublicationRecovery>>)
    ensures IsCommandRun(PublicationShape(key, runId, human), PublicationRecovery(key, None), run)
    ensures run[|run| - 1].local == Finishing(Completing(false)) && Gets(run[|run| - 1].trace) == 0
    ensures run[|run| - 1].control.recovery == PublicationRecovery(key, Some(id))
    ensures !AtMostLate(PublicationShape(key, runId, human), PublicationRecovery(key, None), 0)
    ensures human <==> !AtMostLate(PublicationShape(key, runId, human), PublicationRecovery(key, None), 1)
  {
    var c, recovery := PublicationShape(key, runId, human), PublicationRecovery(key, None);
    var r := PublicationRecovery(key, Some(id));
    LateReadsExactlyWhen(c, recovery, r);
    run := ReachTimer(c, recovery, r);
    var t := run[|run| - 1].trace;
    run := Act(c, recovery, run, StartTimer, Observing(Some(r), Over(TerminalSeen)));
    assert Gets(run[|run| - 1].trace) == Gets(t);
    run := Act(c, recovery, run, Internal, Finishing(Completing(false)));
  }
}
