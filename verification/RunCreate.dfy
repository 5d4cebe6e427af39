/** `run create`: staging an input set, posting the run, recording acceptance, waiting. */
module RunCreate {
  import opened Basics
  import opened Ownership
  import opened Supervision
  import opened WorkerParts

  datatype InputSet = Explicit(id: string) | Allocated(id: string)

  /** A run as far as it is known; `observed` stands for the fields a read may refresh. */
  datatype CloudSnapshot = CloudSnapshot(runId: string, observed: int)

  datatype Recovery =
    | BeforeRunDispatch(inputSet: Option<InputSet>)
    | InputSetAllocationDispatched
    | RunDispatched(inputSet: Option<InputSet>, key: Option<string>)
    | Accepted(snapshot: CloudSnapshot)

  function NewRecovery(explicitId: Option<string>): Recovery {
    BeforeRunDispatch(if explicitId.Some? then Some(Explicit(explicitId.value)) else None)
  }

  function ToRunDispatched(r: Recovery): Recovery {
    match r
    case BeforeRunDispatch(inputSet) => RunDispatched(inputSet, None)
    case RunDispatched(inputSet, _) => RunDispatched(inputSet, None)
    case InputSetAllocationDispatched => RunDispatched(None, None)
    case Accepted(_) => r
  }

  function WithRunKey(r: Recovery, key: string): Recovery {
    if r.RunDispatched? then r.(key := Some(key)) else r
  }

  function IdOf(inputSet: Option<InputSet>): Option<string> {
    if inputSet.Some? then Some(inputSet.value.id) else None
  }

  /** How the signal handler classifies the snapshot it was given. */
  datatype Classification =
    | Nowhere
    | InputSetUnknown
    | InputSetOnly(id: string)
    | RunUnknown(inputSetId: Option<string>, key: Option<string>)
    | AcceptedRun(snapshot: CloudSnapshot)

  function Classify(s: Snapshot<Recovery>): Classification {
    if !s.dispatched then Nowhere
    else match s.recovery
      case InputSetAllocationDispatched => InputSetUnknown
      case BeforeRunDispatch(Some(Allocated(id))) => InputSetOnly(id)
      case BeforeRunDispatch(_) => Nowhere
      case RunDispatched(inputSet, key) => RunUnknown(IdOf(inputSet), key)
      case Accepted(snapshot) => AcceptedRun(snapshot)
  }

  /** What the handler then writes: guidance about an input set, and a statement about the run. */
  datatype Statement = AcceptanceUnknown(key: Option<string>) | ObservationStopped(snapshot: CloudSnapshot)

  datatype HandlerOutput = HandlerOutput(inputSetId: Option<string>, statement: Option<Statement>)

  /** A run whose acceptance is unknown and a run that was never asked for get the same statement. */
  function SignalOutput(s: Snapshot<Recovery>, json: bool): HandlerOutput {
    match Classify(s)
    case Nowhere => HandlerOutput(None, Some(AcceptanceUnknown(None)))
    case InputSetUnknown => HandlerOutput(None, Some(AcceptanceUnknown(None)))
    case InputSetOnly(id) => HandlerOutput(Some(id), if json then Some(AcceptanceUnknown(None)) else None)
    case RunUnknown(inputSetId, key) => HandlerOutput(inputSetId, Some(AcceptanceUnknown(key)))
    case AcceptedRun(snapshot) => HandlerOutput(None, Some(ObservationStopped(snapshot)))
  }

  predicate SaysUnknown(o: HandlerOutput) {
    o.statement.Some? && o.statement.value.AcceptanceUnknown?
  }

  predicate SaysStopped(o: HandlerOutput) {
    o.statement.Some? && o.statement.value.ObservationStopped?
  }

  // ---- The worker ----

  /** `human`: the command acts under a human session and not under a service key. */
  datatype Args = Args(explicitId: Option<string>, hasInputs: bool, wait: bool, human: bool, key: string)

  /** The command line refuses an explicit input set together with inline inputs. */
  predicate Parsed(args: Args) {
    args.explicitId.Some? ==> !args.hasInputs && args.explicitId.value != ""
  }

  datatype Stage =
    | Allocating(tries: Tries)
    | AllocationAdmitted(tries: Tries)
    | AllocationSent(tries: Tries)
    | RecordingSet(setId: string)
    | CheckingSet(setId: string)
    | Uploading(setId: string)
    | UploadAdmitted(setId: string)
    | CheckingUploads(setId: string)
    | Sealing(setId: string, tries: Tries)
    | SealAdmitted(setId: string, tries: Tries)
    | SealSent(setId: string, tries: Tries)
    | StagingFailed

  datatype Submission =
    | Ready
    | Planning
    | Trying(plan: Recovery, tries: Tries)
    | PostAdmitted(plan: Recovery, tries: Tries)
    | PostSent(plan: Recovery, tries: Tries)
    | SubmissionErred

  datatype Position =
    | Preparing
    | Keyed
    | Staging(stage: Stage)
    | Submitting(chosen: Option<string>, submission: Submission)
    | RecordingAcceptance(snapshot: CloudSnapshot)
    | StartingTimer(runId: string)
    | Observing(runId: string, poll: Polling)
    | Finishing(ending: Ending)

  predicate IsAccepted(runId: string, r: Recovery) {
    r.Accepted? && r.snapshot.runId == runId
  }

  /** Allocate a set, upload its members, seal it; every request has its own admission. */
  ghost predicate StageNext(human: bool, g: Stage, a: Action<Recovery>, l': Position) {
    match g
    case Allocating(k) =>
      || (a.Ask? && a.op == BeginDispatchWithRecovery(InputSetAllocationDispatched)
          && l' == Staging(if a.granted then AllocationAdmitted(k) else StagingFailed))
      || (a.Internal? && l' == Staging(StagingFailed))
    case AllocationAdmitted(k) => a == Send(AllocateSet) && l' == Staging(AllocationSent(k))
    case AllocationSent(k) =>
      && a.Internal? && l'.Staging?
      && (|| (l'.stage.Allocating? && TriesAgain(human, k, l'.stage.tries))
          || l'.stage == StagingFailed || l'.stage.RecordingSet?)
    case RecordingSet(id) =>
      a.Ask? && a.op == UpdateRecovery(BeforeRunDispatch(Some(Allocated(id)))) && l' == Staging(CheckingSet(id))
    case CheckingSet(id) => a.ReadStop? && l' == Staging(if a.stopped then StagingFailed else Uploading(id))
    case Uploading(id) =>
      || (a.Ask? && a.op == BeginDispatch && l' == Staging(if a.granted then UploadAdmitted(id) else StagingFailed))
      || (a.Internal? && (l' == Staging(CheckingUploads(id)) || l' == Staging(StagingFailed)))
    case UploadAdmitted(id) => a == Send(UploadMember(id)) && l' == Staging(Uploading(id))
    case CheckingUploads(id) => a.ReadStop? && l' == Staging(if a.stopped then StagingFailed else Sealing(id, FIRST))
    case Sealing(id, k) =>
      || (a.Ask? && a.op == BeginDispatch && l' == Staging(if a.granted then SealAdmitted(id, k) else StagingFailed))
      || (a.Internal? && l' == Staging(StagingFailed))
    case SealAdmitted(id, k) => a == Send(SealSet(id)) && l' == Staging(SealSent(id, k))
    case SealSent(id, k) =>
      && a.Internal?
      && (|| (l'.Staging? && l'.stage.Sealing? && l'.stage.setId == id && TriesAgain(human, k, l'.stage.tries))
          || l' == Staging(StagingFailed) || l' == Submitting(Some(id), Ready))
    case StagingFailed => a.ReadRecovery? && l' == Finishing(Completing(false))
  }

  /** Post the run. The admission is asked again before every retry and after a credential refresh. */
  ghost predicate SubmitNext(args: Args, chosen: Option<string>, u: Submission, a: Action<Recovery>, l': Position) {
    match u
    case Ready => a.ReadStop? && l' == if a.stopped then Finishing(Quitting) else Submitting(chosen, Planning)
    case Planning =>
      a.ReadRecovery? && l' == Submitting(chosen, Trying(WithRunKey(ToRunDispatched(a.recovery), args.key), FIRST))
    case Trying(plan, k) =>
      || (a.Ask? && a.op == BeginDispatchWithRecovery(plan)
          && l' == if a.granted then Submitting(chosen, PostAdmitted(plan, k)) else Finishing(Completing(false)))
      || (a.Internal? && (l' == Finishing(Completing(false)) || l' == Submitting(chosen, SubmissionErred)))
    case PostAdmitted(plan, k) =>
      a == Send(Mutation(args.key, chosen)) && l' == Submitting(chosen, PostSent(plan, k))
    case PostSent(plan, k) =>
      && a.Internal?
      && (|| (l'.Submitting? && l'.chosen == chosen && l'.submission.Trying? && l'.submission.plan == plan
              && TriesAgain(args.human, k, l'.submission.tries))
          || l' == Submitting(chosen, SubmissionErred)
          || l' == Finishing(Completing(false)) || l'.RecordingAcceptance?)
    case SubmissionErred => a.ReadRecovery? && l' == Finishing(Completing(false))
  }

  ghost predicate Next(args: Args, l: Position, a: Action<Recovery>, l': Position) {
    match l
    case Preparing =>
      || (a.Internal? && (l' == Keyed || l' == Finishing(Completing(false))))
      || (a == Finish(Failed) && l' == Finishing(Ended))
    case Keyed =>
      a.ReadStop? && l' == if a.stopped then Finishing(Quitting)
                           else if args.hasInputs then Staging(Allocating(FIRST))
                           else Submitting(args.explicitId, Ready)
    case Staging(g) => StageNext(args.human, g, a, l')
    case Submitting(chosen, u) => SubmitNext(args, chosen, u, a, l')
    case RecordingAcceptance(snapshot) =>
      a.Ask? && a.op == UpdateRecovery(Accepted(snapshot))
      && l' == if !a.granted then Finishing(Quitting)
               else if args.wait then StartingTimer(snapshot.runId) else Finishing(Completing(false))
    case StartingTimer(id) => a.StartTimer? && l' == Observing(id, CheckFirst)
    case Observing(id, q) =>
      if q.Over? then a.Internal? && l' == Finishing(Completing(q.outcome.Stopped?))
      else l'.Observing? && l'.runId == id
           && PollNext((r: Recovery) => IsAccepted(id, r), true, args.human, q, a, l'.poll)
    case Finishing(e) => l'.Finishing? && EndNext(e, a, l'.ending)
  }

  ghost function Command(args: Args): Program<Position, Recovery> {
    Program(Preparing, (l, a, l') => Next(args, l, a, l'))
  }

  // ---- What happened, read off the requests that were granted ----

  /** `accepted` is the run that was accepted; `sealed` and `sent` say that a seal or a run request left. */
  datatype Facts = Facts(
    allocation: bool, setId: Option<string>, sealed: bool, run: bool, sent: bool, accepted: Option<string>)

  function Learn(f: Facts, a: Action<Recovery>): Facts {
    match a
    case Ask(BeginDispatchWithRecovery(InputSetAllocationDispatched), true) => f.(allocation := true)
    case Ask(UpdateRecovery(BeforeRunDispatch(Some(Allocated(id)))), true) => f.(setId := Some(id))
    case Ask(BeginDispatchWithRecovery(RunDispatched(_, _)), true) => f.(run := true)
    case Ask(UpdateRecovery(Accepted(s)), true) =>
      f.(accepted := if f.accepted.Some? then f.accepted else Some(s.runId))
    case Send(SealSet(_)) => f.(sealed := true)
    case Send(Mutation(_, _)) => f.(sent := true)
    case _ => f
  }

  function FactsOf(t: Trace<Recovery>): Facts {
    if t.Idle? then Facts(false, None, false, false, false, None) else Learn(FactsOf(t.past), t.action)
  }

  /** The input set the run is created with: the explicit one, or the one this invocation allocated. */
  function InputSetFor(args: Args, f: Facts): Option<InputSet> {
    if args.explicitId.Some? then Some(Explicit(args.explicitId.value))
    else if f.setId.Some? then Some(Allocated(f.setId.value))
    else None
  }

  /** A set is allocated for inline inputs only. Members are uploaded to the recorded set before it is sealed,
      and that set is the one sealed. A run request carries this invocation's key and input set, and leaves
      after the seal of a set that was staged for it. */
  predicate HonestRequest(args: Args, f: Facts, a: Action<Recovery>) {
    a.Send? ==>
      match a.request
      case AllocateSet => args.hasInputs && f.allocation && f.setId.None?
      case UploadMember(id) => args.hasInputs && f.setId == Some(id) && !f.sealed
      case SealSet(id) => args.hasInputs && f.setId == Some(id)
      case Mutation(key, subject) =>
        && f.run && key == args.key && subject == IdOf(InputSetFor(args, f))
        && (args.hasInputs ==> f.sealed && subject == f.setId && subject.Some?)
  }

  ghost predicate HonestRequests(args: Args, t: Trace<Recovery>) {
    t.Then? ==> HonestRequests(args, t.past) && HonestRequest(args, FactsOf(t.past), t.action)
  }

  function Phase(r: Recovery): nat {
    match r
    case BeforeRunDispatch(inputSet) => if inputSet.Some? && inputSet.value.Allocated? then 2 else 0
    case InputSetAllocationDispatched => 1
    case RunDispatched(_, _) => 3
    case Accepted(_) => 4
  }

  ghost predicate PhasesAdvance(args: Args, t: Trace<Recovery>) {
    t.Then? ==>
      && PhasesAdvance(args, t.past)
      && Phase(Written(t.past, NewRecovery(args.explicitId))) <= Phase(Written(t, NewRecovery(args.explicitId)))
  }

  /** The recovery value is the one the facts call for. */
  ghost predicate FactsExplain(args: Args, f: Facts, v: View<Recovery>) {
    && (v.admissions > 0 <==> f.allocation || f.run)
    && (f.setId.Some? ==> f.allocation)
    && (f.accepted.Some? ==> f.run)
    && (f.sent ==> f.run)
    && (args.explicitId.Some? ==> !f.allocation)
    && (v.timed ==> f.accepted.Some?)
    && v.fenced
    && if f.accepted.Some? then IsAccepted(f.accepted.value, v.written)
       else if f.run then v.written == RunDispatched(InputSetFor(args, f), Some(args.key))
       else if f.setId.Some? then v.written == BeforeRunDispatch(Some(Allocated(f.setId.value)))
       else if f.allocation then v.written == InputSetAllocationDispatched
       else v.written == NewRecovery(args.explicitId)
  }

  ghost predicate StageFits(args: Args, g: Stage, f: Facts, v: View<Recovery>) {
    && args.hasInputs && !f.run && v.held == Nothing
    && (f.sealed ==> g.Sealing? || g.SealAdmitted? || g.SealSent? || g.StagingFailed?)
    && (g.SealSent? ==> f.sealed)
    && match g
       case Allocating(_) => f.setId.None?
       case AllocationAdmitted(_) => f.setId.None? && f.allocation && JustAdmitted(v)
       case AllocationSent(_) => f.setId.None? && f.allocation
       case RecordingSet(_) => f.setId.None? && f.allocation
       case UploadAdmitted(id) => f.setId == Some(id) && JustAdmitted(v)
       case SealAdmitted(id, _) => f.setId == Some(id) && JustAdmitted(v)
       case StagingFailed => true
       case _ => Staged(g.setId, f, v)
  }

  /** The set was recorded, unless a stop came first and nothing will be granted any more. */
  predicate Staged(id: string, f: Facts, v: View<Recovery>) {
    f.setId == Some(id) || v.refused
  }

  ghost predicate SubmitFits(args: Args, chosen: Option<string>, u: Submission, f: Facts, v: View<Recovery>) {
    && v.held == Nothing && f.accepted.None? && (f.run && !f.sent ==> u.PostAdmitted?)
    && (!v.refused ==> chosen == IdOf(InputSetFor(args, f)) && (f.allocation ==> f.setId.Some?))
    && (args.hasInputs ==> f.sealed && (!v.refused ==> f.setId.Some?))
    && match u
       case Ready => !f.run
       case Planning => !f.run
       case Trying(plan, _) => !v.refused ==> PlanFits(args, f, plan)
       case PostAdmitted(plan, _) => f.run && JustAdmitted(v) && !v.refused && PlanFits(args, f, plan)
       case PostSent(plan, _) => f.run && (!v.refused ==> PlanFits(args, f, plan))
       case SubmissionErred => true
  }

  predicate PlanFits(args: Args, f: Facts, plan: Recovery) {
    plan == RunDispatched(InputSetFor(args, f), Some(args.key))
  }

  predicate AboutToPost(l: Position) {
    l.Submitting? && l.submission.PostAdmitted?
  }

  /** The position in the program, and the facts it stands for. */
  ghost predicate Fits(args: Args, l: Position, f: Facts, v: View<Recovery>) {
    (f.run && !f.sent ==> AboutToPost(l)) &&
    match l
    case Preparing => v.held == Nothing && !f.allocation && !f.run && !f.sealed
    case Keyed => v.held == Nothing && !f.allocation && !f.run && !f.sealed
    case Staging(g) => StageFits(args, g, f, v)
    case Submitting(chosen, u) => SubmitFits(args, chosen, u, f, v)
    case RecordingAcceptance(_) => v.held == Nothing && f.run && f.accepted.None?
    case StartingTimer(id) => args.wait && v.held == Nothing && f.accepted == Some(id)
    case Observing(id, q) => args.wait && f.accepted == Some(id) && PollFits(q, v)
    case Finishing(e) => EndFits(e, v)
  }

  /** One step, seen through what it did to the facts and the view. */
  ghost predicate Kept(args: Args, l': Position, f: Facts, v: View<Recovery>, a: Action<Recovery>) {
    && Permitted(v, a)
    && HonestRequest(args, f, a)
    && (IsLine(a) || a.Get? ==> args.wait)
    && (IsRepeat(a) ==> args.human)
    && Phase(v.written) <= Phase(Advance(v, a).written)
    && FactsExplain(args, Learn(f, a), Advance(v, a))
    && Fits(args, l', Learn(f, a), Advance(v, a))
  }

  lemma StageKeeps(args: Args, g: Stage, f: Facts, v: View<Recovery>, a: Action<Recovery>, l': Position)
    requires Parsed(args) && FactsExplain(args, f, v) && StageFits(args, g, f, v)
    requires StageNext(args.human, g, a, l') && Truthful(v, a)
    ensures Kept(args, l', f, v, a)
  {
  }

  lemma SubmitKeeps(
      args: Args, chosen: Option<string>, u: Submission, f: Facts, v: View<Recovery>, a: Action<Recovery>,
      l': Position)
    requires Parsed(args) && FactsExplain(args, f, v) && SubmitFits(args, chosen, u, f, v)
    requires SubmitNext(args, chosen, u, a, l') && Truthful(v, a)
    ensures Kept(args, l', f, v, a)
  {
  }

  lemma ObserveKeeps(args: Args, id: string, q: Polling, f: Facts, v: View<Recovery>, a: Action<Recovery>, l': Position)
    requires Parsed(args) && FactsExplain(args, f, v) && Fits(args, Observing(id, q), f, v)
    requires Next(args, Observing(id, q), a, l') && Truthful(v, a)
    ensures Kept(args, l', f, v, a)
  {
    if !q.Over? { PollKeepsFit((r: Recovery) => IsAccepted(id, r), true, args.human, q, v, a, l'.poll); }
  }

  lemma FinishKeeps(args: Args, e: Ending, f: Facts, v: View<Recovery>, a: Action<Recovery>, l': Position)
    requires Parsed(args) && FactsExplain(args, f, v) && Fits(args, Finishing(e), f, v)
    requires Next(args, Finishing(e), a, l') && Truthful(v, a)
    ensures Kept(args, l', f, v, a)
  {
    EndKeepsFit(e, v, a, l'.ending);
  }

  lemma OthersKeep(args: Args, l: Position, f: Facts, v: View<Recovery>, a: Action<Recovery>, l': Position)
    requires Parsed(args) && FactsExplain(args, f, v) && Fits(args, l, f, v)
    requires l.Preparing? || l.Keyed? || l.RecordingAcceptance? || l.StartingTimer?
    requires Next(args, l, a, l') && Truthful(v, a)
    ensures Kept(args, l', f, v, a)
  {
  }

  lemma NextKeeps(args: Args, l: Position, f: Facts, v: View<Recovery>, a: Action<Recovery>, l': Position)
    requires Parsed(args) && FactsExplain(args, f, v) && Fits(args, l, f, v)
    requires Next(args, l, a, l') && Truthful(v, a)
    ensures Kept(args, l', f, v, a)
  {
    match l
    case Staging(g) => StageKeeps(args, g, f, v, a, l');
    case Submitting(chosen, u) => SubmitKeeps(args, chosen, u, f, v, a, l');
    case Observing(id, q) => ObserveKeeps(args, id, q, f, v, a, l');
    case Finishing(e) => FinishKeeps(args, e, f, v, a, l');
    case _ => OthersKeep(args, l, f, v, a, l');
  }

  // ---- Every run ----

  ghost predicate Inv(args: Args, l: Position, t: Trace<Recovery>) {
    var f, v := FactsOf(t), ViewOf(t, NewRecovery(args.explicitId));
    && FactsExplain(args, f, v)
    && Fits(args, l, f, v)
    && HonestRequests(args, t)
    && PhasesAdvance(args, t)
    && Counted(args, t)
    && AttemptsFit(args, l, t)
  }

  // ---- How often each request is made ----

  function Allocations(t: Trace<Recovery>): nat {
    if t.Idle? then 0 else Allocations(t.past) + if t.action == Send(AllocateSet) then 1 else 0
  }

  function Seals(t: Trace<Recovery>): nat {
    if t.Idle? then 0 else Seals(t.past) + if t.action.Send? && t.action.request.SealSet? then 1 else 0
  }

  function Posts(t: Trace<Recovery>): nat {
    if t.Idle? then 0 else Posts(t.past) + if t.action.Send? && t.action.request.Mutation? then 1 else 0
  }

  function AllocationsLeft(human: bool, l: Position): nat {
    if !l.Staging? then (if l.Preparing? || l.Keyed? then AttemptLimit(human) else 0)
    else match l.stage
      case Allocating(k) => AttemptsLeft(human, k)
      case AllocationAdmitted(k) => AttemptsLeft(human, k)
      case AllocationSent(k) => AttemptsLeft(human, k) - 1
      case _ => 0
  }

  function SealsLeft(human: bool, l: Position): nat {
    if !l.Staging? then (if l.Preparing? || l.Keyed? then AttemptLimit(human) else 0)
    else match l.stage
      case Sealing(_, k) => AttemptsLeft(human, k)
      case SealAdmitted(_, k) => AttemptsLeft(human, k)
      case SealSent(_, k) => AttemptsLeft(human, k) - 1
      case StagingFailed => 0
      case _ => AttemptLimit(human)
  }

  function PostsLeft(human: bool, l: Position): nat {
    if !l.Submitting? then (if l.Preparing? || l.Keyed? || l.Staging? then AttemptLimit(human) else 0)
    else match l.submission
      case Trying(_, k) => AttemptsLeft(human, k)
      case PostAdmitted(_, k) => AttemptsLeft(human, k)
      case PostSent(_, k) => AttemptsLeft(human, k) - 1
      case SubmissionErred => 0
      case _ => AttemptLimit(human)
  }

  ghost predicate AttemptsFit(args: Args, l: Position, t: Trace<Recovery>) {
    && Allocations(t) + AllocationsLeft(args.human, l) <= AttemptLimit(args.human)
    && Seals(t) + SealsLeft(args.human, l) <= AttemptLimit(args.human)
    && Posts(t) + PostsLeft(args.human, l) <= AttemptLimit(args.human)
  }

  lemma {:induction false} AllocationsAdvance(
      args: Args, l: Position, t: Trace<Recovery>, a: Action<Recovery>, l': Position)
    requires Next(args, l, a, l')
    ensures Allocations(Then(t, a)) + AllocationsLeft(args.human, l') <= Allocations(t) + AllocationsLeft(args.human, l)
  {
  }

  lemma {:induction false} SealsAdvance(
      args: Args, l: Position, t: Trace<Recovery>, a: Action<Recovery>, l': Position)
    requires Next(args, l, a, l')
    ensures Seals(Then(t, a)) + SealsLeft(args.human, l') <= Seals(t) + SealsLeft(args.human, l)
  {
  }

  lemma {:induction false} PostsAdvance(
      args: Args, l: Position, t: Trace<Recovery>, a: Action<Recovery>, l': Position)
    requires Next(args, l, a, l')
    ensures Posts(Then(t, a)) + PostsLeft(args.human, l') <= Posts(t) + PostsLeft(args.human, l)
  {
  }

  // ---- Reads and lines ----

  /** No reads and lines without waiting, no repeated read without a human session. */
  ghost predicate Counted(args: Args, t: Trace<Recovery>) {
    && (!args.wait ==> Lines(t) == 0 && Gets(t) == 0)
    && (!args.human ==> Gets(t) == Reads(t))
  }

  lemma {:induction false} CountedAdvances(args: Args, t: Trace<Recovery>, a: Action<Recovery>)
    requires Counted(args, t) && (IsLine(a) || a.Get? ==> args.wait) && (IsRepeat(a) ==> args.human)
    ensures Counted(args, Then(t, a))
  {
  }

  ghost function Outline(args: Args): (Position, Trace<Recovery>) -> bool {
    (l, t) => Inv(args, l, t)
  }

  lemma {:induction false} InvAdvances(args: Args, l: Position, t: Trace<Recovery>, a: Action<Recovery>, l': Position)
    requires Parsed(args) && Inv(args, l, t) && Next(args, l, a, l')
    requires Truthful(ViewOf(t, NewRecovery(args.explicitId)), a)
    ensures Permitted(ViewOf(t, NewRecovery(args.explicitId)), a) && Inv(args, l', Then(t, a))
  {
    ViewAdvances(t, NewRecovery(args.explicitId), a);
    NextKeeps(args, l, FactsOf(t), ViewOf(t, NewRecovery(args.explicitId)), a, l');
    CountedAdvances(args, t, a);
    AllocationsAdvance(args, l, t, a, l');
    SealsAdvance(args, l, t, a, l');
    PostsAdvance(args, l, t, a, l');
  }

  lemma CommandConforms(args: Args)
    requires Parsed(args)
    ensures Conforms(Command(args), NewRecovery(args.explicitId), Outline(args))
  {
    var recovery := NewRecovery(args.explicitId);
    forall l, t, a, l' | Outline(args)(l, t) && Command(args).next(l, a, l') && Truthful(ViewOf(t, recovery), a)
      ensures Permitted(ViewOf(t, recovery), a) && Outline(args)(l', Then(t, a))
    {
      InvAdvances(args, l, t, a, l');
    }
  }

  const SUPERVISED := Config(Deferred, false)

  ghost predicate IsCreateRun(args: Args, run: seq<System<Position, Recovery>>) {
    Parsed(args) && IsRun(Command(args), SUPERVISED, NewRecovery(args.explicitId), run)
  }

  /** What is known of every state of every run. */
  lemma {:induction false} EveryStateIsExplained(args: Args, run: seq<System<Position, Recovery>>, i: nat)
    requires IsCreateRun(args, run) && i < |run|
    ensures Sound(SUPERVISED, NewRecovery(args.explicitId), run[i]) && Inv(args, run[i].local, run[i].trace)
  {
    CommandConforms(args);
    EveryRunIsSound(Command(args), SUPERVISED, NewRecovery(args.explicitId), run, i);
    LocalProofHolds(Command(args), SUPERVISED, NewRecovery(args.explicitId), Outline(args), run, i);
  }

  /** After a claim nothing changes but that the request already let through may leave. */
  lemma {:induction false} FactsAreFrozen(at: Trace<Recovery>, t: Trace<Recovery>)
    requires RefusedSince(at, t)
    ensures FactsOf(t) == FactsOf(at).(sealed := FactsOf(t).sealed, sent := FactsOf(t).sent)
  {
    if at != t { FactsAreFrozen(at, t.past); }
  }

  /** A set is allocated and sealed, and the run posted, at most twice under a service key and four times under
      a human session. */
  lemma {:induction false} AttemptsAreBounded(args: Args, run: seq<System<Position, Recovery>>, i: nat)
    requires IsCreateRun(args, run) && i < |run|
    ensures var limit := if args.human then 4 else 2;
            Allocations(run[i].trace) <= limit && Seals(run[i].trace) <= limit && Posts(run[i].trace) <= limit
  {
    EveryStateIsExplained(args, run, i);
  }

  /** In every reachable state, whoever reads it, the recovery value is the one the facts call for, with
      the input set's provenance; so the failure documents the worker itself writes say no more and no
      less than what was let out. */
  lemma {:induction false} RecoveryTellsTheTruth(args: Args, run: seq<System<Position, Recovery>>, i: nat)
    requires IsCreateRun(args, run) && i < |run|
    ensures var r, f := run[i].control.recovery, FactsOf(run[i].trace);
            && (r.Accepted? <==> f.accepted.Some?)
            && (r.Accepted? ==> f.accepted == Some(r.snapshot.runId))
            && (r.RunDispatched? <==> f.run && f.accepted.None?)
            && (r.RunDispatched? ==> r == RunDispatched(InputSetFor(args, f), Some(args.key)))
            && (r.InputSetAllocationDispatched? <==> f.allocation && f.setId.None? && !f.run)
            && (run[i].control.dispatched <==> f.allocation || f.run)
  {
    EveryStateIsExplained(args, run, i);
  }

  /** Whatever the interleaving, the handler's classification is what really happened:
      - nowhere, if no request of any kind was ever let out;
      - an unknown input set, if an allocation was let out and its set never recorded;
      - an input set only, one this invocation allocated and recorded, before any run request;
      - an unknown run, if a run request was let out and its acceptance not recorded, with the key and the
        input set that every run request of this invocation carries;
      - an accepted run, the one whose acceptance was recorded. */
  lemma {:induction false} ClassificationTellsTheTruth(args: Args, run: seq<System<Position, Recovery>>, i: nat)
    requires IsCreateRun(args, run) && i < |run| && run[i].supervisor.Handling?
    ensures var t, c := run[i].trace, Classify(run[i].supervisor.snapshot);
            var f := FactsOf(t);
            && run[i].claim.Some? && f == FactsOf(run[i].claim.value.at).(sealed := f.sealed, sent := f.sent)
            && (c.Nowhere? <==> !f.allocation && !f.run)
            && (c.Nowhere? ==> Sends(t) == 0)
            && (c.InputSetUnknown? <==> f.allocation && f.setId.None? && !f.run)
            && (c.InputSetOnly? <==> f.setId.Some? && !f.run)
            && (c.InputSetOnly? ==> f.setId == Some(c.id) && args.explicitId.None?)
            && (c.RunUnknown? <==> f.run && f.accepted.None?)
            && (c.RunUnknown? ==> c == RunUnknown(IdOf(InputSetFor(args, f)), Some(args.key)))
            && (c.AcceptedRun? <==> f.accepted.Some?)
            && (c.AcceptedRun? ==> f.accepted == Some(c.snapshot.runId))
            && HonestRequests(args, t)
  {
    EveryStateIsExplained(args, run, i);
    FactsAreFrozen(run[i].claim.value.at, run[i].trace);
    FencedSendsWereAdmitted(run[i].trace);
  }

  // ---- What the handler writes, which says more than it knows ----

  /** Exactly when acceptance is said to be unknown: always, unless a run was accepted, or a plain-text
      command has only an allocated input set to report. A key is named exactly when a run request was let
      out, and it is the key. The input set is named exactly when one was recorded or a run request let out,
      and no run was accepted; an accepted run is always named, as it was last recorded. */
  lemma {:induction false} UnknownIsSaidExactlyWhen(
      args: Args, json: bool, run: seq<System<Position, Recovery>>, i: nat)
    requires IsCreateRun(args, run) && i < |run| && run[i].supervisor.Handling?
    ensures var f, o := FactsOf(run[i].trace), SignalOutput(run[i].supervisor.snapshot, json);
            && (SaysUnknown(o) <==> f.accepted.None? && !(f.setId.Some? && !f.run && !json))
            && (SaysUnknown(o) ==> o.statement.value.key == if f.run then Some(args.key) else None)
            && o.inputSetId ==
                 (if f.accepted.None? && (f.run || f.setId.Some?) then IdOf(InputSetFor(args, f)) else None)
            && (SaysStopped(o) <==> f.accepted.Some?)
            && (SaysStopped(o) ==>
                  && f.accepted == Some(o.statement.value.snapshot.runId)
                  && Written(run[i].trace, NewRecovery(args.explicitId)) == Accepted(o.statement.value.snapshot))
  {
    ClassificationTellsTheTruth(args, run, i);
    EveryStateIsExplained(args, run, i);
  }

  /** It is a false alarm exactly when no run request was admitted: then none has left and none ever
      will; otherwise one has left or is about to. */
  lemma {:induction false} FalseAlarmExactlyWhen(args: Args, run: seq<System<Position, Recovery>>, i: nat, j: nat)
    requires IsCreateRun(args, run) && i <= j < |run| && run[i].supervisor.Handling?
    ensures FactsOf(run[j].trace).run == FactsOf(run[i].trace).run
    ensures !FactsOf(run[i].trace).run ==> !FactsOf(run[j].trace).sent
    ensures FactsOf(run[i].trace).run ==> FactsOf(run[j].trace).sent || AboutToPost(run[j].local)
  {
    EveryStateIsExplained(args, run, i);
    EveryStateIsExplained(args, run, j);
    OwnershipSettlesOnce(Command(args), SUPERVISED, NewRecovery(args.explicitId), run, i, j);
    FactsAreFrozen(run[i].claim.value.at, run[i].trace);
    FactsAreFrozen(run[i].claim.value.at, run[j].trace);
  }

  /** Such a run, for any arguments: an interrupt before anything at all is reported as acceptance unknown. */
  lemma UnknownBeforeAnyRequest(args: Args, json: bool, code: int) returns (run: seq<System<Position, Recovery>>)
    requires Parsed(args)
    ensures IsCreateRun(args, run) && |run| == 4 && run[2].supervisor.Handling? && run[2].trace.Idle?
    ensures SaysUnknown(SignalOutput(run[2].supervisor.snapshot, json))
  {
    run := [Initial(Command(args), NewRecovery(args.explicitId))];
    run := ExtendByInterrupt(Command(args), SUPERVISED, NewRecovery(args.explicitId), run, code);
  }

  // ---- The fence ----

  /** Once a stop is being handled no request is admitted any more, in staging, in retries or after a
      credential refresh. At most the one mutation already let through still leaves, or the one read,
      which may be two requests; and at most one progress line follows. */
  lemma {:induction false} StopFencesDispatch(args: Args, run: seq<System<Position, Recovery>>, i: nat, j: nat)
    requires IsCreateRun(args, run) && i <= j < |run| && run[i].supervisor.Handling?
    ensures run[i].claim.Some? && FencedAfter(run[i].claim.value.at, run[j].trace)
    ensures !run[i].supervisor.snapshot.dispatched ==> Sends(run[j].trace) == 0
  {
    EveryStateIsExplained(args, run, j);
    SnapshotTellsTheTruth(Command(args), SUPERVISED, NewRecovery(args.explicitId), run, i, j);
  }

  ghost function Last(run: seq<System<Position, Recovery>>): System<Position, Recovery>
    requires run != []
  {
    run[|run| - 1]
  }

  lemma Act(args: Args, run: seq<System<Position, Recovery>>, a: Action<Recovery>, l': Position)
      returns (longer: seq<System<Position, Recovery>>)
    requires IsCreateRun(args, run) && IsOpen(Last(run)) && Next(args, Last(run).local, a, l') && Answers(Last(run), a)
    requires !a.Finish? && (a.Ask? ==> Grant(Last(run).control, a.op).owner == Active)
    ensures IsCreateRun(args, longer) && |longer| > 0 && IsOpen(Last(longer)) && Last(longer) == Acted(Last(run), a, l')
  {
    longer := ExtendOpen(Command(args), SUPERVISED, NewRecovery(args.explicitId), run, a, l');
  }

  /** Any arguments lead to the point where the run is about to be posted. */
  lemma ReachSubmission(args: Args) returns (run: seq<System<Position, Recovery>>)
    requires Parsed(args)
    ensures IsCreateRun(args, run) && |run| > 0 && IsOpen(Last(run))
    ensures Last(run).local.Submitting? && Last(run).local.submission == Ready
  {
    run := [Initial(Command(args), NewRecovery(args.explicitId))];
    run := Act(args, run, Internal, Keyed);
    if args.hasInputs {
      run := Act(args, run, ReadStop(false), Staging(Allocating(FIRST)));
      run := ReachSealed(args, run);
    } else {
      run := Act(args, run, ReadStop(false), Submitting(args.explicitId, Ready));
    }
  }

  lemma ReachSealed(args: Args, start: seq<System<Position, Recovery>>) returns (run: seq<System<Position, Recovery>>)
    requires IsCreateRun(args, start) && |start| > 0 && IsOpen(Last(start))
    requires Last(start).local == Staging(Allocating(FIRST))
    ensures IsCreateRun(args, run) && |run| > 0 && IsOpen(Last(run)) && Last(run).local == Submitting(Some("s"), Ready)
  {
    run := ReachStaged(args, start);
    run := Act(args, run, Internal, Staging(CheckingUploads("s")));
    run := Act(args, run, ReadStop(false), Staging(Sealing("s", FIRST)));
    run := Act(args, run, Ask(BeginDispatch, true), Staging(SealAdmitted("s", FIRST)));
    run := Act(args, run, Send(SealSet("s")), Staging(SealSent("s", FIRST)));
    run := Act(args, run, Internal, Submitting(Some("s"), Ready));
  }

  lemma ReachStaged(args: Args, start: seq<System<Position, Recovery>>) returns (run: seq<System<Position, Recovery>>)
    requires IsCreateRun(args, start) && |start| > 0 && IsOpen(Last(start))
    requires Last(start).local == Staging(Allocating(FIRST))
    ensures IsCreateRun(args, run) && |run| > 0 && IsOpen(Last(run)) && Last(run).local == Staging(Uploading("s"))
  {
    var dispatched, recorded := InputSetAllocationDispatched, BeforeRunDispatch(Some(Allocated("s")));
    run := Act(args, start, Ask(BeginDispatchWithRecovery(dispatched), true), Staging(AllocationAdmitted(FIRST)));
    run := Act(args, run, Send(AllocateSet), Staging(AllocationSent(FIRST)));
    run := Act(args, run, Internal, Staging(RecordingSet("s")));
    run := Act(args, run, Ask(UpdateRecovery(recorded), true), Staging(CheckingSet("s")));
    run := Act(args, run, ReadStop(false), Staging(Uploading("s")));
  }

  /** And, if the command waits, to the point where an admitted read is about to leave. */
  lemma ReachReading(args: Args) returns (run: seq<System<Position, Recovery>>)
    requires Parsed(args) && args.wait
    ensures IsCreateRun(args, run) && |run| > 0 && IsOpen(Last(run)) && Last(run).local == Observing("r", Reading)
  {
    run := ReachAcceptance(args);
    run := Act(args, run, Ask(UpdateRecovery(Accepted(CloudSnapshot("r", 0))), true), StartingTimer("r"));
    run := Act(args, run, StartTimer, Observing("r", CheckFirst));
    run := Act(args, run, ReadStop(false), Observing("r", CheckSecond));
    run := Act(args, run, ReadStop(false), Observing("r", Admit));
    run := Act(args, run, Ask(AdmitRead, true), Observing("r", Reading));
  }

  lemma ReachAcceptance(args: Args) returns (run: seq<System<Position, Recovery>>)
    requires Parsed(args)
    ensures IsCreateRun(args, run) && |run| > 0 && IsOpen(Last(run))
    ensures Last(run).local == RecordingAcceptance(CloudSnapshot("r", 0))
  {
    run := ReachSubmission(args);
    var chosen, r := Last(run).local.chosen, Last(run).control.recovery;
    var plan := WithRunKey(ToRunDispatched(r), args.key);
    run := Act(args, run, ReadStop(false), Submitting(chosen, Planning));
    run := Act(args, run, ReadRecovery(r), Submitting(chosen, Trying(plan, FIRST)));
    run := Act(args, run, Ask(BeginDispatchWithRecovery(plan), true), Submitting(chosen, PostAdmitted(plan, FIRST)));
    run := Act(args, run, Send(Mutation(args.key, chosen)), Submitting(chosen, PostSent(plan, FIRST)));
    run := Act(args, run, Internal, RecordingAcceptance(CloudSnapshot("r", 0)));
  }

  // ---- What the command can do ----

  ghost predicate IsAt(args: Args, run: seq<System<Position, Recovery>>, l: Position) {
    IsCreateRun(args, run) && |run| > 0 && IsOpen(Last(run)) && Last(run).local == l
  }

  lemma ReachStaging(args: Args) returns (run: seq<System<Position, Recovery>>)
    requires Parsed(args) && args.hasInputs
    ensures IsAt(args, run, Staging(Allocating(FIRST)))
  {
    run := [Initial(Command(args), NewRecovery(args.explicitId))];
    run := Act(args, run, Internal, Keyed);
    run := Act(args, run, ReadStop(false), Staging(Allocating(FIRST)));
  }

  /** Any number of members is uploaded, each under an admission of its own. */
  lemma UploadsAreRepeated(args: Args, start: seq<System<Position, Recovery>>, id: string)
      returns (run: seq<System<Position, Recovery>>)
    requires IsAt(args, start, Staging(Uploading(id)))
    ensures IsAt(args, run, Staging(Uploading(id)))
    ensures Sends(Last(run).trace) == Sends(Last(start).trace) + 1
  {
    run := Act(args, start, Ask(BeginDispatch, true), Staging(UploadAdmitted(id)));
    assert Sends(Last(run).trace) == Sends(Last(start).trace);
    run := Act(args, run, Send(UploadMember(id)), Staging(Uploading(id)));
  }

  /** An allocation whose answer is lost is asked for again. */
  lemma AllocationIsRepeated(args: Args) returns (run: seq<System<Position, Recovery>>)
    requires Parsed(args) && args.hasInputs
    ensures IsAt(args, run, Staging(Allocating(Tries(false, true)))) && FactsOf(Last(run).trace).allocation
  {
    run := ReachStaging(args);
    var dispatched := InputSetAllocationDispatched;
    run := Act(args, run, Ask(BeginDispatchWithRecovery(dispatched), true), Staging(AllocationAdmitted(FIRST)));
    assert FactsOf(Last(run).trace).allocation;
    run := Act(args, run, Send(AllocateSet), Staging(AllocationSent(FIRST)));
    assert FactsOf(Last(run).trace).allocation;
    run := Act(args, run, Internal, Staging(Allocating(Tries(false, true))));
  }

  datatype Point = AtAllocating | AtAllocated | AtUploading | AtSealing | AtSealed

  /** Staging can fail at any of these points, and the failure is published. */
  lemma StagingCanFail(args: Args, point: Point) returns (run: seq<System<Position, Recovery>>)
    requires Parsed(args) && args.hasInputs
    ensures IsAt(args, run, Finishing(Completing(false)))
  {
    run := ReachStaging(args);
    if point.AtAllocated? {
      var dispatched := InputSetAllocationDispatched;
      run := Act(args, run, Ask(BeginDispatchWithRecovery(dispatched), true), Staging(AllocationAdmitted(FIRST)));
      run := Act(args, run, Send(AllocateSet), Staging(AllocationSent(FIRST)));
    } else if !point.AtAllocating? {
      run := ReachStaged(args, run);
      if !point.AtUploading? { run := ReachSealing(args, run, point.AtSealed?); }
    }
    run := Act(args, run, Internal, Staging(StagingFailed));
    run := Act(args, run, ReadRecovery(Last(run).control.recovery), Finishing(Completing(false)));
  }

  /** A seal whose answer is lost is asked for again. */
  lemma ReachSealing(args: Args, start: seq<System<Position, Recovery>>, sealed: bool)
      returns (run: seq<System<Position, Recovery>>)
    requires IsAt(args, start, Staging(Uploading("s")))
    ensures IsAt(args, run, Staging(if sealed then SealSent("s", FIRST) else Sealing("s", Tries(false, true))))
  {
    run := Act(args, start, Internal, Staging(CheckingUploads("s")));
    run := Act(args, run, ReadStop(false), Staging(Sealing("s", FIRST)));
    run := Act(args, run, Ask(BeginDispatch, true), Staging(SealAdmitted("s", FIRST)));
    run := Act(args, run, Send(SealSet("s")), Staging(SealSent("s", FIRST)));
    if !sealed { run := Act(args, run, Internal, Staging(Sealing("s", Tries(false, true)))); }
  }

  lemma ReachTrying(args: Args) returns (run: seq<System<Position, Recovery>>, chosen: Option<string>, plan: Recovery)
    requires Parsed(args)
    ensures IsAt(args, run, Submitting(chosen, Trying(plan, FIRST))) && Posts(Last(run).trace) == 0
  {
    run := ReachSubmission(args);
    chosen := Last(run).local.chosen;
    var r := Last(run).control.recovery;
    plan := WithRunKey(ToRunDispatched(r), args.key);
    EveryStateIsExplained(args, run, |run| - 1);
    assert Posts(Last(run).trace) == 0;
    run := Act(args, run, ReadStop(false), Submitting(chosen, Planning));
    assert Posts(Last(run).trace) == 0;
    run := Act(args, run, ReadRecovery(r), Submitting(chosen, Trying(plan, FIRST)));
  }

  /** One attempt, under an admission of its own, whose answer is lost or which is rejected. */
  lemma CanPost(
      args: Args, start: seq<System<Position, Recovery>>, chosen: Option<string>, plan: Recovery, k: Tries)
    returns (run: seq<System<Position, Recovery>>)
    requires IsAt(args, start, Submitting(chosen, Trying(plan, k)))
    ensures IsAt(args, run, Submitting(chosen, PostSent(plan, k)))
    ensures Posts(Last(run).trace) == Posts(Last(start).trace) + 1
  {
    run := Act(args, start, Ask(BeginDispatchWithRecovery(plan), true), Submitting(chosen, PostAdmitted(plan, k)));
    assert Posts(Last(run).trace) == Posts(Last(start).trace);
    run := Act(args, run, Send(Mutation(args.key, chosen)), Submitting(chosen, PostSent(plan, k)));
  }

  lemma CanPostTwice(
      args: Args, start: seq<System<Position, Recovery>>, chosen: Option<string>, plan: Recovery, rerun: bool)
    returns (run: seq<System<Position, Recovery>>)
    requires IsAt(args, start, Submitting(chosen, Trying(plan, Tries(rerun, false))))
    ensures IsAt(args, run, Submitting(chosen, PostSent(plan, Tries(rerun, true))))
    ensures Posts(Last(run).trace) == Posts(Last(start).trace) + 2
  {
    run := CanPost(args, start, chosen, plan, Tries(rerun, false));
    run := Act(args, run, Internal, Submitting(chosen, Trying(plan, Tries(rerun, true))));
    assert Posts(Last(run).trace) == Posts(Last(start).trace) + 1;
    run := CanPost(args, run, chosen, plan, Tries(rerun, true));
  }

  /** The bound on attempts is met, for any arguments. */
  lemma AllPostsCanBeMade(args: Args)
      returns (run: seq<System<Position, Recovery>>, chosen: Option<string>, plan: Recovery, k: Tries)
    requires Parsed(args)
    ensures IsAt(args, run, Submitting(chosen, PostSent(plan, k)))
    ensures Posts(Last(run).trace) == if args.human then 4 else 2
  {
    run, chosen, plan := ReachTrying(args);
    run := CanPostTwice(args, run, chosen, plan, false);
    k := Tries(false, true);
    if args.human {
      run := Act(args, run, Internal, Submitting(chosen, Trying(plan, Tries(true, false))));
      assert Posts(Last(run).trace) == 2;
      run := CanPostTwice(args, run, chosen, plan, true);
      k := Tries(true, true);
    }
  }

  /** A failure, before the first run request or after the last, is published. */
  lemma PostCanFail(args: Args, sent: bool, erred: bool) returns (run: seq<System<Position, Recovery>>)
    requires Parsed(args)
    ensures IsAt(args, run, Finishing(Completing(false)))
  {
    var chosen, plan;
    if sent {
      var k;
      run, chosen, plan, k := AllPostsCanBeMade(args);
    } else {
      run, chosen, plan := ReachTrying(args);
    }
    if erred {
      run := Act(args, run, Internal, Submitting(chosen, SubmissionErred));
      run := Act(args, run, ReadRecovery(Last(run).control.recovery), Finishing(Completing(false)));
    } else {
      run := Act(args, run, Internal, Finishing(Completing(false)));
    }
  }

  /** An error before anything was asked for is returned. */
  lemma ErrorIsReturned(args: Args) returns (run: seq<System<Position, Recovery>>)
    requires Parsed(args)
    ensures IsCreateRun(args, run) && |run| > 0 && Last(run).supervisor == Returned(Worker(Failed))
  {
    var p, recovery := Command(args), NewRecovery(args.explicitId);
    run := [Initial(p, recovery)];
    run := ExtendByAction(p, SUPERVISED, recovery, run, Finish(Failed), Finishing(Ended));
    run := ExtendByReturn(p, SUPERVISED, recovery, run);
  }

  // ---- What follows a report ----

  ghost predicate HandlerAnswered(s: System<Position, Recovery>) {
    s.supervisor.Returned? && s.supervisor.speaker.Handler? && s.claim.Some?
  }

  /** From there a read request follows the handler's report ... */
  lemma ReadFollowsTheReport(args: Args) returns (run: seq<System<Position, Recovery>>)
    requires Parsed(args) && args.wait
    ensures IsCreateRun(args, run) && |run| > 0 && HandlerAnswered(Last(run)) && Last(run).done.None?
    ensures GetsAfterStop(Last(run)) == 1 && Lines(Last(run).trace) == Lines(Last(run).claim.value.at)
    ensures Last(run).local == Observing("r", Answered)
  {
    var p, recovery := Command(args), NewRecovery(args.explicitId);
    run := ReachReading(args);
    run := ExtendByInterrupt(p, SUPERVISED, recovery, run, 130);
    run := ExtendByAction(p, SUPERVISED, recovery, run, Get(false), Observing("r", Answered));
  }

  /** ... under a human session a second one, and then a progress line. */
  lemma ReadsFollowTheReport(args: Args, repeated: bool) returns (run: seq<System<Position, Recovery>>)
    requires Parsed(args) && args.wait && (repeated ==> args.human)
    ensures IsCreateRun(args, run) && |run| > 0 && HandlerAnswered(Last(run))
    ensures GetsAfterStop(Last(run)) == (if repeated then 2 else 1) && LineAfterStop(Last(run))
  {
    var p, recovery := Command(args), NewRecovery(args.explicitId);
    run := ReadFollowsTheReport(args);
    ghost var before := Last(run);
    var again := if repeated then Get(true) else Internal;
    run := ExtendByAction(p, SUPERVISED, recovery, run, again, Observing("r", Recording));
    assert GetsAfterStop(Last(run)) == (if repeated then 2 else 1) && Lines(Last(run).trace) == Lines(before.trace);
    run := ExtendByAction(p, SUPERVISED, recovery, run, Print(Line), Observing("r", Narrated));
  }

  /** Every state of every run with these arguments has at most `n` read requests after a stop. */
  ghost predicate AtMostLate(args: Args, n: int) {
    forall run, i: nat :: IsCreateRun(args, run) && i < |run| ==> GetsAfterStop(run[i]) <= n
  }

  /** A read request can follow a stop exactly when the command waits, a second one exactly when it also acts
      under a human session, and never a third. */
  lemma LateReadsExactlyWhen(args: Args)
    requires Parsed(args)
    ensures args.wait <==> !AtMostLate(args, 0)
    ensures args.wait && args.human <==> !AtMostLate(args, 1)
    ensures AtMostLate(args, 2)
  {
    forall run, i: nat | IsCreateRun(args, run) && i < |run|
      ensures GetsAfterStop(run[i]) <= 2
      ensures !(args.wait && args.human) ==> GetsAfterStop(run[i]) <= 1
      ensures !args.wait ==> GetsAfterStop(run[i]) <= 0
    {
      EveryStateIsExplained(args, run, i);
      LateReadsAreBounded(SUPERVISED, NewRecovery(args.explicitId), run[i]);
    }
    if args.wait {
      var run := ReadsFollowTheReport(args, args.human);
      assert GetsAfterStop(run[|run| - 1]) == if args.human then 2 else 1;
    }
  }

  /** A progress line can follow a stop exactly when the command waits. */
  lemma LateLineExactlyWhenWaiting(args: Args)
    requires Parsed(args)
    ensures args.wait <==> !forall run, i: nat :: IsCreateRun(args, run) && i < |run| ==> !LineAfterStop(run[i])
  {
    if args.wait {
      var run := ReadsFollowTheReport(args, false);
      assert LineAfterStop(run[|run| - 1]);
    } else {
      forall run, i: nat | IsCreateRun(args, run) && i < |run| ensures !LineAfterStop(run[i]) {
        EveryStateIsExplained(args, run, i);
      }
    }
  }

  /** The timer is armed only by an accepted run, so its handler always has one to name: that run. */
  lemma {:induction false} TimeoutNamesTheRun(args: Args, run: seq<System<Position, Recovery>>, i: nat)
    requires IsCreateRun(args, run) && i < |run|
    requires run[i].supervisor.Handling? && run[i].supervisor.cause.Timeout?
    ensures run[i].supervisor.snapshot.recovery.Accepted?
    ensures FactsOf(run[i].trace).accepted == Some(run[i].supervisor.snapshot.recovery.snapshot.runId)
  {
    EveryStateIsExplained(args, run, i);
    StillTimed(run[i].claim.value.at, run[i].trace);
  }

  /** The output arm that follows a stopped observation is never entered, nothing is printed when a
      handler speaks, and no placeholder status is returned. */
  lemma {:induction false} LosersArmIsDead(args: Args, run: seq<System<Position, Recovery>>, i: nat)
    requires IsCreateRun(args, run) && i < |run|
    ensures run[i].local != Finishing(LosersArm)
    ensures run[i].supervisor.Returned? ==>
              match run[i].supervisor.speaker
              case Handler(cause) => run[i].claim.Some? && !Printed(run[i].trace)
              case Worker(result) => run[i].claim.None? && result != Placeholder
  {
    CommandConforms(args);
    LocalProofHolds(Command(args), SUPERVISED, NewRecovery(args.explicitId), Outline(args), run, i);
    if run[i].supervisor.Returned? {
      OneSpeaker(Command(args), SUPERVISED, NewRecovery(args.explicitId), Outline(args), run, i);
    }
  }

  lemma {:induction false} PhaseIsWritten(args: Args, run: seq<System<Position, Recovery>>, i: nat)
    requires IsCreateRun(args, run) && i < |run|
    ensures run[i].control.recovery == Written(run[i].trace, NewRecovery(args.explicitId))
    ensures PhasesAdvance(args, run[i].trace)
  {
    EveryStateIsExplained(args, run, i);
  }

  /** Recovery phases only advance, whoever takes the next step. */
  lemma {:induction false} PhasesOnlyAdvance(args: Args, run: seq<System<Position, Recovery>>, i: nat, j: nat)
    requires IsCreateRun(args, run) && i <= j < |run|
    ensures Phase(run[i].control.recovery) <= Phase(run[j].control.recovery)
    decreases j
  {
    if i < j {
      PhasesOnlyAdvance(args, run, i, j - 1);
      PhaseIsWritten(args, run, j - 1);
      PhaseIsWritten(args, run, j);
      TraceGrows(Command(args), SUPERVISED, NewRecovery(args.explicitId), run, j);
    }
  }
}
