/** `runner delete` and `runner pool delete`: resolve the resource, then delete it by ID. */
module RunnerDeletion {
  import opened Basics
  import opened Ownership
  import opened Supervision
  import opened WorkerParts

  /** The resolved resource, once known. */
  type Recovery = Option<string>

  /** `human`: the command acts under a human session and not under a service key. */
  datatype Args = Args(key: string, human: bool)

  datatype Position =
    | Resolving
    | Resolved(id: string)
    | Checking(id: string)
    | Identified(id: string)
    | Trying(id: string, rerun: bool)
    | Admitted(id: string, rerun: bool)
    | Sent(id: string, rerun: bool)
    | Finishing(ending: Ending)

  /** A refused dispatch makes the request look unreachable; `Completing(true)` completes with that
      pretended result. The answer to recording the ID is not looked at. A deletion is made once, and once more
      under a human session after a rejected credential was renewed. */
  ghost predicate Next(args: Args, l: Position, a: Action<Recovery>, l': Position) {
    match l
    case Resolving =>
      || (a.Internal? && (l'.Resolved? || l' == Finishing(Completing(false))))
      || (a == Finish(Failed) && l' == Finishing(Ended))
    case Resolved(id) => a.Ask? && a.op == UpdateRecovery(Some(id)) && l' == Checking(id)
    case Checking(id) => a.ReadStop? && l' == if a.stopped then Finishing(Quitting) else Identified(id)
    case Identified(id) => (a.Internal? && l' == Trying(id, false)) || (a == Finish(Failed) && l' == Finishing(Ended))
    case Trying(id, rerun) =>
      || (a.Ask? && a.op.BeginDispatch?
          && l' == if a.granted then Admitted(id, rerun) else Finishing(Completing(true)))
      || (a.Internal? && l' == Finishing(Completing(false)))
      || (a == Finish(Failed) && l' == Finishing(Ended))
    case Admitted(id, rerun) => a == Send(Mutation(args.key, Some(id))) && l' == Sent(id, rerun)
    case Sent(id, rerun) =>
      || (a.Internal? && args.human && !rerun && l' == Trying(id, true))
      || (a.Internal? && l' == Finishing(Completing(false)))
      || (a == Finish(Failed) && l' == Finishing(Ended))
    case Finishing(e) => l'.Finishing? && EndNext(e, a, l'.ending)
  }

  ghost function Command(args: Args): Program<Position, Recovery> {
    Program(Resolving, (l, a, l') => Next(args, l, a, l'))
  }

  /** Every deletion names the recorded resource. */
  ghost predicate Named(key: string, t: Trace<Recovery>) {
    t.Then? ==>
      && Named(key, t.past)
      && (t.action.Send? ==> Written(t, None).Some? && t.action.request == Mutation(key, Written(t, None)))
  }

  ghost predicate Fits(l: Position, v: View<Recovery>) {
    && v.fenced
    && (v.admissions > 0 ==> v.written.Some?)
    && match l
       case Resolving => v.held == Nothing && v.admissions == 0
       case Resolved(_) => v.held == Nothing && v.admissions == 0
       case Checking(id) => v.held == Nothing && v.admissions == 0 && (v.written == Some(id) || v.refused)
       case Identified(id) => v.held == Nothing && (v.written == Some(id) || v.refused)
       case Trying(id, _) => v.held == Nothing && (v.written == Some(id) || v.refused)
       case Admitted(id, _) => v.held == Nothing && v.written == Some(id) && JustAdmitted(v)
       case Sent(id, _) => v.held == Nothing && v.written == Some(id)
       case Finishing(e) => EndFits(e, v)
  }

  ghost predicate Inv(args: Args, l: Position, t: Trace<Recovery>) {
    Fits(l, ViewOf(t, None)) && Named(args.key, t) && AttemptsFit(args, l, t)
  }

  /** How many requests can still leave from a position. */
  function RequestsLeft(args: Args, l: Position): nat {
    match l
    case Finishing(_) => 0
    case Trying(_, rerun) => if args.human && !rerun then 2 else 1
    case Admitted(_, rerun) => if args.human && !rerun then 2 else 1
    case Sent(_, rerun) => if args.human && !rerun then 1 else 0
    case _ => if args.human then 2 else 1
  }

  ghost predicate AttemptsFit(args: Args, l: Position, t: Trace<Recovery>) {
    Sends(t) + RequestsLeft(args, l) <= if args.human then 2 else 1
  }

  ghost function Outline(args: Args): (Position, Trace<Recovery>) -> bool {
    (l, t) => Inv(args, l, t)
  }

  lemma NextKeeps(args: Args, l: Position, v: View<Recovery>, a: Action<Recovery>, l': Position)
    requires Fits(l, v) && Next(args, l, a, l') && Truthful(v, a)
    ensures Permitted(v, a) && Fits(l', Advance(v, a))
    ensures RequestsLeft(args, l') + (if a.Send? then 1 else 0) <= RequestsLeft(args, l)
    ensures a.Send? ==> v.written.Some? && a.request == Mutation(args.key, v.written)
  {
    if l.Finishing? { EndKeepsFit(l.ending, v, a, l'.ending); }
  }

  lemma {:induction false} Conform(args: Args)
    ensures Conforms(Command(args), None, Outline(args))
  {
    forall l, t, a, l' | Outline(args)(l, t) && Next(args, l, a, l') && Truthful(ViewOf(t, None), a)
      ensures Permitted(ViewOf(t, None), a) && Outline(args)(l', Then(t, a))
    {
      ViewAdvances(t, None, a);
      NextKeeps(args, l, ViewOf(t, None), a, l');
    }
  }

  const SUPERVISED := Config(NoTimer, false)

  /** In every run a dispatched deletion can be named: the handler has the ID that was sent, and the
      pretended result of a refused dispatch never becomes output. */
  lemma {:induction false} DispatchedDeletionIsNamed(args: Args, run: seq<System<Position, Recovery>>, i: nat)
    requires IsRun(Command(args), SUPERVISED, None, run) && i < |run|
    ensures run[i].local != Finishing(LosersArm)
    ensures run[i].control.dispatched ==> run[i].control.recovery.Some?
    ensures Named(args.key, run[i].trace)
    ensures Sends(run[i].trace) <= if args.human then 2 else 1
    ensures run[i].supervisor.Handling? ==>
              var snapshot := run[i].supervisor.snapshot;
              && (snapshot.dispatched ==> snapshot.recovery.Some?)
              && (!snapshot.dispatched ==> Sends(run[i].trace) == 0)
  {
    Conform(args);
    EveryRunIsSound(Command(args), SUPERVISED, None, run, i);
    LocalProofHolds(Command(args), SUPERVISED, None, Outline(args), run, i);
    FencedSendsWereAdmitted(run[i].trace);
  }

  /** Once a stop is being handled no deletion is admitted any more, and at most the one already let
      through still leaves. */
  lemma {:induction false} StopFencesDispatch(args: Args, run: seq<System<Position, Recovery>>, i: nat, j: nat)
    requires IsRun(Command(args), SUPERVISED, None, run) && i <= j < |run| && run[i].supervisor.Handling?
    ensures run[i].claim.Some? && FencedAfter(run[i].claim.value.at, run[j].trace)
  {
    Conform(args);
    LocalProofHolds(Command(args), SUPERVISED, None, Outline(args), run, j);
    SnapshotTellsTheTruth(Command(args), SUPERVISED, None, run, i, j);
  }

  // ---- What the command can do ----

  ghost predicate IsAt(args: Args, run: seq<System<Position, Recovery>>, l: Position) {
    IsRun(Command(args), SUPERVISED, None, run) && IsOpen(run[|run| - 1]) && run[|run| - 1].local == l
  }

  lemma ReachIdentified(args: Args, id: string) returns (run: seq<System<Position, Recovery>>)
    ensures IsAt(args, run, Identified(id)) && Sends(run[|run| - 1].trace) == 0
    ensures run[|run| - 1].control.recovery == Some(id)
  {
    var p := Command(args);
    run := [Initial(p, None)];
    run := ExtendOpen(p, SUPERVISED, None, run, Internal, Resolved(id));
    run := ExtendOpen(p, SUPERVISED, None, run, Ask(UpdateRecovery(Some(id)), true), Checking(id));
    assert Sends(run[|run| - 1].trace) == 0;
    run := ExtendOpen(p, SUPERVISED, None, run, ReadStop(false), Identified(id));
  }

  lemma CanTry(args: Args, id: string, rerun: bool, start: seq<System<Position, Recovery>>)
      returns (run: seq<System<Position, Recovery>>)
    requires IsAt(args, start, Trying(id, rerun))
    ensures IsAt(args, run, Sent(id, rerun)) && Sends(run[|run| - 1].trace) == Sends(start[|start| - 1].trace) + 1
    ensures run[|run| - 1].control.recovery == start[|start| - 1].control.recovery
  {
    run := ExtendOpen(Command(args), SUPERVISED, None, start, Ask(BeginDispatch, true), Admitted(id, rerun));
    assert Sends(run[|run| - 1].trace) == Sends(start[|start| - 1].trace);
    run := ExtendOpen(Command(args), SUPERVISED, None, run, Send(Mutation(args.key, Some(id))), Sent(id, rerun));
  }

  datatype Point = AtStart | AtIdentified | AtTrying | AtSent

  lemma Reach(args: Args, id: string, point: Point) returns (run: seq<System<Position, Recovery>>)
    ensures IsAt(args, run, match point
                            case AtStart => Resolving
                            case AtIdentified => Identified(id)
                            case AtTrying => Trying(id, false)
                            case AtSent => Sent(id, false))
    ensures Sends(run[|run| - 1].trace) == if point.AtSent? then 1 else 0
    ensures !point.AtStart? ==> run[|run| - 1].control.recovery == Some(id)
  {
    if point.AtStart? {
      run := [Initial(Command(args), None)];
    } else {
      run := ReachIdentified(args, id);
      if !point.AtIdentified? {
        run := ExtendOpen(Command(args), SUPERVISED, None, run, Internal, Trying(id, false));
        if point.AtSent? { run := CanTry(args, id, false, run); }
      }
    }
  }

  /** The bound on requests is met: a deletion is made, under a human session once more under an admission of its
      own, and can then be completed. */
  lemma DeletionIsRepeated(args: Args, id: string) returns (run: seq<System<Position, Recovery>>)
    ensures IsAt(args, run, Finishing(Completing(false)))
    ensures Sends(run[|run| - 1].trace) == (if args.human then 2 else 1) && run[|run| - 1].control.recovery == Some(id)
  {
    run := Reach(args, id, AtSent);
    if args.human {
      run := ExtendOpen(Command(args), SUPERVISED, None, run, Internal, Trying(id, true));
      assert Sends(run[|run| - 1].trace) == 1;
      run := CanTry(args, id, true, run);
    }
    run := ExtendOpen(Command(args), SUPERVISED, None, run, Internal, Finishing(Completing(false)));
  }

  /** The command can fail at any of these points with an error, which is returned ... */
  lemma ErrorsAreReturned(args: Args, id: string, point: Point) returns (run: seq<System<Position, Recovery>>)
    ensures IsRun(Command(args), SUPERVISED, None, run)
    ensures run[|run| - 1].supervisor == Returned(Worker(Failed))
  {
    run := Reach(args, id, point);
    run := ExtendByAction(Command(args), SUPERVISED, None, run, Finish(Failed), Finishing(Ended));
    run := ExtendByReturn(Command(args), SUPERVISED, None, run);
  }

  /** ... and, where an API is being asked, with a failure of its own to publish. */
  lemma FailuresArePublished(args: Args, id: string, point: Point) returns (run: seq<System<Position, Recovery>>)
    requires !point.AtIdentified?
    ensures IsAt(args, run, Finishing(Completing(false)))
  {
    run := Reach(args, id, point);
    run := ExtendOpen(Command(args), SUPERVISED, None, run, Internal, Finishing(Completing(false)));
  }
}
