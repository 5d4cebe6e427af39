/** Read-only commands: output is begun, written and finished, and may be abandoned in between. */
module ReadOnlyCommand {
  import opened Ownership
  import opened Supervision

  datatype Position =
    | Fetching | Beginning | Writing | Closing(result: Result) | Quitting | Reporting(result: Result) | Ended

  ghost predicate Next(l: Position, a: Action<()>, l': Position) {
    match l
    case Fetching => (a.Internal? && l' == Beginning) || (a == Finish(Failed) && l' == Ended)
    case Beginning => a.Ask? && a.op.BeginReadOnlyOutput? && l' == if a.granted then Writing else Quitting
    case Writing =>
      || (a == Print(Terminal) && l' == Writing)
      || (a.Internal? && l'.Closing? && !l'.result.Placeholder?)
    case Closing(result) =>
      a.Ask? && a.op.FinishReadOnlyOutput? && l' == if a.granted then Reporting(result) else Quitting
    case Quitting => a == Finish(Placeholder) && l' == Ended
    case Reporting(result) => a == Finish(result) && l' == Ended
    case Ended => false
  }

  ghost function Command(): Program<Position, ()> {
    Program(Fetching, (l, a, l') => Next(l, a, l'))
  }

  ghost predicate Fits(l: Position, v: View<()>) {
    match l
    case Fetching => v.held == Nothing
    case Beginning => v.held == Nothing
    case Writing => v.held == ReadOnly
    case Closing(result) => v.held == ReadOnly && !result.Placeholder?
    case Quitting => v.refused
    case Reporting(result) => v.held == Whole && !result.Placeholder?
    case Ended => true
  }

  ghost function Outline(): (Position, Trace<()>) -> bool {
    (l, t) => Fits(l, ViewOf(t, ()))
  }

  lemma NextKeeps(l: Position, v: View<()>, a: Action<()>, l': Position)
    requires Fits(l, v) && Next(l, a, l') && Truthful(v, a)
    ensures Permitted(v, a) && Fits(l', Advance(v, a))
  {
  }

  lemma {:induction false} Conform()
    ensures Conforms(Command(), (), Outline())
  {
    assert Fits(Fetching, ViewOf(Idle, ()));
    assert Outline()(Command().start, Idle);
    forall l, t, a, l' | Outline()(l, t) && Command().next(l, a, l') && Truthful(ViewOf(t, ()), a)
      ensures Permitted(ViewOf(t, ()), a) && Outline()(l', Then(t, a))
    {
      ViewAdvances(t, (), a);
      NextKeeps(l, ViewOf(t, ()), a, l');
    }
  }

  const SUPERVISED := Config(NoTimer, false)

  /** The worker's output stands next to the handler's status; the read-only handler itself writes nothing. */
  ghost predicate OutputMetByHandler(s: System<Position, ()>) {
    s.supervisor.Returned? && s.supervisor.speaker.Handler? && Printed(s.trace)
  }

  /** Output meets the handler's status only while read-only output is open, and the status returned is
      still the handler's. */
  lemma {:induction false} AbandonedOnlyWhileOpen(run: seq<System<Position, ()>>, i: nat)
    requires IsRun(Command(), SUPERVISED, (), run) && i < |run|
    ensures OutputMetByHandler(run[i]) ==> Held(run[i].trace) == ReadOnly && run[i].control.owner == Signal
    ensures run[i].supervisor.Returned? && run[i].supervisor.speaker.Worker? ==>
              run[i].supervisor.speaker.result != Placeholder
  {
    Conform();
    EveryRunIsSound(Command(), SUPERVISED, (), run, i);
    if run[i].supervisor.Returned? {
      OneSpeaker(Command(), SUPERVISED, (), Outline(), run, i);
    }
  }

  ghost predicate IsOpenWriter(s: System<Position, ()>) {
    s.local == Writing && s.done.None?
  }

  lemma {:induction false} ClosedStaysClosed(s: System<Position, ()>, s': System<Position, ()>)
    requires Step(Command(), SUPERVISED, s, s') && s.control.owner == Signal && !IsOpenWriter(s)
    ensures !IsOpenWriter(s') && Printed(s'.trace) == Printed(s.trace)
  {
  }

  lemma {:induction false} ClaimStays(run: seq<System<Position, ()>>, i: nat, j: nat)
    requires IsRun(Command(), SUPERVISED, (), run) && i <= j < |run| && run[i].claim.Some?
    ensures run[j].control.owner == Signal
  {
    EveryRunIsSound(Command(), SUPERVISED, (), run, i);
    OwnershipSettlesOnce(Command(), SUPERVISED, (), run, i, j);
  }

  /** After a won claim output can only come from a writer that was open then ... */
  lemma {:induction false} LateOutputNeedsAnOpenWriter(run: seq<System<Position, ()>>, i: nat, j: nat)
    requires IsRun(Command(), SUPERVISED, (), run) && i <= j < |run| && run[i].claim.Some?
    ensures !IsOpenWriter(run[i]) ==> !IsOpenWriter(run[j]) && Printed(run[j].trace) == Printed(run[i].trace)
    decreases j
  {
    if i < j && !IsOpenWriter(run[i]) {
      LateOutputNeedsAnOpenWriter(run, i, j - 1);
      ClaimStays(run, i, j - 1);
      assert Step(Command(), SUPERVISED, run[j - 1], run[j - 1 + 1]);
      ClosedStaysClosed(run[j - 1], run[j]);
    }
  }

  /** ... and from every such writer it can, whatever has happened and whoever owns the operation. */
  lemma OpenWriterCanPrint(run: seq<System<Position, ()>>) returns (longer: seq<System<Position, ()>>)
    requires IsRun(Command(), SUPERVISED, (), run) && IsOpenWriter(run[|run| - 1])
    ensures IsRun(Command(), SUPERVISED, (), longer) && |longer| == |run| + 1 && run < longer
    ensures Printed(longer[|run|].trace) && longer[|run|].supervisor == run[|run| - 1].supervisor
  {
    longer := ExtendByAction(Command(), SUPERVISED, (), run, Print(Terminal), Writing);
  }

  /** So a command whose handler has answered before any output can still print exactly when its writer is
      open. */
  lemma LateOutputExactlyWhenOpen(run: seq<System<Position, ()>>)
    requires IsRun(Command(), SUPERVISED, (), run)
    requires var s := run[|run| - 1]; s.supervisor.Returned? && s.supervisor.speaker.Handler? && !Printed(s.trace)
    ensures IsOpenWriter(run[|run| - 1]) <==>
              !forall longer :: IsRun(Command(), SUPERVISED, (), longer) && run <= longer ==>
                                  !OutputMetByHandler(longer[|longer| - 1])
  {
    EveryRunIsSound(Command(), SUPERVISED, (), run, |run| - 1);
    if IsOpenWriter(run[|run| - 1]) {
      var longer := OpenWriterCanPrint(run);
      assert OutputMetByHandler(longer[|longer| - 1]);
    } else {
      forall longer | IsRun(Command(), SUPERVISED, (), longer) && run <= longer
        ensures !OutputMetByHandler(longer[|longer| - 1])
      {
        LateOutputNeedsAnOpenWriter(longer, |run| - 1, |longer| - 1);
      }
    }
  }

  /** Such a run. */
  lemma {:induction false} WriterCanBeAbandoned() returns (run: seq<System<Position, ()>>)
    ensures IsRun(Command(), SUPERVISED, (), run) && OutputMetByHandler(run[|run| - 1])
  {
    var p := Command();
    run := [Initial(p, ())];
    run := ExtendByAction(p, SUPERVISED, (), run, Internal, Beginning);
    run := ExtendByAction(p, SUPERVISED, (), run, Ask(BeginReadOnlyOutput, true), Writing);
    run := ExtendByAction(p, SUPERVISED, (), run, Print(Terminal), Writing);
    run := ExtendByInterrupt(p, SUPERVISED, (), run, 130);
  }

  lemma ReachReporting(result: Result) returns (run: seq<System<Position, ()>>)
    requires result != Placeholder
    ensures IsRun(Command(), SUPERVISED, (), run)
    ensures var s := run[|run| - 1];
            s.local == Reporting(result) && s.done.None? && s.supervisor.Selecting? && Printed(s.trace)
  {
    var p := Command();
    run := ReachWriting();
    run := ExtendByAction(p, SUPERVISED, (), run, Print(Terminal), Writing);
    assert Printed(run[|run| - 1].trace);
    run := ExtendByAction(p, SUPERVISED, (), run, Internal, Closing(result));
    run := ExtendByAction(p, SUPERVISED, (), run, Ask(FinishReadOnlyOutput, true), Reporting(result));
  }

  lemma ReachWriting() returns (run: seq<System<Position, ()>>)
    ensures IsRun(Command(), SUPERVISED, (), run)
    ensures var s := run[|run| - 1];
            && s.local == Writing && s.done.None? && s.supervisor.Selecting? && s.claim.None?
            && s.control.owner == ReadOnlyOutput
  {
    var p := Command();
    run := [Initial(p, ())];
    run := ExtendByAction(p, SUPERVISED, (), run, Internal, Beginning);
    run := ExtendByAction(p, SUPERVISED, (), run, Ask(BeginReadOnlyOutput, true), Writing);
  }

  /** A read that fails is an error, which is returned; otherwise whatever was written is finished and its result
      returned. */
  lemma ResultsAreReturned(result: Result) returns (run: seq<System<Position, ()>>)
    requires result != Placeholder
    ensures IsRun(Command(), SUPERVISED, (), run) && run[|run| - 1].supervisor == Returned(Worker(result))
    ensures Printed(run[|run| - 1].trace) <==> result != Failed
  {
    var p := Command();
    if result == Failed {
      run := [Initial(p, ())];
      run := ExtendByAction(p, SUPERVISED, (), run, Finish(Failed), Ended);
    } else {
      run := ReachReporting(result);
      run := ExtendByAction(p, SUPERVISED, (), run, Finish(result), Ended);
    }
    run := ExtendByReturn(p, SUPERVISED, (), run);
  }
}
