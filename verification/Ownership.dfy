/** The ownership state that decides who may send, who may print and what a stop reports.

    `State` is the value guarded by one mutex; every operation of the control is a function from
    a state to a new state and an answer. The classes `OperationControl` and
    `BlockingObservationControl` update fields in place and are proved against these functions. */
module Ownership {
  import opened Basics

  datatype Owner = Active | ReadOnlyOutput | Completion | Signal

  datatype State<R> = State(owner: Owner, dispatched: bool, recovery: R)

  datatype Snapshot<R> = Snapshot(dispatched: bool, recovery: R)

  /** What the working thread may ask of the control. */
  datatype Op<R> =
    | BeginDispatch
    | BeginBoundedDispatch
    | BeginDispatchWithRecovery(recovery: R)
    | UpdateRecovery(recovery: R)
    | AdmitRead
    | BeginCompletion
    | BeginReadOnlyOutput
    | FinishReadOnlyOutput

  /** Whether the control says yes. */
  predicate Grants<R>(s: State<R>, op: Op<R>) {
    match op
    case FinishReadOnlyOutput => s.owner == ReadOnlyOutput
    case BeginBoundedDispatch => s.owner == Active || (s.owner == Completion && s.dispatched)
    case _ => s.owner == Active
  }

  /** The state after a granted operation; a refused one leaves the state alone. */
  function Grant<R>(s: State<R>, op: Op<R>): State<R> {
    match op
    case BeginDispatch => s.(dispatched := true)
    case BeginBoundedDispatch => s.(owner := Completion, dispatched := true)
    case BeginDispatchWithRecovery(r) => s.(recovery := r, dispatched := true)
    case UpdateRecovery(r) => s.(recovery := r)
    case AdmitRead => s
    case BeginCompletion => s.(owner := Completion)
    case BeginReadOnlyOutput => s.(owner := ReadOnlyOutput)
    case FinishReadOnlyOutput => s.(owner := Completion)
  }

  function After<R>(s: State<R>, op: Op<R>): State<R> {
    if Grants(s, op) then Grant(s, op) else s
  }

  /** A stop may still take ownership. */
  predicate Claimable<R>(s: State<R>) {
    s.owner == Active || s.owner == ReadOnlyOutput
  }

  function Claim<R>(s: State<R>): State<R> {
    if Claimable(s) then s.(owner := Signal) else s
  }

  predicate Settled<R>(s: State<R>) {
    s.owner == Completion || s.owner == Signal
  }

  class OperationControl<R> {
    var cooperativeStop: bool
    var owner: Owner
    var dispatched: bool
    var recovery: R

    ghost function Value(): State<R>
      reads this
    {
      State(owner, dispatched, recovery)
    }

    /** The flag is derived: outside the mutex it says exactly that a stop owns the operation. */
    ghost predicate Valid()
      reads this
    {
      cooperativeStop <==> owner == Signal
    }

    constructor (initial: R)
      ensures Valid() && Value() == State(Active, false, initial)
    {
      cooperativeStop, owner, dispatched, recovery := false, Active, false, initial;
    }

    method IsCancelled() returns (stopped: bool)
      requires Valid()
      ensures stopped <==> owner == Signal
    {
      stopped := cooperativeStop;
    }

    method AdmitRead() returns (ok: bool)
      ensures ok == Grants(Value(), Op.AdmitRead)
    {
      ok := owner == Active;
    }

    method BeginDispatch() returns (ok: bool)
      requires Valid()
      modifies this
      ensures Valid()
      ensures ok == Grants(old(Value()), Op.BeginDispatch)
      ensures Value() == After(old(Value()), Op.BeginDispatch)
    {
      ok := owner == Active;
      if ok { dispatched := true; }
    }

    method BeginBoundedDispatch() returns (ok: bool)
      requires Valid()
      modifies this
      ensures Valid()
      ensures ok == Grants(old(Value()), Op.BeginBoundedDispatch)
      ensures Value() == After(old(Value()), Op.BeginBoundedDispatch)
    {
      match owner
      case Active =>
        owner, dispatched, ok := Completion, true, true;
      case Completion =>
        ok := dispatched;
      case _ =>
        ok := false;
    }

    method BeginDispatchWithRecovery(next: R) returns (ok: bool)
      requires Valid()
      modifies this
      ensures Valid()
      ensures ok == Grants(old(Value()), Op.BeginDispatchWithRecovery(next))
      ensures Value() == After(old(Value()), Op.BeginDispatchWithRecovery(next))
    {
      ok := owner == Active;
      if ok { recovery, dispatched := next, true; }
    }

    method UpdateRecovery(next: R) returns (ok: bool)
      requires Valid()
      modifies this
      ensures Valid()
      ensures ok == Grants(old(Value()), Op.UpdateRecovery(next))
      ensures Value() == After(old(Value()), Op.UpdateRecovery(next))
    {
      ok := owner == Active;
      if ok { recovery := next; }
    }

    /** Called with a target the worker may take, so the stop flag keeps its meaning. */
    method TransitionOwner(from: Owner, to: Owner) returns (ok: bool)
      requires Valid() && from != Signal && to != Signal
      modifies this
      ensures Valid()
      ensures ok == (old(owner) == from)
      ensures Value() == if ok then old(Value()).(owner := to) else old(Value())
    {
      ok := owner == from;
      if ok { owner := to; }
    }

    method BeginCompletion() returns (ok: bool)
      requires Valid()
      modifies this
      ensures Valid()
      ensures ok == Grants(old(Value()), Op.BeginCompletion)
      ensures Value() == After(old(Value()), Op.BeginCompletion)
    {
      ok := TransitionOwner(Active, Completion);
    }

    method BeginReadOnlyOutput() returns (ok: bool)
      requires Valid()
      modifies this
      ensures Valid()
      ensures ok == Grants(old(Value()), Op.BeginReadOnlyOutput)
      ensures Value() == After(old(Value()), Op.BeginReadOnlyOutput)
    {
      ok := TransitionOwner(Active, ReadOnlyOutput);
    }

    method FinishReadOnlyOutput() returns (ok: bool)
      requires Valid()
      modifies this
      ensures Valid()
      ensures ok == Grants(old(Value()), Op.FinishReadOnlyOutput)
      ensures Value() == After(old(Value()), Op.FinishReadOnlyOutput)
    {
      ok := TransitionOwner(ReadOnlyOutput, Completion);
    }

    method ClaimSignal() returns (snapshot: Option<Snapshot<R>>)
      requires Valid()
      modifies this
      ensures Valid()
      ensures Value() == Claim(old(Value()))
      ensures snapshot == if Claimable(old(Value())) then Some(Snapshot(old(dispatched), old(recovery))) else None
    {
      if owner != Active && owner != ReadOnlyOutput {
        return None;
      }
      owner := Signal;
      cooperativeStop := true;
      snapshot := Some(Snapshot(dispatched, recovery));
    }
  }
}
