/** `runner create`: a registration and then an activation, inside a closure that the session wrapper may
    run any number of times. */
module RunnerCreation {
  import opened Basics

  datatype Failure = Failure(rejected: bool)

  /** One run of the closure. */
  datatype Run =
    | Unregistered(failure: Failure)                                  // pool lookup or registration failed
    | Registered(id: string, activation: Option<Failure>)             // None: the activation was issued

  /** How the wrapper ends: with the last run's own result, with a failure of its own making (no session,
      service unreachable), or with an error that is not an API result. */
  datatype Ending = LastRun | Made(failure: Failure) | Broken

  datatype Report =
    | Complete(id: string)
    | ActivationFailed(id: string, failure: Failure)
    | PlainFailure(failure: Failure)
    | Error

  /** The last registration any run committed. */
  function LastRegistered(runs: seq<Run>): (id: Option<string>)
    ensures id.None? <==> forall i :: 0 <= i < |runs| ==> runs[i].Unregistered?
    ensures id.Some? ==> exists i :: 0 <= i < |runs| && runs[i].Registered? && runs[i].id == id.value
                                     && forall j :: i < j < |runs| ==> runs[j].Unregistered?
  {
    if runs == [] then None
    else
      var last := runs[|runs| - 1];
      if last.Registered? then Some(last.id) else LastRegistered(runs[..|runs| - 1])
  }

  function Names(r: Report): Option<string> {
    match r
    case Complete(id) => Some(id)
    case ActivationFailed(id, _) => Some(id)
    case _ => None
  }

  /** Whatever the runs did, the report names the last committed runner; a plain failure means that no
      run registered one; and a committed runner goes unnamed exactly when the wrapper broke. */
  method Create(runs: seq<Run>, ending: Ending) returns (report: Report)
    requires ending.LastRun? ==> runs != []
    ensures !ending.Broken? ==> Names(report) == LastRegistered(runs)
    ensures report.PlainFailure? ==> forall i :: 0 <= i < |runs| ==> runs[i].Unregistered?
    ensures LastRegistered(runs).Some? ==> (Names(report).None? <==> ending.Broken?)
    ensures report.Error? <==> ending.Broken?
    ensures report.Complete? <==> ending.LastRun? && runs[|runs| - 1].Registered? && runs[|runs| - 1].activation.None?
    ensures ending.Made? ==>
              (report.PlainFailure? || report.ActivationFailed?) && report.failure == ending.failure
    ensures ending.LastRun? && !report.Complete? ==>
              var last := runs[|runs| - 1];
              && (report.PlainFailure? || report.ActivationFailed?)
              && (last.Unregistered? ==> report.failure == last.failure)
              && (last.Registered? ==> last.activation == Some(report.failure))
  {
    var committed: Option<string> := None;
    var result: Report := PlainFailure(Failure(false));
    for i := 0 to |runs|
      invariant committed == LastRegistered(runs[..i])
      invariant i > 0 ==> result == match runs[i - 1]
                                    case Unregistered(failure) => PlainFailure(failure)
                                    case Registered(id, None) => Complete(id)
                                    case Registered(id, Some(failure)) => ActivationFailed(id, failure)
    {
      assert runs[..i + 1][..i] == runs[..i];
      match runs[i] {
        case Unregistered(failure) => result := PlainFailure(failure);
        case Registered(id, activation) =>
          committed := Some(id);
          result := if activation.None? then Complete(id) else ActivationFailed(id, activation.value);
      }
    }
    assert runs[..|runs|] == runs;
    if ending.Broken? { return Error; }
    if ending.Made? { result := PlainFailure(ending.failure); }
    report := if result.PlainFailure? && committed.Some? then ActivationFailed(committed.value, result.failure)
              else result;
  }
}
