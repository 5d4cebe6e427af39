/** Delivery of a one-time API key: a destination reserved before the request, bounded dispatch,
    and removal of whatever was not delivered. */
module OneTimeSecret {
  import opened Basics
  import opened Ownership
  import opened Supervision
  import opened ServiceKey

  /** How the operating system treats this destination: each operation succeeds or fails, and a
      write may stop after `accepts` characters. */
  datatype Disk = Disk(
    createFails: bool, permissionsFail: bool, syncFails: bool, removeFails: bool, accepts: nat, finalSyncFails: bool)

  /** What a file holds after a write that may have stopped part way. */
  function LeftOver(disk: Disk, attempted: Option<string>): (text: string)
    ensures attempted.Some? ==> (text == attempted.value + "\n" <==> |attempted.value| + 1 <= disk.accepts)
  {
    match attempted
    case None => ""
    case Some(key) => if |key| + 1 <= disk.accepts then key + "\n" else (key + "\n")[..disk.accepts]
  }

  class FileSystem {
    var files: map<string, string>
    var removals: nat
    var stdout: string

    constructor (initial: map<string, string>)
      ensures files == initial && removals == 0 && stdout == ""
    {
      files, removals, stdout := initial, 0, "";
    }

    /** Creation that never opens an existing file. */
    method CreateNew(path: string, fails: bool) returns (ok: bool)
      modifies this`files
      ensures ok == (!fails && path !in old(files))
      ensures files == if ok then old(files)[path := ""] else old(files)
    {
      ok := !fails && path !in files;
      if ok { files := files[path := ""]; }
    }

    /** Write all of `text`, or a prefix and an error. */
    method WriteAll(path: string, text: string, accepts: nat) returns (ok: bool)
      requires path in files
      modifies this`files
      ensures ok == (|text| <= accepts)
      ensures files == old(files)[path := old(files[path]) + if ok then text else text[..accepts]]
    {
      ok := |text| <= accepts;
      files := files[path := files[path] + if ok then text else text[..accepts]];
    }

    method Remove(path: string, fails: bool) returns (ok: bool)
      modifies this`files, this`removals
      ensures removals == old(removals) + 1
      ensures ok == (!fails && path in old(files))
      ensures files == if ok then old(files) - {path} else old(files)
    {
      removals := removals + 1;
      ok := !fails && path in files;
      if ok { files := files - {path}; }
    }
  }

  datatype Cleanup = Removed | NotApplicable | Uncertain

  class ApiKeyDestination {
    const fs: FileSystem
    const disk: Disk
    const path: string
    const toStdout: bool
    var cleanupOnDrop: bool

    constructor (fs: FileSystem, disk: Disk, path: string, toStdout: bool)
      ensures this.fs == fs && this.disk == disk && this.path == path && this.toStdout == toStdout
      ensures cleanupOnDrop == !toStdout
    {
      this.fs, this.disk, this.path, this.toStdout, cleanupOnDrop := fs, disk, path, toStdout, !toStdout;
    }

    method Write(key: string) returns (ok: bool)
      requires !toStdout ==> path in fs.files && fs.files[path] == ""
      modifies this, fs`files, fs`stdout
      ensures ok == (|key| + 1 <= disk.accepts && (toStdout || !disk.finalSyncFails))
      ensures cleanupOnDrop == (old(cleanupOnDrop) && (toStdout || !ok))
      ensures toStdout ==> fs.files == old(fs.files) && fs.stdout == old(fs.stdout) + LeftOver(disk, Some(key))
      ensures !toStdout ==>
                && fs.stdout == old(fs.stdout)
                && fs.files == old(fs.files)[path := LeftOver(disk, Some(key))]
    {
      if toStdout {
        ok := |key| + 1 <= disk.accepts;
        fs.stdout := fs.stdout + if ok then key + "\n" else (key + "\n")[..disk.accepts];
        return;
      }
      ok := fs.WriteAll(path, key + "\n", disk.accepts);
      assert fs.files[path] == LeftOver(disk, Some(key));
      if !ok { return; }
      if disk.finalSyncFails { return false; }
      cleanupOnDrop := false;
    }

    /** The explicit removal owns the reported result, so dropping does not try again. */
    method CleanupAfterDeliveryFailure() returns (cleanup: Cleanup)
      modifies this, fs`files, fs`removals
      ensures !cleanupOnDrop || toStdout
      ensures toStdout ==> cleanup == NotApplicable && fs.files == old(fs.files) && fs.removals == old(fs.removals)
      ensures toStdout ==> cleanupOnDrop == old(cleanupOnDrop)
      ensures !toStdout ==>
                && fs.removals == old(fs.removals) + 1
                && fs.files == (if cleanup.Removed? then old(fs.files) - {path} else old(fs.files))
                && cleanup == if !disk.removeFails && path in old(fs.files) then Removed else Uncertain
    {
      if toStdout { return NotApplicable; }
      var removed := fs.Remove(path, disk.removeFails);
      cleanupOnDrop := false;
      cleanup := if removed then Removed else Uncertain;
    }

    method Drop()
      modifies fs`files, fs`removals
      ensures !cleanupOnDrop ==> fs.files == old(fs.files) && fs.removals == old(fs.removals)
      ensures cleanupOnDrop ==>
                && fs.removals == old(fs.removals) + 1
                && fs.files == if disk.removeFails then old(fs.files) else old(fs.files) - {path}
    {
      if cleanupOnDrop { var _ := fs.Remove(path, disk.removeFails); }
    }
  }

  /** A new destination, reserved; or an error, with the new file removed again. */
  method Prepare(fs: FileSystem, disk: Disk, path: string) returns (d: ApiKeyDestination?)
    modifies fs`files, fs`removals
    ensures d == null <==>
              path != "-" && (disk.createFails || path in old(fs.files) || disk.permissionsFail || disk.syncFails)
    ensures d != null ==> fresh(d) && d.fs == fs && d.disk == disk && d.path == path
    ensures d != null ==> Reserved(d, old(fs.files)) && fs.removals == old(fs.removals)
    ensures d == null ==>
              DiskFits(disk, path, old(fs.files), fs.files, fs.removals - old(fs.removals), NothingDelivered())
  {
    if path == "-" {
      d := new ApiKeyDestination(fs, disk, path, true);
      return;
    }
    var created := fs.CreateNew(path, disk.createFails);
    if !created { return null; }
    if disk.permissionsFail || disk.syncFails {
      var _ := fs.Remove(path, disk.removeFails);
      assert old(fs.files)[path := ""] - {path} == old(fs.files);
      return null;
    }
    d := new ApiKeyDestination(fs, disk, path, false);
  }

  // ---- Reading a key back ----

  const MAX_API_KEY_BYTES := 128

  /** At most one line ending is taken off, and none is left that could have been. */
  function TrimOneNewline(text: string): (r: string)
    ensures text == r || text == r + "\n" || text == r + "\r\n"
    ensures text == r ==> text == "" || text[|text| - 1] != '\n'
    ensures text == r + "\n" ==> r == "" || r[|r| - 1] != '\r'
  {
    if text == "" || text[|text| - 1] != '\n' then text
    else
      var line := text[..|text| - 1];
      if line == "" || line[|line| - 1] != '\r' then line else line[..|line| - 1]
  }

  function ReadApiKey(text: string): (key: Option<string>)
    ensures key.Some? ==> ValidApiKey(key.value, true) && key.value <= text
  {
    if |text| > MAX_API_KEY_BYTES then None
    else
      var value := TrimOneNewline(text);
      if ValidApiKey(value, true) then Some(value) else None
  }

  lemma TrimsThree(text: string, line: string)
    requires line != "" && line[|line| - 1] != '\n' && line[|line| - 1] != '\r'
    ensures TrimOneNewline(text) == line <==> text == line || text == line + "\n" || text == line + "\r\n"
  {
    if TrimOneNewline(text) == line && text != line && text != line + "\n" {
      assert text == line + "\r\n";
    }
  }

  /** Exactly three spellings of a key file are read, the delivered line among them. */
  lemma ReadsExactly(text: string, key: string)
    ensures ReadApiKey(text) == Some(key) <==>
              ValidApiKey(key, true) && (text == key || text == key + "\n" || text == key + "\r\n")
  {
    if ValidApiKey(key, true) {
      KeyLength(key, true);
      TrimsThree(text, key);
    }
  }

  // ---- The two commands ----

  type FailureCode = c: nat | 0 < c witness 1

  /** What the service answers; `Rejected` rejects the credential, `Refused` is any other outcome
      without a credential, `Issued` may omit the key when a completed request is replayed. */
  datatype Reply = Rejected(code: FailureCode) | Refused(code: FailureCode) | Issued(key: Option<string>) | Broken

  const MUTATION_ATTEMPTS := 2

  /** One request on the wire: it may not be built, its answer may be lost, or it is answered. */
  datatype Wire = Unbuilt | Lost(code: FailureCode) | Answered(reply: Reply)

  /** One admitted call of the service: a lost request is made again, under the same idempotency key. */
  datatype Call = Call(attempts: nat -> Wire)

  function SettledReply(c: Call): Reply {
    var last := if c.attempts(0).Lost? then c.attempts(1) else c.attempts(0);
    match last
    case Unbuilt => Broken
    case Lost(code) => Refused(code)
    case Answered(reply) => reply
  }

  function Requests(c: Call): (n: nat)
    ensures n <= MUTATION_ATTEMPTS
  {
    if c.attempts(0).Unbuilt? then 0 else if c.attempts(0).Answered? || c.attempts(1).Unbuilt? then 1 else 2
  }

  method Perform(c: Call) returns (reply: Reply, sends: nat)
    ensures reply == SettledReply(c) && sends == Requests(c)
  {
    sends, reply := 0, Broken;
    for attempt := 0 to MUTATION_ATTEMPTS
      invariant attempt > 0 ==> c.attempts(0).Lost?
      invariant attempt > 1 ==> c.attempts(1).Lost? && reply == Refused(c.attempts(1).code)
      invariant sends == attempt
    {
      match c.attempts(attempt) {
        case Unbuilt => return Broken, sends;
        case Answered(answer) => return answer, sends + 1;
        case Lost(code) => reply, sends := Refused(code), sends + 1;
      }
    }
  }

  /** What the session wrapper finds before the first attempt, and after a rejected one. */
  datatype Session = Ready | Unavailable(code: FailureCode) | Unusable

  /** Everything outside the command. The signal strikes before point `signalAt`, if there is one. */
  datatype World = World(
    disk: Disk, keyGenerationFails: bool, session: Session, first: Call, refresh: Session, second: Call,
    outputFails: bool, signalAt: nat)

  /** `dispatches` counts admissions, `sends` requests on the wire. */
  datatype Outcome = Outcome(
    result: Result, attempted: Option<string>, delivered: bool, cleanup: Option<Cleanup>, dispatches: nat, sends: nat)

  /** The reply that decides a create command, over at most two admitted calls. */
  function LastReply(w: World): Reply {
    if w.session.Unavailable? then Refused(w.session.code)
    else if w.session.Unusable? then Broken
    else if !SettledReply(w.first).Rejected? then SettledReply(w.first)
    else if w.refresh.Unavailable? then Refused(w.refresh.code)
    else if w.refresh.Unusable? then Broken
    else SettledReply(w.second)
  }

  function Calls(w: World): (n: nat)
    ensures n <= 2
  {
    if !w.session.Ready? then 0 else if SettledReply(w.first).Rejected? && w.refresh.Ready? then 2 else 1
  }

  function AllRequests(w: World): (n: nat)
    ensures n <= 2 * Calls(w)
  {
    match Calls(w)
    case 0 => 0
    case 1 => Requests(w.first)
    case _ => Requests(w.first) + Requests(w.second)
  }

  /** The destination can be reserved and nothing stops the command before dispatch. */
  predicate Reaches(w: World, path: string, before: map<string, string>) {
    CanReserve(w, path, before) && !w.keyGenerationFails && w.signalAt > 1
  }

  predicate CanReserve(w: World, path: string, before: map<string, string>) {
    path == "-" || !(w.disk.createFails || path in before || w.disk.permissionsFail || w.disk.syncFails)
  }

  function KeyIn(reply: Reply, parses: string -> bool): Option<string> {
    if reply.Issued? && reply.key.Some? && parses(reply.key.value) then reply.key else None
  }

  function NothingDelivered(): Outcome {
    Outcome(Failed, None, false, None, 0, 0)
  }

  /** What is left behind, in terms of the destination and of what delivery did. */
  ghost predicate DiskFits(
      disk: Disk, path: string, before: map<string, string>, after: map<string, string>, removals: int, o: Outcome)
  {
    if path == "-" || disk.createFails || path in before then
      // nothing was created: nothing is written and nothing removed
      after == before && removals == 0
    else if o.delivered then
      o.attempted.Some? && after == before[path := o.attempted.value + "\n"] && removals == 0
    else
      && removals == 1
      && (!disk.removeFails ==> after == before)
      && (disk.removeFails ==> after == before[path := LeftOver(disk, o.attempted)])
  }

  /** What the terminal shows: with path "-" what was written of the key line, and otherwise nothing. */
  ghost predicate StdoutFits(disk: Disk, path: string, before: string, after: string, o: Outcome) {
    after == if path == "-" then before + LeftOver(disk, o.attempted) else before
  }

  predicate Deliverable(disk: Disk, path: string, key: string) {
    |key| + 1 <= disk.accepts && (path == "-" || !disk.finalSyncFails)
  }

  /** Delivery and its report. Exit code zero means delivered; an undelivered key is named with what
      became of its file. */
  ghost predicate OutcomeFits(parses: string -> bool, disk: Disk, path: string, o: Outcome) {
    && (o.attempted.Some? ==> parses(o.attempted.value))
    && (o.delivered <==> o.attempted.Some? && Deliverable(disk, path, o.attempted.value))
    && (o.result == Completed(0) ==> o.delivered)
    && (o.delivered ==> o.result == Completed(0) || o.result == Failed)
    && o.cleanup == (if o.attempted.None? || o.delivered then None
                     else if path == "-" then Some(NotApplicable)
                     else if disk.removeFails then Some(Uncertain) else Some(Removed))
  }

  /** The status that a reply comes to, once the key in it was delivered or not. A broken reply, a key that does
      not parse and output that fails are errors. */
  function StatusFor(reply: Reply, key: Option<string>, delivered: bool, outputFails: bool): Result {
    if outputFails || reply.Broken? then Failed
    else if key.Some? then Completed(if delivered then 0 else 1)
    else match reply
      case Issued(Some(_)) => Failed
      case Issued(None) => Completed(1)
      case Rejected(code) => Completed(code)
      case Refused(code) => Completed(code)
      case Broken => Failed
  }

  /** Dispatch owns the operation to the end; a signal that came first means nothing was sent. */
  ghost predicate OwnerFits(s: State<()>, o: Outcome) {
    && (o.dispatches > 0 ==> s.owner == Completion && s.dispatched)
    && o.sends <= MUTATION_ATTEMPTS * o.dispatches
    && (o.attempted.Some? ==> o.sends > 0)
    && (o.result.Placeholder? ==> s.owner == Signal)
    && (s.owner == Signal ==> o.dispatches == 0 && !o.delivered)
  }

  /** A destination just reserved, over the files there were before. */
  ghost predicate Reserved(d: ApiKeyDestination, before: map<string, string>)
    reads d, d.fs
  {
    && d.toStdout == (d.path == "-") && d.cleanupOnDrop == !d.toStdout
    && (d.toStdout ==> d.fs.files == before)
    && (!d.toStdout ==> !d.disk.createFails && d.path !in before && d.fs.files == before[d.path := ""])
  }

  method Strike(control: OperationControl<()>, now: bool)
    requires control.Valid()
    modifies control
    ensures control.Valid() && control.Value() == if now then Claim(old(control.Value())) else old(control.Value())
  {
    if now { var _ := control.ClaimSignal(); }
  }

  /** Deliver the key, if there is one; on failure clean up at once. The destination is then dropped. */
  method Deliver(
      d: ApiKeyDestination, parses: string -> bool, reply: Reply, ghost before: map<string, string>,
      outputFails: bool, dispatches: nat, sends: nat)
    returns (o: Outcome)
    requires Reserved(d, before) && (reply.Issued? ==> sends > 0) && sends <= MUTATION_ATTEMPTS * dispatches
    modifies d, d.fs
    ensures DiskFits(d.disk, d.path, before, d.fs.files, d.fs.removals - old(d.fs.removals), o)
    ensures StdoutFits(d.disk, d.path, old(d.fs.stdout), d.fs.stdout, o)
    ensures OutcomeFits(parses, d.disk, d.path, o)
    ensures o.sends == sends && o.dispatches == dispatches && !o.result.Placeholder?
    ensures o.attempted.Some? ==> sends > 0
    ensures o.attempted == KeyIn(reply, parses)
    ensures !reply.Broken? ==> o.result == StatusFor(reply, o.attempted, o.delivered, outputFails)
  {
    assert before[d.path := ""] - {d.path} == before - {d.path};
    if reply.Issued? && reply.key.Some? && parses(reply.key.value) {
      var key := reply.key.value;
      var ok := d.Write(key);
      ghost var left := LeftOver(d.disk, Some(key));
      assert before[d.path := ""][d.path := left] == before[d.path := left];
      assert before[d.path := left] - {d.path} == before - {d.path};
      var cleanup := None;
      if !ok {
        var c := d.CleanupAfterDeliveryFailure();
        cleanup := Some(c);
      }
      d.Drop();
      var result := if outputFails then Failed else if ok then Completed(0) else Completed(1);
      o := Outcome(result, Some(key), ok, cleanup, dispatches, sends);
    } else {
      d.Drop();
      var result := match reply
        case Rejected(code) => Completed(code)
        case Refused(code) => Completed(code)
        case Issued(None) => Completed(1)
        case _ => Failed;
      o := Outcome(if outputFails then Failed else result, None, false, None, dispatches, sends);
    }
    assert d.path !in before ==> before - {d.path} == before;
  }

  /** Give up before delivery: the destination is dropped. */
  method Abandon(
      d: ApiKeyDestination, ghost parses: string -> bool, result: Result, ghost before: map<string, string>,
      dispatches: nat, sends: nat)
    returns (o: Outcome)
    requires Reserved(d, before) && result != Completed(0)
    modifies d, d.fs
    ensures DiskFits(d.disk, d.path, before, d.fs.files, d.fs.removals - old(d.fs.removals), o)
    ensures StdoutFits(d.disk, d.path, old(d.fs.stdout), d.fs.stdout, o)
    ensures OutcomeFits(parses, d.disk, d.path, o)
    ensures o == Outcome(result, None, false, None, dispatches, sends)
  {
    d.Drop();
    o := Outcome(result, None, false, None, dispatches, sends);
    assert d.path != "-" ==> before[d.path := ""] - {d.path} == before;
  }

  /** Before dispatch a signal wins wherever it strikes: before the destination is prepared, before admission, or,
      when there was nothing to dispatch, before the outcome is published. Afterwards it never does. */
  predicate SignalWins(w: World, path: string, before: map<string, string>, publishes: bool) {
    || w.signalAt == 0
    || (w.signalAt == 1 && CanReserve(w, path, before) && !w.keyGenerationFails)
    || (w.signalAt == 4 && CanReserve(w, path, before) && !w.keyGenerationFails && publishes)
  }

  /** `service-principal credential issue`: one request under a service key. */
  method Issue(
      fs: FileSystem, control: OperationControl<()>, path: string, parses: string -> bool, w: World)
    returns (o: Outcome)
    requires control.Valid() && control.Value() == State(Active, false, ())
    modifies fs, control
    ensures control.Valid()
    ensures DiskFits(w.disk, path, old(fs.files), fs.files, fs.removals - old(fs.removals), o)
    ensures StdoutFits(w.disk, path, old(fs.stdout), fs.stdout, o)
    ensures OutcomeFits(parses, w.disk, path, o) && OwnerFits(control.Value(), o)
    ensures o.dispatches == if Reaches(w, path, old(fs.files)) && w.session.Ready? then 1 else 0
    ensures o.sends == if o.dispatches == 1 then Requests(w.first) else 0
    ensures o.attempted == if o.dispatches == 1 then KeyIn(SettledReply(w.first), parses) else None
    ensures control.Value().owner == Signal <==>
              SignalWins(w, path, old(fs.files), false) && (w.session.Ready? || w.signalAt == 0)
    ensures o.dispatches == 1 ==> o.result == StatusFor(SettledReply(w.first), o.attempted, o.delivered, w.outputFails)
    ensures o.dispatches == 0 ==>
              o.result == if CanReserve(w, path, old(fs.files)) && !w.keyGenerationFails && w.session.Ready?
                          then Placeholder else Failed
  {
    ghost var before := fs.files;
    Strike(control, w.signalAt == 0);
    var d := Prepare(fs, w.disk, path);
    if d == null {
      return NothingDelivered();
    }
    if w.keyGenerationFails || !w.session.Ready? {
      o := Abandon(d, parses, Failed, before, 0, 0);
      return;
    }
    Strike(control, w.signalAt == 1);
    var admitted := control.BeginBoundedDispatch();
    if !admitted {
      o := Abandon(d, parses, Placeholder, before, 0, 0);
      return;
    }
    Strike(control, w.signalAt == 2);
    var reply, sends := Perform(w.first);
    if reply.Broken? {
      o := Abandon(d, parses, Failed, before, 1, sends);
      return;
    }
    o := Deliver(d, parses, reply, before, w.outputFails, 1, sends);
  }

  /** The attempts under a human session: none when there is no session, a second one after a rejected
      credential was renewed. Each asks for admission first. */
  method Attempt(control: OperationControl<()>, w: World) returns (reply: Option<Reply>, dispatches: nat, sends: nat)
    requires control.Valid() && !control.Value().dispatched && control.Value().owner in {Active, Signal}
    modifies control
    ensures control.Valid()
    ensures reply == if w.session.Ready? && old(control.Value().owner) == Signal then None else Some(LastReply(w))
    ensures dispatches == if old(control.Value().owner) == Signal then 0 else Calls(w)
    ensures sends == if dispatches == 0 then 0 else AllRequests(w)
    ensures dispatches == 0 ==> control.Value() == old(control.Value())
    ensures dispatches > 0 ==> control.Value().owner == Completion && control.Value().dispatched
  {
    if w.session.Unavailable? { return Some(Refused(w.session.code)), 0, 0; }
    if w.session.Unusable? { return Some(Broken), 0, 0; }
    var admitted := control.BeginBoundedDispatch();
    if !admitted { return None, 0, 0; }
    Strike(control, w.signalAt == 2);
    var first, firstSends := Perform(w.first);
    if !first.Rejected? { return Some(first), 1, firstSends; }
    if w.refresh.Unavailable? { return Some(Refused(w.refresh.code)), 1, firstSends; }
    if w.refresh.Unusable? { return Some(Broken), 1, firstSends; }
    Strike(control, w.signalAt == 3);
    var again := control.BeginBoundedDispatch();
    if !again { return None, 1, firstSends; }
    var second, secondSends := Perform(w.second);
    return Some(second), 2, firstSends + secondSends;
  }

  /** An outcome without dispatch is published only by the winner of completion. */
  method Publish(control: OperationControl<()>, o: Outcome, strike: bool) returns (published: Outcome)
    requires control.Valid() && !control.Value().dispatched && control.Value().owner in {Active, Signal}
    modifies control
    ensures control.Valid() && !control.Value().dispatched
    ensures control.Value().owner == if strike || old(control.Value().owner) == Signal then Signal else Completion
    ensures published == if control.Value().owner == Signal then o.(result := Placeholder) else o
  {
    Strike(control, strike);
    var completed := control.BeginCompletion();
    published := if completed then o else o.(result := Placeholder);
  }

  /** `service-principal create`: the outcome may come without any dispatch, and is then published
      only by the winner of completion. */
  method Create(
      fs: FileSystem, control: OperationControl<()>, path: string, parses: string -> bool, w: World)
    returns (o: Outcome)
    requires control.Valid() && control.Value() == State(Active, false, ())
    modifies fs, control
    ensures control.Valid()
    ensures DiskFits(w.disk, path, old(fs.files), fs.files, fs.removals - old(fs.removals), o)
    ensures StdoutFits(w.disk, path, old(fs.stdout), fs.stdout, o)
    ensures OutcomeFits(parses, w.disk, path, o) && OwnerFits(control.Value(), o)
    ensures o.dispatches == if Reaches(w, path, old(fs.files)) then Calls(w) else 0
    ensures o.sends == if o.dispatches > 0 then AllRequests(w) else 0
    ensures o.attempted == if o.dispatches > 0 then KeyIn(LastReply(w), parses) else None
    ensures control.Value().owner == Signal <==> SignalWins(w, path, old(fs.files), w.session.Unavailable?)
    ensures o.dispatches > 0 ==> o.result == StatusFor(LastReply(w), o.attempted, o.delivered, w.outputFails)
    ensures o.dispatches == 0 ==>
              o.result == if !CanReserve(w, path, old(fs.files)) || w.keyGenerationFails || w.session.Unusable?
                          then Failed
                          else if control.Value().owner == Signal then Placeholder
                          else StatusFor(LastReply(w), None, false, w.outputFails)
  {
    ghost var before := fs.files;
    Strike(control, w.signalAt == 0);
    var d := Prepare(fs, w.disk, path);
    if d == null {
      return NothingDelivered();
    }
    if w.keyGenerationFails {
      o := Abandon(d, parses, Failed, before, 0, 0);
      return;
    }
    Strike(control, w.signalAt == 1);
    var reply, dispatches, sends := Attempt(control, w);
    if reply.None? {
      o := Abandon(d, parses, Placeholder, before, 0, 0);
      return;
    }
    if reply.value.Broken? {
      o := Abandon(d, parses, Failed, before, dispatches, sends);
      return;
    }
    o := Deliver(d, parses, reply.value, before, w.outputFails, dispatches, sends);
    if !control.dispatched { o := Publish(control, o, w.signalAt == 4); }
  }

  /** At least the key was written, and the rest of the line or the sync failed. */
  predicate Wrote(disk: Disk, key: string) {
    |key| <= disk.accepts && (|key| < disk.accepts ==> disk.finalSyncFails)
  }

  /** The promise of the one-time key, and its exact limit. A file that existed is untouched. A file the
      command created holds the whole key line exactly when delivery succeeded, or when everything was
      written but neither the final sync nor the one removal worked; that case is reported as uncertain.
      Whatever was delivered reads back as the key. */
  lemma KeyLineKeptExactlyWhen(
      disk: Disk, path: string, before: map<string, string>, after: map<string, string>, removals: int, o: Outcome)
    requires DiskFits(disk, path, before, after, removals, o)
    requires OutcomeFits((key: string) => ValidApiKey(key, true), disk, path, o)
    requires path != "-"
    ensures path in before ==> after == before && removals == 0
    ensures path !in before && !disk.createFails ==> removals == if o.delivered then 0 else 1
    ensures path !in before && o.attempted.Some? && !disk.createFails ==>
              && (path in after && ReadApiKey(after[path]) == o.attempted <==>
                    o.delivered || (Wrote(disk, o.attempted.value) && disk.removeFails))
              && (path in after && !o.delivered ==> o.cleanup == Some(Uncertain))
    ensures o.cleanup == Some(Removed) && path !in before ==> after == before
  {
    if path !in before && o.attempted.Some? && path in after {
      ReadsExactly(after[path], o.attempted.value);
      var line := o.attempted.value + "\n";
      if |o.attempted.value| <= disk.accepts && !o.delivered {
        assert line[..|o.attempted.value|] == o.attempted.value;
      }
    }
  }

  /** On the terminal the whole key line appears exactly when delivery succeeded. */
  lemma LineShownExactlyWhen(
      parses: string -> bool, disk: Disk, before: string, after: string, o: Outcome)
    requires StdoutFits(disk, "-", before, after, o) && OutcomeFits(parses, disk, "-", o)
    ensures o.attempted.None? ==> after == before
    ensures o.attempted.Some? ==> (after == before + o.attempted.value + "\n" <==> o.delivered)
  {
    if o.attempted.Some? {
      var line := o.attempted.value + "\n";
      assert before + o.attempted.value + "\n" == before + line;
      assert |after| == |before| + |LeftOver(disk, o.attempted)|;
    }
  }

  /** The failing case in the concrete: everything is written, the final sync and the removal fail, and
      the key stays behind although it was not delivered. */
  method KeyStaysBehind(fs: FileSystem, control: OperationControl<()>, key: string) returns (o: Outcome)
    requires ValidApiKey(key, true) && "k" !in fs.files
    requires control.Valid() && control.Value() == State(Active, false, ())
    modifies fs, control
    ensures !o.delivered && o.cleanup == Some(Uncertain)
    ensures "k" in fs.files && ReadApiKey(fs.files["k"]) == Some(key)
  {
    var parses := (k: string) => ValidApiKey(k, true);
    var disk := Disk(false, false, false, true, |key| + 1, true);
    var answered := Call((n: nat) => Answered(Issued(Some(key))));
    o := Issue(fs, control, "k", parses, World(disk, false, Ready, answered, Unusable, answered, false, 9));
    KeyLineKeptExactlyWhen(disk, "k", old(fs.files), fs.files, fs.removals - old(fs.removals), o);
  }
}
