/** The clock of the polling loop: which response decides, how long each read and each sleep may last,
    and how many polls a deadline allows. Times are in nanoseconds. */
module PollingTime {
  import opened Basics

  const POLL_INTERVAL := 2_000_000_000
  const MAX_CONSECUTIVE_FAILURES := 2

  datatype Response<T, E> = Ok(resource: T) | Err(failure: E)

  /** A read that is over: what it answered, and how long it took. */
  datatype Seen<T, E> = Seen(response: Response<T, E>, lasting: nat)

  /** One turn of the loop as its environment plays it: what each sample of the stop flag says, whether
      the read is admitted, what it answers if it starts at a given time, and the time that passes. */
  datatype Round<T, E> = Round(
    stoppedFirst: bool, sampling: nat, stoppedSecond: bool, admitted: bool,
    observe: nat -> Seen<T, E>, stoppedThird: bool, oversleep: nat)

  datatype Poll = Poll(at: nat, budget: Option<nat>)
  datatype Sleep = Sleep(at: nat, requested: nat)

  /** A poll, when it was over, and the sleep after it if there was one. */
  datatype Lap = Lap(poll: Poll, over: nat, nap: Option<Sleep>) {
    function End(): nat {
      if nap.Some? then nap.value.at + nap.value.requested else over
    }
  }

  // ---- The verdict as a fold over the responses ----

  datatype Verdict<T, S, E> = Undecided(failures: nat) | Terminal(resource: T, state: S) | Failure(failure: E)

  function Weigh<T, S, E>(
      v: Verdict<T, S, E>, response: Response<T, E>, terminal: T -> Option<S>, retryable: E -> bool): Verdict<T, S, E>
  {
    if !v.Undecided? then v
    else match response
      case Ok(resource) =>
        var state := terminal(resource);
        if state.Some? then Terminal(resource, state.value) else Undecided(0)
      case Err(failure) =>
        if retryable(failure) && v.failures + 1 < MAX_CONSECUTIVE_FAILURES then Undecided(v.failures + 1)
        else Failure(failure)
  }

  /** The fold over all responses. */
  function Judge<T, S, E>(
      responses: seq<Response<T, E>>, terminal: T -> Option<S>, retryable: E -> bool): Verdict<T, S, E>
  {
    if responses == [] then Undecided(0)
    else
      var last := |responses| - 1;
      Weigh(Judge(responses[..last], terminal, retryable), responses[last], terminal, retryable)
  }

  lemma JudgeExtends<T, S, E>(
      responses: seq<Response<T, E>>, response: Response<T, E>, terminal: T -> Option<S>, retryable: E -> bool)
    ensures (responses + [response])[..|responses|] == responses
    ensures Judge(responses + [response], terminal, retryable) ==
              Weigh(Judge(responses, terminal, retryable), response, terminal, retryable)
  {
    assert (responses + [response])[..|responses|] == responses;
  }

  /** A terminal resource, a failure that may not be retried, or a failure directly after a failure. */
  predicate Decisive<T, S, E>(responses: seq<Response<T, E>>, i: nat, terminal: T -> Option<S>, retryable: E -> bool)
    requires i < |responses|
  {
    match responses[i]
    case Ok(resource) => terminal(resource).Some?
    case Err(failure) => !retryable(failure) || (i > 0 && responses[i - 1].Err?)
  }

  ghost predicate NoneDecisive<T, S, E>(
      responses: seq<Response<T, E>>, n: nat, terminal: T -> Option<S>, retryable: E -> bool)
    requires n <= |responses|
  {
    forall i :: 0 <= i < n ==> !Decisive(responses, i, terminal, retryable)
  }

  /** An undecided fold has met no decisive response, and counts the failure it has just met. */
  lemma {:induction false} UndecidedExactlyWhen<T, S, E>(
      responses: seq<Response<T, E>>, terminal: T -> Option<S>, retryable: E -> bool)
    ensures Judge(responses, terminal, retryable).Undecided? <==>
              NoneDecisive(responses, |responses|, terminal, retryable)
    ensures var v := Judge(responses, terminal, retryable);
            v.Undecided? ==> v.failures == if responses != [] && responses[|responses| - 1].Err? then 1 else 0
  {
    if responses != [] {
      var last := |responses| - 1;
      var front := responses[..last];
      UndecidedExactlyWhen(front, terminal, retryable);
      assert forall i :: 0 <= i < last ==>
               Decisive(front, i, terminal, retryable) == Decisive(responses, i, terminal, retryable);
      assert Judge(front, terminal, retryable).Undecided? ==>
               (Judge(responses, terminal, retryable).Undecided? <==> !Decisive(responses, last, terminal, retryable));
    }
  }

  /** The fold stops at the first decisive response, and nowhere else. */
  lemma {:induction false} JudgedAtFirstDecisive<T, S, E>(
      responses: seq<Response<T, E>>, k: nat, terminal: T -> Option<S>, retryable: E -> bool)
    requires k < |responses|
    requires Decisive(responses, k, terminal, retryable) && NoneDecisive(responses, k, terminal, retryable)
    ensures Judge(responses, terminal, retryable) ==
              match responses[k]
              case Ok(resource) => Terminal(resource, terminal(resource).value)
              case Err(failure) => Failure(failure)
    decreases |responses|
  {
    var front := responses[..|responses| - 1];
    assert forall i :: 0 <= i < |front| ==>
             Decisive(front, i, terminal, retryable) == Decisive(responses, i, terminal, retryable);
    if k < |front| {
      JudgedAtFirstDecisive(front, k, terminal, retryable);
    } else {
      UndecidedExactlyWhen(front, terminal, retryable);
    }
  }

  // ---- Time ----

  /** What is left of the wait, if anything; without a deadline always one interval. */
  function Remaining(timeout: Option<nat>, started: nat, now: nat): (left: Option<nat>)
    ensures timeout.None? ==> left == Some(POLL_INTERVAL)
    ensures timeout.Some? && started <= now ==>
              left == if now < started + timeout.value then Some(started + timeout.value - now) else None
  {
    if timeout.None? then Some(POLL_INTERVAL)
    else
      var elapsed := if now < started then 0 else now - started;
      if elapsed < timeout.value then Some(timeout.value - elapsed) else None
  }

  datatype Ending<T, S, E> = Decided(verdict: Verdict<T, S, E>) | TimedOut | Stopped | ScriptEnds

  /** A read starts before the deadline, its budget ends at the deadline, and it starts at least one
      whole interval after the read before it. */
  ghost predicate PollFits(r: Poll, i: nat, timeout: Option<nat>, started: nat) {
    && started + i * POLL_INTERVAL <= r.at
    && match timeout
       case None => r.budget == None
       case Some(t) => r.at < started + t && r.budget == Some(started + t - r.at)
  }

  /** A sleep lasts one interval or up to the deadline, whichever is less, and is never empty. */
  ghost predicate SleepFits(s: Sleep, timeout: Option<nat>, started: nat) {
    && 0 < s.requested <= POLL_INTERVAL
    && match timeout
       case None => s.requested == POLL_INTERVAL
       case Some(t) =>
         && s.at + s.requested <= started + t
         && (s.requested == POLL_INTERVAL || s.at + s.requested == started + t)
  }

  ghost predicate LapFits(lap: Lap, i: nat, timeout: Option<nat>, started: nat) {
    && PollFits(lap.poll, i, timeout, started) && lap.poll.at <= lap.over
    && (lap.nap.Some? ==> SleepFits(lap.nap.value, timeout, started) && lap.over <= lap.nap.value.at)
  }

  ghost predicate WentOn<T, E>(r: Round<T, E>) {
    !r.stoppedFirst && !r.stoppedSecond && r.admitted
  }

  /** The lap is this round: no stop was met, the response is the one to a read started then, and a sleep
      begins when that read is over. */
  ghost predicate Plays<T, E>(r: Round<T, E>, lap: Lap, response: Response<T, E>) {
    var seen := r.observe(lap.poll.at);
    && WentOn(r) && response == seen.response && lap.over == lap.poll.at + seen.lasting
    && (lap.nap.Some? ==> !r.stoppedThird && lap.nap.value.at == lap.over)
  }

  /** One turn of the loop. */
  method Turn<T, S, E>(
      round: Round<T, E>, terminal: T -> Option<S>, retryable: E -> bool, timeout: Option<nat>, started: nat,
      now: nat, failures: nat)
    returns (ending: Option<Ending<T, S, E>>, lap: Option<Lap>, response: Option<Response<T, E>>, later: nat)
    requires started <= now
    ensures now <= later && (lap.Some? <==> response.Some?)
    ensures lap.Some? ==> lap.value.poll.at == now + round.sampling && lap.value.End() <= later
    ensures lap.Some? ==> LapFits(lap.value, 0, timeout, started) && Plays(round, lap.value, response.value)
    ensures ending.None? <==> lap.Some? && lap.value.nap.Some?
    ensures ending.Some? && ending.value.Decided? ==>
              && lap.Some? && !ending.value.verdict.Undecided?
              && ending.value.verdict == Weigh(Undecided(failures), response.value, terminal, retryable)
    ensures lap.Some? && (ending.None? || !ending.value.Decided?) ==>
              Weigh<T, S, E>(Undecided(failures), response.value, terminal, retryable).Undecided?
    ensures ending == Some(Stopped) ==> if lap.None? then !WentOn(round) else round.stoppedThird
    ensures ending == Some(TimedOut) ==> timeout.Some? && started + timeout.value <= later
    ensures ending != Some(ScriptEnds)
  {
    ending, lap, response, later := Some(Stopped), None, None, now;
    if round.stoppedFirst { return; }
    later := now + round.sampling;
    var remaining := Remaining(timeout, started, later);
    if round.stoppedSecond { return; }
    if remaining.None? { ending := Some(TimedOut); return; }
    if !round.admitted { return; }
    var seen := round.observe(later);
    var poll := Poll(later, if timeout.Some? then remaining else None);
    lap, response := Some(Lap(poll, later + seen.lasting, None)), Some(seen.response);
    later := later + seen.lasting;
    match seen.response {
      case Ok(resource) =>
        var state := terminal(resource);
        if state.Some? { ending := Some(Decided(Terminal(resource, state.value))); return; }
      case Err(failure) =>
        if !(retryable(failure) && failures + 1 < MAX_CONSECUTIVE_FAILURES) {
          ending := Some(Decided(Failure(failure)));
          return;
        }
    }
    if round.stoppedThird { return; }
    remaining := Remaining(timeout, started, later);
    if remaining.None? { ending := Some(TimedOut); return; }
    var nap := Sleep(later, if POLL_INTERVAL < remaining.value then POLL_INTERVAL else remaining.value);
    lap := Some(Lap(poll, later, Some(nap)));
    later := later + nap.requested + round.oversleep;
    ending := None;
  }

  /** What the loop has done so far: every lap fits and ends before any later one starts. */
  ghost predicate Paced(laps: seq<Lap>, timeout: Option<nat>, started: nat) {
    && (forall i :: 0 <= i < |laps| ==> LapFits(laps[i], i, timeout, started))
    && (forall i, j :: 0 <= i < j < |laps| ==> laps[i].nap.Some? && laps[i].End() <= laps[j].poll.at)
  }

  /** The timeout divided by the interval, rounded up. */
  function MostPolls(timeout: nat): nat {
    (timeout + POLL_INTERVAL - 1) / POLL_INTERVAL
  }

  /** A deadline allows at most ceil(timeout / interval) polls. */
  lemma PollsAreBounded(laps: seq<Lap>, timeout: nat, started: nat)
    requires Paced(laps, Some(timeout), started)
    ensures |laps| <= MostPolls(timeout)
  {
    if laps != [] {
      var last := |laps| - 1;
      assert LapFits(laps[last], last, Some(timeout), started);
    }
  }

  /** All laps so far are complete and over. */
  ghost predicate Over(laps: seq<Lap>, timeout: Option<nat>, started: nat, now: nat) {
    && started <= now
    && (forall i :: 0 <= i < |laps| ==> laps[i].nap.Some? && laps[i].End() <= now)
    && (started + |laps| * POLL_INTERVAL <= now || (timeout.Some? && started + timeout.value <= now))
  }

  lemma LapExtends(laps: seq<Lap>, lap: Lap, timeout: Option<nat>, started: nat, now: nat, later: nat)
    requires Paced(laps, timeout, started) && Over(laps, timeout, started, now)
    requires LapFits(lap, 0, timeout, started) && now <= lap.poll.at && lap.End() <= later
    ensures Paced(laps + [lap], timeout, started)
    ensures lap.nap.Some? ==> Over(laps + [lap], timeout, started, later)
  {
  }

  /** The laps and their responses are the first rounds, played in turn. */
  ghost predicate Played<T, E>(rounds: seq<Round<T, E>>, laps: seq<Lap>, responses: seq<Response<T, E>>) {
    |responses| == |laps| <= |rounds| && forall i :: 0 <= i < |laps| ==> Plays(rounds[i], laps[i], responses[i])
  }

  /** The round not polled stopped the loop, or the last one polled did. */
  ghost predicate Halted<T, E>(rounds: seq<Round<T, E>>, n: nat) {
    (n < |rounds| && !WentOn(rounds[n])) || (0 < n <= |rounds| && rounds[n - 1].stoppedThird)
  }

  function Deadline(timeout: Option<nat>, started: nat): Option<nat> {
    if timeout.None? then None else Some(started + timeout.value)
  }

  /** Before the next turn: every response was weighed and decided nothing, and all laps are over. */
  ghost predicate Waiting<T, S, E>(
      rounds: seq<Round<T, E>>, laps: seq<Lap>, responses: seq<Response<T, E>>, terminal: T -> Option<S>,
      retryable: E -> bool, timeout: Option<nat>, started: nat, now: nat, failures: nat)
  {
    && Played(rounds, laps, responses) && Judge(responses, terminal, retryable) == Undecided(failures)
    && Paced(laps, timeout, started) && Over(laps, timeout, started, now)
  }

  /** The verdict is the fold's over exactly the responses read, stopping and timing out have their cause,
      and every lap fits. */
  ghost predicate EndsWell<T, S, E>(
      rounds: seq<Round<T, E>>, laps: seq<Lap>, responses: seq<Response<T, E>>, terminal: T -> Option<S>,
      retryable: E -> bool, timeout: Option<nat>, started: nat, now: nat, ending: Ending<T, S, E>)
  {
    var v := Judge(responses, terminal, retryable);
    && Played(rounds, laps, responses)
    && (if ending.Decided? then v == ending.verdict && !v.Undecided? else v.Undecided?)
    && (ending.Decided? ==> responses != [] && Judge(responses[..|responses| - 1], terminal, retryable).Undecided?)
    && (ending.Stopped? ==> Halted(rounds, |laps|))
    && (ending.TimedOut? ==> timeout.Some? && started + timeout.value <= now)
    && (ending.ScriptEnds? ==> |laps| == |rounds|)
    && Paced(laps, timeout, started) && started <= now && (laps != [] ==> laps[|laps| - 1].End() <= now)
  }

  /** A turn of the loop, with what is kept from turn to turn. */
  method Advance<T, S, E>(
      rounds: seq<Round<T, E>>, laps: seq<Lap>, responses: seq<Response<T, E>>, terminal: T -> Option<S>,
      retryable: E -> bool, timeout: Option<nat>, started: nat, now: nat, failures: nat)
    returns (ending: Option<Ending<T, S, E>>, laps': seq<Lap>, responses': seq<Response<T, E>>, later: nat,
             failures': nat)
    requires |laps| < |rounds|
    requires Waiting(rounds, laps, responses, terminal, retryable, timeout, started, now, failures)
    ensures ending.None? ==>
              && Waiting(rounds, laps', responses', terminal, retryable, timeout, started, later, failures')
              && |laps'| == |laps| + 1
    ensures ending.Some? ==>
              EndsWell(rounds, laps', responses', terminal, retryable, timeout, started, later, ending.value)
  {
    var lap, response;
    ending, lap, response, later := Turn(rounds[|laps|], terminal, retryable, timeout, started, now, failures);
    laps', responses', failures' := laps, responses, failures;
    if lap.Some? {
      LapExtends(laps, lap.value, timeout, started, now, later);
      JudgeExtends(responses, response.value, terminal, retryable);
      laps', responses' := laps + [lap.value], responses + [response.value];
      failures' := if response.value.Ok? then 0 else failures + 1;
    }
  }

  /** The whole wait. A script longer than the bound on polls is never used up. */
  method WaitForTerminal<T, S, E>(
      rounds: seq<Round<T, E>>, terminal: T -> Option<S>, retryable: E -> bool, timeout: Option<nat>, started: nat,
      lag: nat)
    returns (ending: Ending<T, S, E>, laps: seq<Lap>, responses: seq<Response<T, E>>, now: nat)
    ensures EndsWell(rounds, laps, responses, terminal, retryable, timeout, started, now, ending)
    ensures timeout.Some? ==> |laps| <= MostPolls(timeout.value)
  {
    laps, responses, now := [], [], started + lag;
    var failures := 0;
    while |laps| < |rounds|
      invariant Waiting(rounds, laps, responses, terminal, retryable, timeout, started, now, failures)
      decreases |rounds| - |laps|
    {
      var over;
      over, laps, responses, now, failures :=
        Advance(rounds, laps, responses, terminal, retryable, timeout, started, now, failures);
      if over.Some? {
        ending := over.value;
        if timeout.Some? { PollsAreBounded(laps, timeout.value, started); }
        return;
      }
    }
    ending := ScriptEnds;
    if timeout.Some? { PollsAreBounded(laps, timeout.value, started); }
  }
}
