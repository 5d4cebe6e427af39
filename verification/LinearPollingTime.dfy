/** The clock of the Linear authorization observer: waits cut into short slices so that a stop is
    noticed soon, and observations never closer together than the service asked. */
module LinearPollingTime {
  import opened Basics

  const SECOND := 1_000_000_000
  const POLL_INTERVAL := 5 * SECOND
  const POLL_WAIT_SLICE := 100_000_000

  /** The environment of one wait, turn by turn: what the stop flag says, and by how much sampling and
      sleeping take longer than asked. */
  datatype Weather = Weather(cancelled: nat -> bool, sampling: nat -> nat, oversleep: nat -> nat) {
    /** A clock that advances only by the requested sleeps. */
    ghost predicate Exact() {
      forall i: nat :: sampling(i) == 0 && oversleep(i) == 0
    }
  }

  function Sum(slices: seq<nat>): nat {
    if slices == [] then 0 else Sum(slices[..|slices| - 1]) + slices[|slices| - 1]
  }

  /** The time that passes besides the first `n` slices themselves. */
  function Passed(w: Weather, n: nat): nat {
    if n == 0 then 0 else Passed(w, n - 1) + w.sampling(n - 1) + w.oversleep(n - 1)
  }

  /** Wait at least `delay` unless stopped. All slices are short; all but the last are whole; under an
      exact clock they add up to the delay. */
  method WaitForPoll(w: Weather, delay: nat, started: nat) returns (completed: bool, slices: seq<nat>, now: nat)
    ensures completed ==> started + delay <= now
    ensures completed ==> forall i: nat :: i <= |slices| ==> !w.cancelled(i)
    ensures !completed ==> w.cancelled(|slices|) && forall i: nat :: i < |slices| ==> !w.cancelled(i)
    ensures forall i :: 0 <= i < |slices| ==> 0 < slices[i] <= POLL_WAIT_SLICE
    ensures forall i :: 0 <= i < |slices| - 1 ==> slices[i] == POLL_WAIT_SLICE
    ensures started + Sum(slices) <= now && Sum(slices) <= delay
    ensures |slices| <= (delay + POLL_WAIT_SLICE - 1) / POLL_WAIT_SLICE
    ensures now == started + Sum(slices) + Passed(w, |slices|) + if completed then w.sampling(|slices|) else 0
    ensures w.Exact() ==> now == started + Sum(slices)
    ensures w.Exact() && completed ==> Sum(slices) == delay
  {
    slices, now := [], started;
    while true
      invariant started + Sum(slices) <= now && Sum(slices) <= delay
      invariant forall i: nat :: i < |slices| ==> !w.cancelled(i)
      invariant forall i :: 0 <= i < |slices| ==> 0 < slices[i] <= POLL_WAIT_SLICE
      invariant forall i :: 0 <= i < |slices| - 1 ==> slices[i] == POLL_WAIT_SLICE
      invariant |slices| > 0 && slices[|slices| - 1] < POLL_WAIT_SLICE ==> started + delay <= now
      invariant |slices| * POLL_WAIT_SLICE < Sum(slices) + POLL_WAIT_SLICE
      invariant now - started < delay ==> |slices| * POLL_WAIT_SLICE == Sum(slices)
      invariant now == started + Sum(slices) + Passed(w, |slices|)
      invariant w.Exact() ==> now == started + Sum(slices)
      decreases delay - (now - started)
    {
      if w.cancelled(|slices|) { return false, slices, now; }
      now := now + w.sampling(|slices|);
      if delay <= now - started { return true, slices, now; }
      var remaining := delay - (now - started);
      var slice := if remaining < POLL_WAIT_SLICE then remaining else POLL_WAIT_SLICE;
      now := now + slice + w.oversleep(|slices|);
      assert (slices + [slice])[..|slices|] == slices;
      slices := slices + [slice];
    }
  }

  /** What one observation answers; `Settled` is every answer that ends the command. */
  datatype Reply = Pending | RateLimited(retryAfter: Option<nat>) | Settled

  /** The delay before the next observation. */
  function RetryDelay(retryAfter: Option<nat>): (delay: nat)
    ensures POLL_INTERVAL <= delay && (retryAfter.Some? ==> retryAfter.value * SECOND <= delay)
    ensures delay == POLL_INTERVAL || (retryAfter.Some? && delay == retryAfter.value * SECOND)
  {
    var seconds := if retryAfter.Some? then retryAfter.value else 5;
    (if seconds < 5 then 5 else seconds) * SECOND
  }

  /** What the service asked for: at least the poll interval, and at least its own Retry-After. */
  ghost predicate FarEnough(reply: Reply, from: nat, to: nat) {
    && from + POLL_INTERVAL <= to
    && (reply.RateLimited? && reply.retryAfter.Some? ==> from + reply.retryAfter.value * SECOND <= to)
  }

  function DelayAfter(reply: Reply): nat {
    if reply.RateLimited? then RetryDelay(reply.retryAfter) else POLL_INTERVAL
  }

  /** One observation of the script: the weather before it, what it answers, how long it takes. */
  datatype Turn = Turn(weather: Weather, reply: Reply, reading: nat)

  datatype Ending = Finished | Stopped | ScriptEnds

  /** Any two observations are far enough apart, the first comes after the first delay, and under an exact
      clock each comes exactly when it was due. */
  ghost predicate Spaced(script: seq<Turn>, times: seq<nat>, first: nat, started: nat) {
    && |times| <= |script|
    && (forall i, j :: 0 <= i < j < |times| ==> FarEnough(script[i].reply, times[i], times[j]))
    && (forall i {:trigger OnTime(script, times, i, first, started)} ::
          0 <= i < |times| ==> OnTime(script, times, i, first, started))
  }

  ghost predicate OnTime(script: seq<Turn>, times: seq<nat>, i: nat, first: nat, started: nat)
    requires i < |times| <= |script|
  {
    var due := Due(script, times, i, first, started);
    due <= times[i] && (script[i].weather.Exact() ==> times[i] == due)
  }

  /** When an observation is due, given those before it. */
  function Due(script: seq<Turn>, times: seq<nat>, i: nat, first: nat, started: nat): nat
    requires i <= |times| <= |script|
  {
    if i == 0 then started + first else times[i - 1] + script[i - 1].reading + DelayAfter(script[i - 1].reply)
  }

  lemma SpacedExtends(script: seq<Turn>, times: seq<nat>, first: nat, started: nat, later: nat)
    requires Spaced(script, times, first, started) && |times| < |script|
    requires Due(script, times, |times|, first, started) <= later
    requires script[|times|].weather.Exact() ==> later == Due(script, times, |times|, first, started)
    ensures Spaced(script, times + [later], first, started)
  {
    var longer, last := times + [later], |times| - 1;
    forall i | 0 <= i < |times| ensures FarEnough(script[i].reply, times[i], later) {
      assert i < last ==> FarEnough(script[i].reply, times[i], times[last]);
    }
    forall i | 0 <= i <= |times| ensures OnTime(script, longer, i, first, started) {
      assert i < |times| ==> OnTime(script, times, i, first, started);
    }
  }

  /** Over every script of replies, observations are spaced as they should be; the loop ends at the first
      settling reply or at the first stopped wait, and nowhere else. */
  method Observe(script: seq<Turn>, first: nat, started: nat) returns (ending: Ending, times: seq<nat>)
    ensures Spaced(script, times, first, started)
    ensures forall i :: 0 <= i < |times| ==> (script[i].reply.Settled? <==> ending.Finished? && i == |times| - 1)
    ensures ending.Finished? ==> |times| > 0
    ensures ending.Stopped? ==> |times| < |script| && exists i: nat :: script[|times|].weather.cancelled(i)
    ensures ending.ScriptEnds? ==> |times| == |script|
  {
    times := [];
    var now: nat, next: nat := started, first;
    while |times| < |script|
      invariant Spaced(script, times, first, started)
      invariant now + next == Due(script, times, |times|, first, started)
      invariant forall i :: 0 <= i < |times| ==> !script[i].reply.Settled?
      decreases |script| - |times|
    {
      var turn := script[|times|];
      var completed, _, later := WaitForPoll(turn.weather, next, now);
      if !completed { return Stopped, times; }
      SpacedExtends(script, times, first, started, later);
      times := times + [later];
      now := later + turn.reading;
      match turn.reply {
        case Pending => next := POLL_INTERVAL;
        case RateLimited(retryAfter) => next := RetryDelay(retryAfter);
        case Settled => return Finished, times;
      }
    }
    ending := ScriptEnds;
  }
}
