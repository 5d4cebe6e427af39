/** Cancellation of HTTP work: a flag for synchronous checks and a watch channel for tasks that wait.
    Any number of `cancel` calls and of waiters, interleaved step by step. */
module HttpCancellation {

  /** `cancel`: store the flag, replace the channel's value, and then wake whoever is registered. */
  datatype Canceller = Idle | Flagged | Replaced | Finished

  /** `cancelled`: subscribe, look, and then wait for a change and look again. `seen` is the version the
      waiter has seen; a registered waiter is woken by the next notification. */
  datatype Waiter =
    | Start
    | Subscribed(seen: nat)
    | Listening(seen: nat)
    | Registered(seen: nat, notified: bool)
    | Sleeping(seen: nat, notified: bool)
    | Woken(seen: nat)
    | Returned

  datatype System = System(flag: bool, value: bool, version: nat, cancellers: seq<Canceller>, waiters: seq<Waiter>)

  ghost predicate Initial(s: System) {
    && !s.flag && !s.value && s.version == 0
    && (forall k :: 0 <= k < |s.cancellers| ==> s.cancellers[k].Idle?)
    && (forall j :: 0 <= j < |s.waiters| ==> s.waiters[j].Start?)
  }

  function Notified(w: Waiter): Waiter {
    match w
    case Registered(seen, _) => Registered(seen, true)
    case Sleeping(seen, _) => Sleeping(seen, true)
    case _ => w
  }

  function CancelNext(s: System, k: nat): (s': System)
    requires k < |s.cancellers|
  {
    match s.cancellers[k]
    case Idle => s.(flag := true, cancellers := s.cancellers[k := Flagged])
    case Flagged => s.(value := true, version := s.version + 1, cancellers := s.cancellers[k := Replaced])
    case Replaced =>
      s.(cancellers := s.cancellers[k := Finished],
         waiters := seq(|s.waiters|, j requires 0 <= j < |s.waiters| => Notified(s.waiters[j])))
    case Finished => s
  }

  /** What a waiter does next; a sleeping waiter that was not notified does nothing. */
  function WaiterNext(w: Waiter, value: bool, version: nat): Waiter {
    match w
    case Start => Subscribed(version)
    case Subscribed(seen) => if value then Returned else Listening(seen)
    case Listening(seen) => Registered(seen, false)
    case Registered(seen, notified) => if version != seen then Woken(version) else Sleeping(seen, notified)
    case Sleeping(seen, notified) => if notified then Listening(seen) else w
    case Woken(seen) => if value then Returned else Listening(seen)
    case Returned => w
  }

  function WaitNext(s: System, j: nat): (s': System)
    requires j < |s.waiters|
  {
    s.(waiters := s.waiters[j := WaiterNext(s.waiters[j], s.value, s.version)])
  }

  ghost predicate Step(s: System, s': System) {
    || (exists k: nat :: k < |s.cancellers| && s' == CancelNext(s, k))
    || (exists j: nat :: j < |s.waiters| && s' == WaitNext(s, j))
  }

  ghost predicate IsRun(run: seq<System>) {
    && |run| > 0 && Initial(run[0])
    && forall i, j :: 0 <= i < |run| && 0 <= j < |run| && j == i + 1 ==> Step(run[i], run[j])
  }

  // ---- What every state satisfies ----

  /** The channel's value follows the flag, and the version counts replacements. */
  ghost predicate ChannelFits(s: System) {
    && (s.value ==> s.flag) && (s.value <==> s.version > 0) && (s.flag ==> SomeBegun(s))
    && forall k :: 0 <= k < |s.cancellers| ==>
         && (!s.cancellers[k].Idle? ==> s.flag)
         && (s.cancellers[k].Replaced? || s.cancellers[k].Finished? ==> s.value)
  }

  ghost predicate SomeBegun(s: System) {
    exists k :: 0 <= k < |s.cancellers| && !s.cancellers[k].Idle?
  }

  ghost predicate SomeFinished(s: System) {
    exists k :: 0 <= k < |s.cancellers| && s.cancellers[k].Finished?
  }

  /** A waiter that went on waiting has seen no change yet. While one sleeps without having been
      notified, no `cancel` has finished. */
  ghost predicate WaiterFits(w: Waiter, s: System) {
    match w
    case Start => true
    case Subscribed(seen) => seen <= s.version
    case Listening(seen) => seen == 0
    case Registered(seen, notified) => seen == 0 && (notified ==> s.value)
    case Sleeping(seen, notified) => seen == 0 && (notified ==> s.value) && (!notified ==> !SomeFinished(s))
    case Woken(seen) => 0 < seen <= s.version
    case Returned => s.value
  }

  ghost predicate Inv(s: System) {
    ChannelFits(s) && forall j :: 0 <= j < |s.waiters| ==> WaiterFits(s.waiters[j], s)
  }

  lemma CancelKeepsInv(s: System, k: nat)
    requires Inv(s) && k < |s.cancellers|
    ensures Inv(CancelNext(s, k))
  {
    assert !CancelNext(s, k).cancellers[k].Idle?;
  }

  lemma WaitKeepsInv(s: System, j: nat)
    requires Inv(s) && j < |s.waiters|
    ensures Inv(WaitNext(s, j))
  {
    assert WaiterFits(WaiterNext(s.waiters[j], s.value, s.version), s);
  }

  /** Every state of every run. */
  lemma {:induction false} EveryStateFits(run: seq<System>, i: nat)
    requires IsRun(run) && i < |run|
    ensures Inv(run[i])
  {
    if i > 0 {
      EveryStateFits(run, i - 1);
      var s, s' := run[i - 1], run[i];
      assert Step(s, s');
      if k: nat :| k < |s.cancellers| && s' == CancelNext(s, k) {
        CancelKeepsInv(s, k);
      } else {
        var j: nat :| j < |s.waiters| && s' == WaitNext(s, j);
        WaitKeepsInv(s, j);
      }
    }
  }

  /** A waiter that returned, and anyone who sees the channel true, finds the flag set; and nobody sees
      either, returns, or is woken from sleep, before a `cancel` has begun. */
  lemma ChannelImpliesFlag(run: seq<System>, i: nat)
    requires IsRun(run) && i < |run|
    ensures run[i].flag ==> SomeBegun(run[i])
    ensures forall j :: 0 <= j < |run[i].waiters| && run[i].waiters[j].Sleeping? && run[i].waiters[j].notified ==>
              run[i].value
    ensures run[i].value ==> run[i].flag
    ensures (exists j :: 0 <= j < |run[i].waiters| && run[i].waiters[j].Returned?) ==> run[i].value && run[i].flag
  {
    EveryStateFits(run, i);
    forall j | 0 <= j < |run[i].waiters| && run[i].waiters[j].Sleeping? && run[i].waiters[j].notified
      ensures run[i].value
    {
      assert WaiterFits(run[i].waiters[j], run[i]);
    }
  }

  // ---- Every cancel finishes ----

  /** How many steps of its own a `cancel` is from its end. */
  function StepsLeft(c: Canceller): nat {
    match c
    case Idle => 3
    case Flagged => 2
    case Replaced => 1
    case Finished => 0
  }

  /** A step of its own brings a `cancel` one step closer to its end; nobody else's step changes where it is. */
  lemma CancelsAreNotHeldUp(s: System, s': System, k: nat)
    requires Step(s, s') && k < |s.cancellers|
    ensures |s'.cancellers| == |s.cancellers|
    ensures s' == CancelNext(s, k) && s.cancellers[k] != Finished ==>
              StepsLeft(s'.cancellers[k]) == StepsLeft(s.cancellers[k]) - 1
    ensures s'.cancellers[k] == s.cancellers[k] || s' == CancelNext(s, k)
    ensures StepsLeft(s'.cancellers[k]) <= StepsLeft(s.cancellers[k])
  {
  }

  /** How often canceller `k` takes a step between `i` and the end of the run. */
  ghost function CancelMoves(run: seq<System>, k: nat, i: nat): nat
    requires IsRun(run) && i < |run|
    decreases |run| - i
  {
    if i + 1 == |run| then 0
    else (if k < |run[i].cancellers| && run[i + 1] == CancelNext(run[i], k) then 1 else 0) + CancelMoves(run, k, i + 1)
  }

  /** Three steps of its own finish any `cancel`, whatever happens in between, and then flag and channel are set. */
  lemma {:induction false} EveryCancelFinishes(run: seq<System>, i: nat, k: nat)
    requires IsRun(run) && i < |run| && k < |run[i].cancellers|
    ensures var last := run[|run| - 1];
            && k < |last.cancellers|
            && (CancelMoves(run, k, i) >= StepsLeft(run[i].cancellers[k]) ==> last.cancellers[k].Finished?)
            && (last.cancellers[k].Finished? ==> last.flag && last.value)
    decreases |run| - i
  {
    if i + 1 < |run| {
      assert Step(run[i], run[i + 1]);
      CancelsAreNotHeldUp(run[i], run[i + 1], k);
      EveryCancelFinishes(run, i + 1, k);
    } else {
      EveryStateFits(run, i);
    }
  }

  // ---- No lost wakeup ----

  /** How many steps of its own a waiter is from returning, once the channel says true. */
  function Distance(w: Waiter): nat {
    match w
    case Returned => 0
    case Woken(_) => 1
    case Subscribed(_) => 1
    case Start => 2
    case Registered(_, _) => 2
    case Listening(_) => 3
    case Sleeping(_, _) => 4
  }

  /** Once some `cancel` has finished no waiter is blocked, whatever other cancels are about to do: each
      has returned or comes strictly closer by its next step. */
  lemma NoLostWakeup(run: seq<System>, i: nat, j: nat)
    requires IsRun(run) && i < |run| && j < |run[i].waiters| && SomeFinished(run[i])
    ensures var w := run[i].waiters[j];
            w.Returned? || Distance(WaitNext(run[i], j).waiters[j]) < Distance(w)
  {
    EveryStateFits(run, i);
    assert WaiterFits(run[i].waiters[j], run[i]);
  }

  /** Nobody else's step puts a waiter further from returning once the channel says true, and a finished
      `cancel` stays finished. */
  lemma OthersDoNotDelay(run: seq<System>, i: nat, j: nat)
    requires IsRun(run) && i + 1 < |run| && j < |run[i].waiters| && run[i].value
    ensures j < |run[i + 1].waiters| && run[i + 1].value
    ensures Distance(run[i + 1].waiters[j]) <= Distance(run[i].waiters[j])
    ensures SomeFinished(run[i]) ==> SomeFinished(run[i + 1])
  {
    EveryStateFits(run, i);
    assert Step(run[i], run[i + 1]);
    assert WaiterFits(run[i].waiters[j], run[i]);
    if SomeFinished(run[i]) {
      var k :| 0 <= k < |run[i].cancellers| && run[i].cancellers[k].Finished?;
      assert run[i + 1].cancellers[k].Finished?;
    }
  }

  /** How often waiter `j` takes a step between `i` and the end of the run. */
  ghost function Moves(run: seq<System>, j: nat, i: nat): nat
    requires IsRun(run) && i < |run|
    decreases |run| - i
  {
    if i + 1 == |run| then 0
    else (if j < |run[i].waiters| && run[i + 1] == WaitNext(run[i], j) then 1 else 0) + Moves(run, j, i + 1)
  }

  /** So from the first finished `cancel` on, four steps of its own bring any waiter home, in every
      interleaving with any number of further cancels. */
  lemma {:induction false} EveryWaiterReturns(run: seq<System>, i: nat, j: nat)
    requires IsRun(run) && i < |run| && j < |run[i].waiters| && SomeFinished(run[i])
    ensures j < |run[|run| - 1].waiters|
    ensures Moves(run, j, i) >= Distance(run[i].waiters[j]) ==> run[|run| - 1].waiters[j].Returned?
    decreases |run| - i
  {
    EveryStateFits(run, i);
    if i + 1 < |run| {
      OthersDoNotDelay(run, i, j);
      if run[i + 1] == WaitNext(run[i], j) { NoLostWakeup(run, i, j); }
      EveryWaiterReturns(run, i + 1, j);
    }
  }
}
