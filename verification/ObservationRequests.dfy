/** The requests of an observation: an admitted read sends one request, or two when a credential is renewed
    in between, and each gets what is left of the one deadline at the moment it is sent. */
module ObservationRequests {
  import opened Basics
  import opened PollingTime

  /** One call of the API as its environment plays it: the time to get a credential for it and what may fail
      then, the time to prepare the call and what may fail then, the answer, and the time that takes. */
  datatype Call<T, E> = Call(
    authorizing: nat, refused: Option<E>, preparing: nat, fault: Option<E>, answer: Response<T, E>, lasting: nat)

  /** How a read is authorized. A human's session is renewed once after a rejected call, which is then made
      again; a session rejected twice is removed. */
  datatype Access<T, E> =
    | ServiceKey(call: Call<T, E>)
    | Human(loading: nat, first: Call<T, E>, second: Call<T, E>, removing: nat, removal: Option<E>)

  datatype Request = Request(at: nat, budget: Option<nat>, lasting: nat)

  /** What a read sent, how it ended, and when. */
  datatype Visit<T, E> = Visit(requests: seq<Request>, response: Response<T, E>, later: nat)

  /** Until when a read may go on, what it answers then, and which failures reject a credential. */
  datatype Terms<!E> = Terms(end: Option<nat>, timedOut: E, rejects: E -> bool) {
    predicate InTime(now: nat) {
      end.Some? ==> now < end.value
    }

    predicate Rejected<T>(answer: Response<T, E>) {
      answer.Err? && rejects(answer.failure)
    }
  }

  /** A call that has its credential. */
  function Send<T, E>(call: Call<T, E>, terms: Terms<E>, now: nat): Visit<T, E> {
    var at := now + call.preparing;
    if call.fault.Some? then Visit([], Err(call.fault.value), at)
    else if !terms.InTime(at) then Visit([], Err(terms.timedOut), at)
    else
      var budget := if terms.end.None? then None else Some(terms.end.value - at);
      Visit([Request(at, budget, call.lasting)], call.answer, at + call.lasting)
  }

  function Make<T, E>(call: Call<T, E>, terms: Terms<E>, now: nat): Visit<T, E> {
    var at := now + call.authorizing;
    if call.refused.Some? then Visit([], Err(call.refused.value), at)
    else if !terms.InTime(at) then Visit([], Err(terms.timedOut), at)
    else Send(call, terms, at)
  }

  predicate Again<T, E>(v: Visit<T, E>, terms: Terms<E>) {
    v.requests != [] && terms.Rejected(v.response)
  }

  /** After a second rejection the session is removed, if there is time for it. */
  function Remove<T, E>(v: Visit<T, E>, removing: nat, removal: Option<E>, terms: Terms<E>): Visit<T, E> {
    if !Again(v, terms) then v
    else if !terms.InTime(v.later) then v.(response := Err(terms.timedOut))
    else if removal.Some? then Visit(v.requests, Err(removal.value), v.later + removing)
    else v.(later := v.later + removing)
  }

  /** A call that is made again after a rejection. */
  function MakeTwice<T, E>(a: Access<T, E>, terms: Terms<E>, now: nat): Visit<T, E>
    requires a.Human?
  {
    var v := Make(a.first, terms, now);
    if !Again(v, terms) then v
    else
      var w := Remove(Make(a.second, terms, v.later), a.removing, a.removal, terms);
      w.(requests := v.requests + w.requests)
  }

  /** One read. The deadline is looked at before every step. */
  function Perform<T, E>(a: Access<T, E>, terms: Terms<E>, now: nat): Visit<T, E> {
    if !terms.InTime(now) then Visit([], Err(terms.timedOut), now)
    else match a
      case ServiceKey(call) => Make(call, terms, now)
      case Human(loading, _, _, _, _) =>
        if !terms.InTime(now + loading) then Visit([], Err(terms.timedOut), now + loading)
        else MakeTwice(a, terms, now + loading)
  }

  // ---- What a read keeps ----

  /** A request starts before the deadline, and its budget, which is not empty, ends at the deadline. */
  predicate RequestFits(r: Request, end: Option<nat>) {
    match end
    case None => r.budget.None?
    case Some(e) => r.at < e && r.budget == Some(e - r.at)
  }

  /** From `now` to `later`: every request fits, and starts after the one before it is over. */
  ghost predicate RequestsFit(requests: seq<Request>, end: Option<nat>, now: nat, later: nat) {
    if requests == [] then now <= later
    else
      && RequestFits(requests[0], end) && now <= requests[0].at
      && RequestsFit(requests[1..], end, requests[0].at + requests[0].lasting, later)
  }

  /** That is to say: all of them fit and lie in between, and no two overlap. */
  lemma {:induction false} NoneOverlap(requests: seq<Request>, end: Option<nat>, now: nat, later: nat, i: nat, j: nat)
    requires RequestsFit(requests, end, now, later) && i <= j < |requests|
    ensures RequestFits(requests[j], end) && now <= requests[j].at
    ensures requests[j].at + requests[j].lasting <= later
    ensures i < j ==> requests[i].at + requests[i].lasting <= requests[j].at
  {
    var rest, over := requests[1..], requests[0].at + requests[0].lasting;
    if j == 0 {
      AtMostLater(rest, end, over, later);
    } else {
      NoneOverlap(rest, end, over, later, if i == 0 then 0 else i - 1, j - 1);
      assert requests[j] == rest[j - 1] && (i > 0 ==> requests[i] == rest[i - 1]);
    }
  }

  lemma {:induction false} AtMostLater(requests: seq<Request>, end: Option<nat>, now: nat, later: nat)
    requires RequestsFit(requests, end, now, later)
    ensures now <= later
  {
    if requests != [] { AtMostLater(requests[1..], end, requests[0].at + requests[0].lasting, later); }
  }

  lemma {:induction false} RequestsFitLonger(
      requests: seq<Request>, end: Option<nat>, now: nat, from: nat, to: nat, later: nat)
    requires RequestsFit(requests, end, from, to) && now <= from && to <= later
    ensures RequestsFit(requests, end, now, later)
  {
    if requests != [] {
      var over := requests[0].at + requests[0].lasting;
      RequestsFitLonger(requests[1..], end, over, over, to, later);
    }
  }

  lemma {:induction false} RequestsJoin(
      before: seq<Request>, after: seq<Request>, end: Option<nat>, now: nat, middle: nat, rest: nat, later: nat)
    requires RequestsFit(before, end, now, middle) && middle <= rest && RequestsFit(after, end, rest, later)
    ensures RequestsFit(before + after, end, now, later)
    decreases |before|
  {
    if before == [] {
      assert before + after == after;
      RequestsFitLonger(after, end, now, rest, later, later);
    } else {
      assert (before + after)[1..] == before[1..] + after;
      RequestsJoin(before[1..], after, end, before[0].at + before[0].lasting, middle, rest, later);
    }
  }

  lemma CallFits<T, E>(call: Call<T, E>, terms: Terms<E>, now: nat)
    ensures var v := Make(call, terms, now);
            && RequestsFit(v.requests, terms.end, now, v.later) && |v.requests| <= 1
            && (v.requests != [] ==> v.response == call.answer) && (v.requests == [] ==> v.response.Err?)
  {
  }

  lemma RemovalFits<T, E>(v: Visit<T, E>, removing: nat, removal: Option<E>, terms: Terms<E>, now: nat)
    requires RequestsFit(v.requests, terms.end, now, v.later)
    ensures var w := Remove(v, removing, removal, terms);
            && RequestsFit(w.requests, terms.end, now, w.later) && w.requests == v.requests
            && (w.response.Ok? ==> w.response == v.response)
  {
    RequestsFitLonger(v.requests, terms.end, now, now, v.later, v.later + removing);
  }

  lemma BothCallsFit<T, E>(a: Access<T, E>, terms: Terms<E>, now: nat)
    requires a.Human?
    ensures var v := MakeTwice(a, terms, now);
            && RequestsFit(v.requests, terms.end, now, v.later) && |v.requests| <= 2
            && (v.response.Ok? ==>
                  v.requests != [] && v.response == if |v.requests| == 1 then a.first.answer else a.second.answer)
  {
    CallFits(a.first, terms, now);
    var v := Make(a.first, terms, now);
    if Again(v, terms) {
      CallFits(a.second, terms, v.later);
      var w := Make(a.second, terms, v.later);
      RemovalFits(w, a.removing, a.removal, terms, v.later);
      var last := Remove(w, a.removing, a.removal, terms).later;
      RequestsJoin(v.requests, w.requests, terms.end, now, v.later, v.later, last);
    }
  }

  /** Every request of a read fits the deadline, whatever happens in between; there are at most two, and a
      resource is what the last of them answered. */
  lemma ReadFitsTheDeadline<T, E>(a: Access<T, E>, terms: Terms<E>, now: nat)
    ensures var v := Perform(a, terms, now);
            && RequestsFit(v.requests, terms.end, now, v.later) && |v.requests| <= 2
            && (!terms.InTime(now) ==> v.requests == [])
            && (v.response.Ok? ==> v.requests != [])
            && (v.response.Ok? && a.ServiceKey? ==> v.response == a.call.answer)
            && (v.response.Ok? && a.Human? ==>
                  v.response == if |v.requests| == 1 then a.first.answer else a.second.answer)
  {
    match a
    case ServiceKey(call) => CallFits(call, terms, now);
    case Human(loading, _, _, _, _) =>
      BothCallsFit(a, terms, now + loading);
      var v := MakeTwice(a, terms, now + loading);
      RequestsFitLonger(v.requests, terms.end, now, now + loading, v.later, v.later);
  }

  /** A read is repeated exactly when a human's call was rejected, the session was renewed, and the second
      call was ready before the deadline. */
  lemma RepeatedExactlyWhen<T, E>(a: Access<T, E>, terms: Terms<E>, now: nat)
    ensures var sent := Perform(a, terms, now).requests;
            |sent| == 2 <==>
              && a.Human? && sent != [] && terms.Rejected(a.first.answer)
              && a.second.refused.None? && a.second.fault.None?
              && terms.InTime(sent[0].at + sent[0].lasting + a.second.authorizing + a.second.preparing)
  {
  }

  /** When a call is ready to be sent, if it is authorized at `now`. */
  function ReadyAt<T, E>(call: Call<T, E>, now: nat): nat {
    now + call.authorizing + call.preparing
  }

  /** Why a call was not sent: it was refused a credential, could not be prepared, or came too late; whichever
      came first. */
  function WhyNotSent<T, E>(call: Call<T, E>, terms: Terms<E>, now: nat): E {
    if call.refused.Some? then call.refused.value
    else if call.fault.Some? && terms.InTime(now + call.authorizing) then call.fault.value
    else terms.timedOut
  }

  /** A call is sent exactly when nothing stands in its way and it is ready in time; then its answer is the
      response, and otherwise the response says why it was not sent. */
  lemma CallSentExactlyWhen<T, E>(call: Call<T, E>, terms: Terms<E>, now: nat)
    ensures var v := Make(call, terms, now);
            && (v.requests != [] <==>
                  call.refused.None? && call.fault.None? && terms.InTime(ReadyAt(call, now)))
            && (v.requests != [] ==> v.requests[0].at == ReadyAt(call, now) && v.requests[0].lasting == call.lasting)
            && v.response == if v.requests == [] then Err(WhyNotSent(call, terms, now)) else call.answer
  {
  }

  /** The same for a whole read: when the first request leaves, and what the read answers in each case. A second
      rejection is answered as it is only if there was time to remove the session and that worked. */
  lemma ReadAnswersExactly<T, E>(a: Access<T, E>, terms: Terms<E>, now: nat)
    ensures var v := Perform(a, terms, now);
            var call, from := if a.Human? then a.first else a.call, if a.Human? then now + a.loading else now;
            && (v.requests != [] <==>
                  call.refused.None? && call.fault.None? && terms.InTime(ReadyAt(call, from)))
            && (v.requests != [] ==> v.requests[0].at == ReadyAt(call, from) && v.requests[0].lasting == call.lasting)
            && (v.requests == [] ==>
                  v.response == Err(if terms.InTime(from) then WhyNotSent(call, terms, from) else terms.timedOut))
            && (v.requests != [] && (a.ServiceKey? || !terms.Rejected(call.answer)) ==> v.response == call.answer)
            && (|v.requests| == 1 && a.Human? && terms.Rejected(call.answer) ==>
                  v.response == Err(WhyNotSent(a.second, terms, ReadyAt(call, from) + call.lasting)))
            && (|v.requests| == 2 ==>
                  v.response == if !terms.Rejected(a.second.answer) then a.second.answer
                                else if !terms.InTime(v.requests[1].at + v.requests[1].lasting) then Err(terms.timedOut)
                                else if a.removal.Some? then Err(a.removal.value)
                                else a.second.answer)
  {
    if a.Human? {
      CallSentExactlyWhen(a.first, terms, now + a.loading);
      CallSentExactlyWhen(a.second, terms, Make(a.first, terms, now + a.loading).later);
    } else {
      CallSentExactlyWhen(a.call, terms, now);
    }
  }

  // ---- A poll ----

  type Reader<T, E> = nat -> Visit<T, E>

  /** Whenever the read starts, it sends at most so many requests and each of them fits. */
  ghost predicate Punctual<T, E>(read: Reader<T, E>, end: Option<nat>, most: nat) {
    forall at: nat :: RequestsFit(read(at).requests, end, at, read(at).later) && |read(at).requests| <= most
  }

  function ReaderOf<T, E>(a: Access<T, E>, terms: Terms<E>): Reader<T, E> {
    (at: nat) => Perform(a, terms, at)
  }

  lemma ReadersArePunctual<T, E>(a: Access<T, E>, terms: Terms<E>)
    ensures Punctual(ReaderOf(a, terms), terms.end, 2)
  {
    var read := ReaderOf(a, terms);
    forall at: nat ensures RequestsFit(read(at).requests, terms.end, at, read(at).later) && |read(at).requests| <= 2 {
      ReadFitsTheDeadline(a, terms, at);
    }
  }

  /** A run is read, and then perhaps the publication it names. That is a read of its own, admitted again. */
  datatype Look<T, P, E> = Look(run: Reader<T, E>, recording: nat, admitted: bool, publication: Reader<P, E>)

  /** How a command observes: which runs name a publication, and until when. */
  datatype Observer<!T> = Observer(linked: T -> bool, timeout: Option<nat>, started: nat)

  function Attend<T, P, E>(l: Look<T, P, E>, o: Observer<T>, now: nat): Visit<(T, Option<P>), E> {
    var v := l.run(now);
    match v.response
    case Err(failure) => Visit(v.requests, Err(failure), v.later)
    case Ok(run) =>
      var at := v.later + l.recording;
      if !o.linked(run) || Remaining(o.timeout, o.started, at).None? || !l.admitted then
        Visit(v.requests, Ok((run, None)), at)
      else
        var p := l.publication(at);
        var response := if p.response.Err? then Err(p.response.failure) else Ok((run, Some(p.response.resource)));
        Visit(v.requests + p.requests, response, p.later)
  }

  /** The run was read, names a publication, and its read is in time and admitted. */
  predicate ReadsPublication<T, P, E>(l: Look<T, P, E>, o: Observer<T>, now: nat) {
    var v := l.run(now);
    && v.response.Ok? && o.linked(v.response.resource) && l.admitted
    && (o.timeout.Some? ==> 0 < o.timeout.value && v.later + l.recording < o.started + o.timeout.value)
  }

  /** Exactly then the publication is read as well, after the run. The poll fails exactly when a read that was
      made failed, with that failure; otherwise it answers what was read. */
  lemma PublicationReadExactlyWhen<T, P, E>(l: Look<T, P, E>, o: Observer<T>, now: nat)
    ensures var v, w := l.run(now), Attend(l, o, now);
            var p := l.publication(v.later + l.recording);
            && w.requests == v.requests + (if ReadsPublication(l, o, now) then p.requests else [])
            && (w.response.Err? <==> v.response.Err? || (ReadsPublication(l, o, now) && p.response.Err?))
            && (v.response.Err? ==> w.response.failure == v.response.failure)
            && (v.response.Ok? && w.response.Err? ==> w.response.failure == p.response.failure)
            && (w.response.Ok? ==> w.response.resource.0 == v.response.resource)
            && (w.response.Ok? ==> (w.response.resource.1.Some? <==> ReadsPublication(l, o, now)))
            && (w.response.Ok? && ReadsPublication(l, o, now) ==>
                  w.response.resource.1 == Some(p.response.resource))
  {
  }

  function PollOf<T, P, E>(l: Look<T, P, E>, o: Observer<T>): Reader<(T, Option<P>), E> {
    (at: nat) => Attend(l, o, at)
  }

  /** Both reads of one poll together. */
  lemma PollsArePunctual<T, P, E>(l: Look<T, P, E>, o: Observer<T>, end: Option<nat>, most: nat)
    requires Punctual(l.run, end, most) && Punctual(l.publication, end, most)
    ensures Punctual(PollOf(l, o), end, 2 * most)
  {
    var poll := PollOf(l, o);
    forall now: nat
      ensures RequestsFit(poll(now).requests, end, now, poll(now).later) && |poll(now).requests| <= 2 * most
    {
      var v := l.run(now);
      var at := v.later + l.recording;
      var p := l.publication(at);
      RequestsFitLonger(v.requests, end, now, now, v.later, at);
      RequestsJoin(v.requests, p.requests, end, now, v.later, at, p.later);
    }
  }

  // ---- A whole wait ----

  /** A turn of the loop whose poll is given by its requests; `writing` is the time after the last of them. */
  datatype Scene<T, E> = Scene(
    stoppedFirst: bool, sampling: nat, stoppedSecond: bool, admitted: bool, poll: Reader<T, E>, writing: nat,
    stoppedThird: bool, oversleep: nat)

  function RoundOf<T, E>(s: Scene<T, E>): Round<T, E> {
    var observe := (at: nat) =>
      var v := s.poll(at); Seen(v.response, (if v.later < at then 0 else v.later - at) + s.writing);
    Round(s.stoppedFirst, s.sampling, s.stoppedSecond, s.admitted, observe, s.stoppedThird, s.oversleep)
  }

  function Rounds<T, E>(scenes: seq<Scene<T, E>>): (rounds: seq<Round<T, E>>)
    ensures |rounds| == |scenes|
  {
    seq(|scenes|, i requires 0 <= i < |scenes| => RoundOf(scenes[i]))
  }

  ghost predicate AllPunctual<T, E>(scenes: seq<Scene<T, E>>, end: Option<nat>, most: nat) {
    forall i :: 0 <= i < |scenes| ==> Punctual(scenes[i].poll, end, most)
  }

  /** The requests of the first `n` polls. */
  function Sent<T, E>(scenes: seq<Scene<T, E>>, laps: seq<Lap>, n: nat): seq<Request>
    requires n <= |laps| <= |scenes|
  {
    if n == 0 then [] else Sent(scenes, laps, n - 1) + scenes[n - 1].poll(laps[n - 1].poll.at).requests
  }

  lemma {:induction false} SentIsBounded<T, E>(
      scenes: seq<Scene<T, E>>, laps: seq<Lap>, end: Option<nat>, most: nat, n: nat)
    requires n <= |laps| <= |scenes| && AllPunctual(scenes, end, most)
    ensures |Sent(scenes, laps, n)| <= n * most
  {
    if n > 0 {
      SentIsBounded(scenes, laps, end, most, n - 1);
      assert Punctual(scenes[n - 1].poll, end, most);
      assert (n - 1) * most + most == n * most;
    }
  }

  /** The requests of a poll are sent before its lap counts it as over. */
  lemma SceneFits<T, E>(s: Scene<T, E>, lap: Lap, response: Response<T, E>, end: Option<nat>, most: nat)
    requires Plays(RoundOf(s), lap, response) && Punctual(s.poll, end, most)
    ensures RequestsFit(s.poll(lap.poll.at).requests, end, lap.poll.at, lap.over)
  {
    var v := s.poll(lap.poll.at);
    RequestsFitLonger(v.requests, end, lap.poll.at, lap.poll.at, v.later, lap.over);
  }

  /** When the polls before the next one were over. */
  ghost function OverBefore(laps: seq<Lap>, started: nat, n: nat): nat
    requires n <= |laps|
  {
    if n == 0 then started else laps[n - 1].over
  }

  lemma PollsFollow(laps: seq<Lap>, timeout: Option<nat>, started: nat, n: nat)
    requires n < |laps| && Paced(laps, timeout, started)
    ensures OverBefore(laps, started, n) <= laps[n].poll.at
  {
    assert LapFits(laps[n], n, timeout, started);
    if n > 0 { assert LapFits(laps[n - 1], n - 1, timeout, started) && laps[n - 1].End() <= laps[n].poll.at; }
  }

  lemma LastLapIsOver(laps: seq<Lap>, timeout: Option<nat>, started: nat, now: nat)
    requires Paced(laps, timeout, started) && started <= now && (laps != [] ==> laps[|laps| - 1].End() <= now)
    ensures OverBefore(laps, started, |laps|) <= now
  {
    if laps != [] { assert LapFits(laps[|laps| - 1], |laps| - 1, timeout, started); }
  }

  lemma PolledFits<T, E>(
      scenes: seq<Scene<T, E>>, laps: seq<Lap>, responses: seq<Response<T, E>>, end: Option<nat>, most: nat, i: nat)
    requires i < |laps| && Played(Rounds(scenes), laps, responses) && AllPunctual(scenes, end, most)
    ensures RequestsFit(scenes[i].poll(laps[i].poll.at).requests, end, laps[i].poll.at, laps[i].over)
  {
    assert Plays(Rounds(scenes)[i], laps[i], responses[i]);
    SceneFits(scenes[i], laps[i], responses[i], end, most);
  }

  /** Poll `i` starts after the polls before it are over, and its requests fit. */
  ghost predicate InOrder<T, E>(scenes: seq<Scene<T, E>>, laps: seq<Lap>, end: Option<nat>, started: nat, i: nat)
    requires i < |laps| <= |scenes|
  {
    && OverBefore(laps, started, i) <= laps[i].poll.at
    && RequestsFit(scenes[i].poll(laps[i].poll.at).requests, end, laps[i].poll.at, laps[i].over)
  }

  lemma SentExtends<T, E>(scenes: seq<Scene<T, E>>, laps: seq<Lap>, end: Option<nat>, started: nat, i: nat)
    requires i < |laps| <= |scenes| && InOrder(scenes, laps, end, started, i)
    requires RequestsFit(Sent(scenes, laps, i), end, started, OverBefore(laps, started, i))
    ensures RequestsFit(Sent(scenes, laps, i + 1), end, started, OverBefore(laps, started, i + 1))
  {
    RequestsJoin(Sent(scenes, laps, i), scenes[i].poll(laps[i].poll.at).requests, end, started,
                 OverBefore(laps, started, i), laps[i].poll.at, laps[i].over);
  }

  lemma {:induction false} SentFits<T, E>(
      scenes: seq<Scene<T, E>>, laps: seq<Lap>, end: Option<nat>, started: nat, n: nat)
    requires n <= |laps| <= |scenes| && forall i: nat :: i < n ==> InOrder(scenes, laps, end, started, i)
    ensures RequestsFit(Sent(scenes, laps, n), end, started, OverBefore(laps, started, n))
  {
    if n > 0 {
      SentFits(scenes, laps, end, started, n - 1);
      SentExtends(scenes, laps, end, started, n - 1);
    }
  }

  lemma PollsAreInOrder<T, E>(
      scenes: seq<Scene<T, E>>, laps: seq<Lap>, responses: seq<Response<T, E>>, timeout: Option<nat>, started: nat,
      end: Option<nat>, most: nat)
    requires Played(Rounds(scenes), laps, responses) && Paced(laps, timeout, started)
    requires AllPunctual(scenes, end, most)
    ensures forall i: nat :: i < |laps| ==> InOrder(scenes, laps, end, started, i)
  {
    forall i: nat | i < |laps| ensures InOrder(scenes, laps, end, started, i) {
      PolledFits(scenes, laps, responses, end, most, i);
      PollsFollow(laps, timeout, started, i);
    }
  }

  /** A turn as a run is observed: the read of the run, and the read of its publication. */
  datatype Turning<T, P, E> = Turning(
    stoppedFirst: bool, sampling: nat, stoppedSecond: bool, admitted: bool, run: Access<T, E>, recording: nat,
    admittedAgain: bool, publication: Access<P, E>, writing: nat, stoppedThird: bool, oversleep: nat)

  function PollIn<T, P, E>(t: Turning<T, P, E>, o: Observer<T>, terms: Terms<E>): Reader<(T, Option<P>), E> {
    PollOf(Look(ReaderOf(t.run, terms), t.recording, t.admittedAgain, ReaderOf(t.publication, terms)), o)
  }

  function SceneOf<T, P, E>(t: Turning<T, P, E>, o: Observer<T>, terms: Terms<E>): Scene<(T, Option<P>), E> {
    Scene(t.stoppedFirst, t.sampling, t.stoppedSecond, t.admitted, PollIn(t, o, terms), t.writing,
          t.stoppedThird, t.oversleep)
  }

  function Scenes<T, P, E>(
      turns: seq<Turning<T, P, E>>, o: Observer<T>, terms: Terms<E>): (scenes: seq<Scene<(T, Option<P>), E>>)
    ensures |scenes| == |turns|
  {
    seq(|turns|, i requires 0 <= i < |turns| => SceneOf(turns[i], o, terms))
  }

  lemma TurnIsPunctual<T, P, E>(t: Turning<T, P, E>, o: Observer<T>, terms: Terms<E>)
    ensures Punctual(PollIn(t, o, terms), terms.end, 4)
  {
    ReadersArePunctual(t.run, terms);
    ReadersArePunctual(t.publication, terms);
    var look := Look(ReaderOf(t.run, terms), t.recording, t.admittedAgain, ReaderOf(t.publication, terms));
    PollsArePunctual(look, o, terms.end, 2);
  }

  lemma ScenesArePunctual<T, P, E>(turns: seq<Turning<T, P, E>>, o: Observer<T>, terms: Terms<E>)
    ensures AllPunctual(Scenes(turns, o, terms), terms.end, 4)
  {
    forall i | 0 <= i < |turns| ensures Punctual(Scenes(turns, o, terms)[i].poll, terms.end, 4) {
      TurnIsPunctual(turns[i], o, terms);
    }
  }

  /** Waiting for a run. Over the whole wait every request starts before the deadline and after the one before
      it is over, and its budget, which is not empty, ends at the deadline; there are at most four to a poll. */
  method WaitForRun<T, P, S, E>(
      turns: seq<Turning<T, P, E>>, linked: T -> bool, terminal: ((T, Option<P>)) -> Option<S>, retryable: E -> bool,
      rejects: E -> bool, timedOut: E, timeout: Option<nat>, started: nat, lag: nat)
    returns (ending: Ending<(T, Option<P>), S, E>, laps: seq<Lap>, responses: seq<Response<(T, Option<P>), E>>,
             now: nat, sent: seq<Request>)
    ensures var end := Deadline(timeout, started);
            var scenes := Scenes(turns, Observer(linked, timeout, started), Terms(end, timedOut, rejects));
            && EndsWell(Rounds(scenes), laps, responses, terminal, retryable, timeout, started, now, ending)
            && sent == Sent(scenes, laps, |laps|)
    ensures RequestsFit(sent, Deadline(timeout, started), started, now)
    ensures |sent| <= 4 * |laps| && (timeout.Some? ==> |sent| <= 4 * MostPolls(timeout.value))
  {
    var o, terms := Observer(linked, timeout, started), Terms(Deadline(timeout, started), timedOut, rejects);
    var scenes := Scenes(turns, o, terms);
    ending, laps, responses, now := WaitForTerminal(Rounds(scenes), terminal, retryable, timeout, started, lag);
    sent := Sent(scenes, laps, |laps|);
    ScenesArePunctual(turns, o, terms);
    SentIsBounded(scenes, laps, terms.end, 4, |laps|);
    PollsAreInOrder(scenes, laps, responses, timeout, started, terms.end, 4);
    SentFits(scenes, laps, terms.end, started, |laps|);
    LastLapIsOver(laps, timeout, started, now);
    RequestsFitLonger(sent, terms.end, started, started, OverBefore(laps, started, |laps|), now);
  }
}
