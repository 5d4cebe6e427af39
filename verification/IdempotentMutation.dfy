/** A delegation mutation: the attempt loop, the rerun after a credential refresh, and what a service
    that applies a key at most once makes of all of it. */
module IdempotentMutation {
  import opened Basics

  const MUTATION_ATTEMPTS := 2
  const UNAUTHORIZED := 401

  datatype Target = Target(verb: string, path: seq<string>, body: Option<string>)
  datatype Request = Request(target: Target, key: string, credential: string)

  /** What becomes of one attempt. `wellFormed` covers every check of the representation itself. */
  datatype Attempt =
    | Response(status: nat, echo: Option<string>, wellFormed: bool)
    | Unread(status: nat)          // the body was lost on the way
    | Oversize(status: nat)
    | BadContentType(status: nat)
    | Lost                         // no response at all
    | TimedOut
    | Unbuildable                  // nothing was sent

  predicate Received(a: Attempt) { a.Response? || a.Unread? || a.Oversize? || a.BadContentType? }

  datatype Outcome = Succeeded | Unauthenticated | Refused | Unreachable | ProtocolError(rejected: bool) | NoSession

  predicate CredentialRejected(o: Outcome) {
    o.Unauthenticated? || (o.ProtocolError? && o.rejected)
  }

  /** The one attempt after which the loop goes on. */
  predicate Retryable(a: Attempt) {
    a.Lost? || a.TimedOut? || (a.Unread? && a.status != UNAUTHORIZED)
  }

  /** What an attempt that ends the loop decodes to. */
  function Decode(a: Attempt, success: nat, key: string): Outcome
    requires !Retryable(a)
  {
    match a
    case Response(status, echo, wellFormed) =>
      if status == success then (if echo == Some(key) && wellFormed then Succeeded else ProtocolError(false))
      else if status == UNAUTHORIZED then (if wellFormed then Unauthenticated else ProtocolError(true))
      else if 500 <= status < 600 then Unreachable
      else if wellFormed then Refused else ProtocolError(false)
    case Unread(_) => ProtocolError(true)
    case Oversize(status) => ProtocolError(status == UNAUTHORIZED)
    case BadContentType(status) => ProtocolError(status == UNAUTHORIZED)
    case _ => ProtocolError(false)
  }

  predicate GotUnauthorized(a: Attempt) {
    Received(a) && a.status == UNAUTHORIZED
  }

  /** The credential counts as rejected exactly when a response with status 401 was received, in whatever
      condition; so a rejected credential is never lost among the retries. */
  lemma RejectedExactlyOnUnauthorized(a: Attempt, success: nat, key: string)
    requires success != UNAUTHORIZED
    ensures GotUnauthorized(a) ==> !Retryable(a)
    ensures !Retryable(a) ==> (CredentialRejected(Decode(a, success, key)) <==> GotUnauthorized(a))
  {
  }

  // ---- A service that applies a key at most once ----

  class Service {
    var sent: seq<Request>
    var effects: seq<Request>

    ghost predicate Valid() reads this {
      forall i, j :: 0 <= i < j < |effects| ==> effects[i].key != effects[j].key
    }

    constructor ()
      ensures Valid() && sent == [] && effects == []
    {
      sent, effects := [], [];
    }

    /** Whether a request arrives and is found worth applying is up to the environment; a key that has
        been applied is not applied again. */
    method Receive(r: Request, applies: bool)
      requires Valid()
      modifies this
      ensures Valid() && sent == old(sent) + [r]
      ensures effects == if applies && (forall e :: e in old(effects) ==> e.key != r.key)
                         then old(effects) + [r] else old(effects)
    {
      sent := sent + [r];
      if applies && forall e :: e in effects ==> e.key != r.key {
        effects := effects + [r];
      }
    }
  }

  /** The environment, by number of the attempt within one invocation. */
  datatype World = World(answers: nat -> Attempt, applies: nat -> bool)

  /** All requests since `before` ask the same thing under the same key. */
  ghost predicate SameRequest(before: seq<Request>, after: seq<Request>, target: Target, key: string) {
    before <= after && forall i :: |before| <= i < |after| ==> after[i].target == target && after[i].key == key
  }

  /** At most one effect since `before`, and that one under the key. */
  ghost predicate AtMostOneEffect(before: seq<Request>, after: seq<Request>, key: string) {
    after == before || (|after| == |before| + 1 && after[..|before|] == before && after[|before|].key == key)
  }

  ghost predicate Changed(before: seq<Request>, after: seq<Request>) {
    after != before
  }

  /** Some attempt in the range left the client and was found worth applying. */
  ghost predicate Applied(w: World, from: nat, to: nat) {
    exists i: nat :: from <= i < to && w.applies(i) && !w.answers(i).Unbuildable?
  }

  ghost predicate Unused(effects: seq<Request>, key: string) {
    forall e :: e in effects ==> e.key != key
  }

  /** The attempt loop. It stops at the first attempt that is not retryable, or after the last one. A
      received response before the last attempt does not always end it: a further attempt is made exactly
      when the body was lost and the status is not 401. */
  method ExecuteRequest(service: Service, r: Request, success: nat, w: World, n: nat, ghost effects: seq<Request>)
    returns (o: Outcome, next: nat)
    requires service.Valid() && Unused(effects, r.key) && AtMostOneEffect(effects, service.effects, r.key)
    modifies service
    ensures service.Valid() && AtMostOneEffect(effects, service.effects, r.key)
    ensures n < next <= n + MUTATION_ATTEMPTS
    ensures SameRequest(old(service.sent), service.sent, r.target, r.key)
    ensures |service.sent| == |old(service.sent)| + next - n - (if w.answers(next - 1).Unbuildable? then 1 else 0)
    ensures Changed(effects, service.effects) <==> Changed(effects, old(service.effects)) || Applied(w, n, next)
    ensures forall i :: n <= i < next - 1 ==> Retryable(w.answers(i))
    ensures if Retryable(w.answers(next - 1)) then o == Unreachable && next == n + MUTATION_ATTEMPTS
            else o == Decode(w.answers(next - 1), success, r.key)
    ensures forall i :: n <= i < n + MUTATION_ATTEMPTS - 1 && i < next && Received(w.answers(i)) ==>
              (i + 1 < next <==> w.answers(i).Unread? && w.answers(i).status != UNAUTHORIZED)
    ensures success != UNAUTHORIZED ==> (CredentialRejected(o) <==> GotUnauthorized(w.answers(next - 1)))
  {
    for attempt := 0 to MUTATION_ATTEMPTS
      invariant service.Valid() && AtMostOneEffect(effects, service.effects, r.key)
      invariant SameRequest(old(service.sent), service.sent, r.target, r.key)
      invariant |service.sent| == |old(service.sent)| + attempt
      invariant Changed(effects, service.effects) <==>
                  Changed(effects, old(service.effects)) || Applied(w, n, n + attempt)
      invariant forall i :: n <= i < n + attempt ==> Retryable(w.answers(i))
    {
      var answer := w.answers(n + attempt);
      if !answer.Unbuildable? { service.Receive(r, w.applies(n + attempt)); }
      assert Applied(w, n, n + attempt + 1) <==>
               Applied(w, n, n + attempt) || (w.applies(n + attempt) && !answer.Unbuildable?);
      if success != UNAUTHORIZED { RejectedExactlyOnUnauthorized(answer, success, r.key); }
      if !Retryable(answer) { return Decode(answer, success, r.key), n + attempt + 1; }
    }
    return Unreachable, n + MUTATION_ATTEMPTS;
  }

  /** A service that answers 201 but whose bodies are all lost is asked twice, and is changed once. */
  method LostBodiesAreAskedAgain(service: Service, r: Request) returns (o: Outcome)
    requires service.Valid() && Unused(service.effects, r.key)
    modifies service
    ensures o == Unreachable && |service.sent| == |old(service.sent)| + 2
    ensures |service.effects| == |old(service.effects)| + 1
  {
    var w := World((n: nat) => Unread(201), (n: nat) => true);
    var attempts;
    o, attempts := ExecuteRequest(service, r, 201, w, 0, service.effects);
    assert w.applies(0);
  }

  /** The acting credential: a service key, or a human session that may be missing, may be renewed once,
      and is removed when it is rejected again. */
  datatype Acting =
    | ServiceKey(token: string)
    | Human(first: Option<string>, renewed: Option<string>, removalFails: bool)

  ghost predicate GotUnauthorizedAt(w: World, n: nat) {
    n > 0 && GotUnauthorized(w.answers(n - 1))
  }

  /** There was a session, it could be renewed if it was rejected, and be removed if it was rejected again. */
  ghost predicate SessionLasts(acting: Acting, rejected: bool, rejectedAtLast: bool) {
    acting.Human? ==>
      && acting.first.Some?
      && (rejected ==> acting.renewed.Some?)
      && (rejected && rejectedAtLast ==> !acting.removalFails)
  }

  /** Which outcome the last answer stands for. */
  predicate OutcomeFits(o: Outcome, last: Attempt, success: nat, key: string) {
    && (o == Succeeded <==> last == Response(success, Some(key), true))
    && (o == Unauthenticated <==>
          last.Response? && last.status == UNAUTHORIZED && success != UNAUTHORIZED && last.wellFormed)
    && (o == Refused <==>
          && last.Response? && last.wellFormed
          && last.status != success && last.status != UNAUTHORIZED && !(500 <= last.status < 600))
    && (o == Unreachable <==>
          || Retryable(last)
          || (last.Response? && last.status != success && 500 <= last.status < 600))
    && (o.ProtocolError? && o.rejected ==> GotUnauthorized(last))
    && (o.ProtocolError? && !o.rejected && success != UNAUTHORIZED ==> !GotUnauthorized(last))
  }

  /** One mutation, with one key drawn before anything is sent. Over all attempts and the rerun, every
      request is the same but for its credential; the service is changed at most once; and success is
      reported only for a response that echoes the key. There is a rerun exactly when a human's first run
      received a 401, in whatever condition, and the session could be renewed. */
  method Mutate(service: Service, target: Target, key: string, success: nat, acting: Acting, w: World)
    returns (o: Outcome, firstRun: nat, attempts: nat)
    requires service.Valid() && Unused(service.effects, key)
    modifies service
    ensures service.Valid() && AtMostOneEffect(old(service.effects), service.effects, key)
    ensures SameRequest(old(service.sent), service.sent, target, key)
    ensures Changed(old(service.effects), service.effects) <==> Applied(w, 0, attempts)
    ensures |service.sent| <= |old(service.sent)| + attempts
    ensures attempts <= if acting.ServiceKey? then MUTATION_ATTEMPTS else 2 * MUTATION_ATTEMPTS
    ensures o == Succeeded ==> attempts > 0 && w.answers(attempts - 1) == Response(success, Some(key), true)
    ensures success != UNAUTHORIZED && attempts > 0 && w.answers(attempts - 1) == Response(success, Some(key), true) ==>
              o == Succeeded
    ensures success != UNAUTHORIZED ==>
              (o == NoSession <==>
                 !SessionLasts(acting, GotUnauthorizedAt(w, firstRun), GotUnauthorizedAt(w, attempts)))
    ensures o != NoSession ==> attempts > 0 && OutcomeFits(o, w.answers(attempts - 1), success, key)
    ensures firstRun <= attempts && (firstRun == 0 <==> acting.Human? && acting.first.None?)
    ensures success != UNAUTHORIZED ==>
              (firstRun < attempts <==>
                 acting.Human? && firstRun > 0 && GotUnauthorized(w.answers(firstRun - 1)) && acting.renewed.Some?)
  {
    var token := if acting.ServiceKey? then Some(acting.token) else acting.first;
    if token.None? { return NoSession, 0, 0; }
    o, attempts := ExecuteRequest(service, Request(target, key, token.value), success, w, 0, service.effects);
    firstRun := attempts;
    if acting.Human? && CredentialRejected(o) {
      if acting.renewed.None? { return NoSession, firstRun, attempts; }
      var again := Request(target, key, acting.renewed.value);
      o, attempts := ExecuteRequest(service, again, success, w, attempts, old(service.effects));
      if CredentialRejected(o) && acting.removalFails { o := NoSession; }
    }
  }
}
