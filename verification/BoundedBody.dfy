/** Three readers of a response body under a limit, written with three different overflow guards, and
    the one result they all compute. */
module BoundedBody {
  import opened Basics

  const MAX_RESPONSE_BODY_BYTES := 1_048_576

  function SaturatingAdd(a: nat, b: nat): (r: Word)
    ensures r <= a + b && (r < a + b ==> r == WORD_MAX)
  {
    if a + b <= WORD_MAX then a + b else WORD_MAX
  }

  function SaturatingSub(a: nat, b: nat): (r: nat)
    ensures a <= r + b && (a < r + b ==> r == 0)
  {
    if b <= a then a - b else 0
  }

  function CheckedAdd(a: nat, b: nat): (r: Option<Word>)
    ensures r.Some? ==> r.value == a + b
    ensures r.None? ==> a + b > WORD_MAX
  {
    if a + b <= WORD_MAX then Some(a + b) else None
  }

  datatype Outcome = Body(bytes: seq<Byte>) | TooLarge | Transport | Interrupted

  /** A body as the transport delivers it: pieces, and then its end or an error. */
  datatype Stream = Stream(length: Option<Word>, chunks: seq<seq<Byte>>, breaks: bool)

  function Concat(chunks: seq<seq<Byte>>): seq<Byte> {
    if chunks == [] then [] else Concat(chunks[..|chunks| - 1]) + chunks[|chunks| - 1]
  }

  /** The reference: it looks at the whole body at once, so how the body was cut cannot matter. */
  function ReadSpec(s: Stream, limit: nat): Outcome {
    if s.length.Some? && s.length.value > limit then TooLarge
    else if |Concat(s.chunks)| > limit then TooLarge
    else if s.breaks then Transport
    else Body(Concat(s.chunks))
  }

  lemma {:induction false} PrefixIsShorter(chunks: seq<seq<Byte>>, k: nat)
    requires k <= |chunks|
    ensures |Concat(chunks[..k])| <= |Concat(chunks)|
    decreases |chunks|
  {
    if k < |chunks| {
      var front := chunks[..|chunks| - 1];
      assert front[..k] == chunks[..k];
      PrefixIsShorter(front, k);
    } else {
      assert chunks[..k] == chunks;
    }
  }

  lemma PrefixesGrow(chunks: seq<seq<Byte>>, j: nat, k: nat)
    requires j <= k <= |chunks|
    ensures |Concat(chunks[..j])| <= |Concat(chunks[..k])|
  {
    assert chunks[..k][..j] == chunks[..j];
    PrefixIsShorter(chunks[..k], j);
  }

  lemma ConcatExtends(chunks: seq<seq<Byte>>, k: nat)
    requires k < |chunks|
    ensures Concat(chunks[..k + 1]) == Concat(chunks[..k]) + chunks[k]
    ensures |Concat(chunks[..k + 1])| <= |Concat(chunks)|
  {
    assert chunks[..k + 1][..k] == chunks[..k];
    PrefixIsShorter(chunks, k + 1);
  }

  /** The asynchronous reader: a saturating add, and a fixed limit. */
  method ReadBounded(s: Stream) returns (outcome: Outcome, ghost peak: nat)
    ensures outcome == ReadSpec(s, MAX_RESPONSE_BODY_BYTES)
    ensures peak <= MAX_RESPONSE_BODY_BYTES && (outcome.Body? ==> peak == |outcome.bytes|)
  {
    peak := 0;
    if s.length.Some? && s.length.value > MAX_RESPONSE_BODY_BYTES { return TooLarge, peak; }
    var body: seq<Byte>, i := [], 0;
    while i < |s.chunks|
      invariant 0 <= i <= |s.chunks| && body == Concat(s.chunks[..i])
      invariant peak == |body| <= MAX_RESPONSE_BODY_BYTES
    {
      ConcatExtends(s.chunks, i);
      if SaturatingAdd(|body|, |s.chunks[i]|) > MAX_RESPONSE_BODY_BYTES { return TooLarge, peak; }
      body, i := body + s.chunks[i], i + 1;
      peak := |body|;
    }
    assert s.chunks[..i] == s.chunks;
    outcome := if s.breaks then Transport else Body(body);
  }

  /** The sink of the blocking reader: a saturating subtraction. */
  class BoundedBodyWriter {
    var body: seq<Byte>
    const limit: nat
    var limitExceeded: bool

    constructor (limit: nat)
      ensures this.limit == limit && body == [] && !limitExceeded
    {
      this.limit := limit;
      body, limitExceeded := [], false;
    }

    /** All of the buffer, or none of it and the flag. */
    method Write(buffer: seq<Byte>) returns (ok: bool)
      requires |body| <= limit
      modifies this
      ensures |body| <= limit
      ensures ok <==> |old(body)| + |buffer| <= limit
      ensures body == if ok then old(body) + buffer else old(body)
      ensures limitExceeded == (old(limitExceeded) || !ok)
    {
      if |buffer| > SaturatingSub(limit, |body|) {
        limitExceeded := true;
        return false;
      }
      body := body + buffer;
      ok := true;
    }
  }

  /** The blocking reader, under any limit a word can hold. */
  method ReadBlocking(s: Stream, limit: Word) returns (outcome: Outcome, ghost peak: nat)
    ensures outcome == ReadSpec(s, limit)
    ensures peak <= limit && (outcome.Body? ==> peak == |outcome.bytes|)
  {
    peak := 0;
    if s.length.Some? && s.length.value > limit { return TooLarge, peak; }
    var writer := new BoundedBodyWriter(limit);
    var ok, i := true, 0;
    while ok && i < |s.chunks|
      invariant 0 <= i <= |s.chunks| && peak == |writer.body| <= limit
      invariant ok ==> writer.body == Concat(s.chunks[..i])
      invariant writer.limitExceeded == !ok
      invariant !ok ==> |Concat(s.chunks)| > limit
      decreases |s.chunks| - i, ok
    {
      ConcatExtends(s.chunks, i);
      ok := writer.Write(s.chunks[i]);
      if ok { i := i + 1; }
      peak := |writer.body|;
    }
    assert ok ==> s.chunks[..i] == s.chunks;
    if !ok || s.breaks {
      return if writer.limitExceeded then TooLarge else Transport, peak;
    }
    outcome := Body(writer.body);
  }

  /** When a stop is noticed: while the request is being sent, or while a piece is awaited. */
  datatype Stop = Never | BeforeResponse | BeforePiece(at: nat)

  /** The signed-storage reader: a checked add, and a stop that may be noticed wherever it waits. A stop
      before the response always interrupts; a later one does so unless too much was announced or read. */
  method ReadSignedStorage(s: Stream, limit: Word, stop: Stop) returns (outcome: Outcome, ghost peak: nat)
    ensures outcome.Interrupted? <==>
              || stop.BeforeResponse?
              || (stop.BeforePiece? && stop.at <= |s.chunks|
                  && !ReadSpec(s.(chunks := s.chunks[..stop.at]), limit).TooLarge?)
    ensures !outcome.Interrupted? ==> outcome == ReadSpec(s, limit)
    ensures peak <= limit && (outcome.Body? ==> peak == |outcome.bytes|)
  {
    peak := 0;
    if stop.BeforeResponse? { return Interrupted, peak; }
    if s.length.Some? && s.length.value > limit { return TooLarge, peak; }
    var bytes: seq<Byte>, i := [], 0;
    while true
      invariant 0 <= i <= |s.chunks| && bytes == Concat(s.chunks[..i])
      invariant peak == |bytes| <= limit
      invariant stop.BeforePiece? ==> i <= stop.at
      decreases |s.chunks| - i
    {
      if stop == BeforePiece(i) { return Interrupted, peak; }
      if i == |s.chunks| { break; }
      ConcatExtends(s.chunks, i);
      var total := CheckedAdd(|bytes|, |s.chunks[i]|);
      if total.None? || total.value > limit {
        if stop.BeforePiece? && stop.at <= |s.chunks| { PrefixesGrow(s.chunks, i + 1, stop.at); }
        return TooLarge, peak;
      }
      bytes, i := bytes + s.chunks[i], i + 1;
      peak := |bytes|;
    }
    assert s.chunks[..i] == s.chunks;
    outcome := if s.breaks then Transport else Body(bytes);
  }

  /** How a body is cut does not matter: two cuts of the same bytes give the same result, so a body read
      by one reader is read alike by any other under the same limit. */
  lemma {:induction false} CutsDoNotMatter(s: Stream, limit: nat)
    ensures ReadSpec(s, limit) == ReadSpec(s.(chunks := [Concat(s.chunks)]), limit)
    ensures ReadSpec(s, limit).Body? <==>
              !s.breaks && |Concat(s.chunks)| <= limit && (s.length.Some? ==> s.length.value <= limit)
  {
    assert [Concat(s.chunks)][..0] == [];
    assert Concat([Concat(s.chunks)]) == Concat(s.chunks);
  }
}
