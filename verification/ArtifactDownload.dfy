/** Downloading the members of an inventory: the bytes of one member, and every member exactly once
    however often its capability expires. */
module ArtifactDownload {
  import opened Basics
  import opened BoundedBody
  import opened ArtifactInventory

  // ---- The bytes of one member ----

  /** One read of the body; a read of nothing is its end. */
  type Chunk = c: seq<Byte> | 0 < |c| <= 65536 witness [0]

  datatype Download = Downloaded(size: nat, digest: seq<Byte>) | Unavailable | LocalOutput

  /** The response to a download, and a destination that accepts so many bytes before it fails. */
  datatype Delivery = Delivery(length: Option<Word>, chunks: seq<Chunk>, breaks: bool, accepts: nat)

  predicate LengthFits(d: Delivery, m: Member) {
    d.length.Some? ==> d.length.value == m.size
  }

  /** What was hashed is what was written, and at no point more than declared: the file only grows. A
      body shorter than declared is not refused here. */
  method DownloadBytes(m: Member, d: Delivery, sha: seq<Byte> -> seq<Byte>)
    returns (o: Download, file: seq<Byte>)
    ensures file <= Concat(d.chunks) && |file| <= m.size && |file| <= d.accepts
    ensures o.Downloaded? <==>
              && (d.length.Some? ==> d.length.value == m.size)
              && !d.breaks && |Concat(d.chunks)| <= m.size && |Concat(d.chunks)| <= d.accepts
    ensures o.Downloaded? ==> file == Concat(d.chunks) && o == Downloaded(|file|, sha(file))
    ensures o.Unavailable? ==>
              (d.length.Some? && d.length.value != m.size) || d.breaks || m.size < |Concat(d.chunks)|
    ensures o.LocalOutput? ==> |file| == d.accepts && d.accepts < |Concat(d.chunks)| && d.accepts < m.size
    ensures d.accepts < |Concat(d.chunks)| <= m.size && (d.length.Some? ==> d.length.value == m.size) ==> o.LocalOutput?
  {
    file := [];
    if !LengthFits(d, m) { return Unavailable, file; }
    var hashed: seq<Byte>, size: Word, i := [], 0, 0;
    while i < |d.chunks|
      invariant 0 <= i <= |d.chunks|
      invariant file == hashed == Concat(d.chunks[..i]) && size == |file|
      invariant file <= Concat(d.chunks) && |file| <= m.size && |file| <= d.accepts
    {
      var chunk := d.chunks[i];
      ConcatExtends(d.chunks, i);
      PrefixIsPrefix(d.chunks, i + 1);
      var sum := CheckedAdd(size, |chunk|);
      if sum.None? { return Unavailable, file; }
      size := sum.value;
      if size > m.size { return Unavailable, file; }
      hashed := hashed + chunk;
      if |file| + |chunk| > d.accepts {
        file := file + chunk[..d.accepts - |file|];
        return LocalOutput, file;
      }
      file, i := file + chunk, i + 1;
    }
    assert d.chunks[..i] == d.chunks;
    if d.breaks { return Unavailable, file; }
    o := Downloaded(size, sha(hashed));
  }

  lemma {:induction false} PrefixIsPrefix(chunks: seq<seq<Byte>>, k: nat)
    requires k <= |chunks|
    ensures Concat(chunks[..k]) <= Concat(chunks)
    decreases |chunks|
  {
    if k < |chunks| {
      var front := chunks[..|chunks| - 1];
      assert front[..k] == chunks[..k];
      PrefixIsPrefix(front, k);
    } else {
      assert chunks[..k] == chunks;
    }
  }

  type Digest = seq<Byte> -> seq<Byte>

  /** A member is kept exactly when its file could be created and synced, its whole body arrived and was
      written, and size and digest are the declared ones. */
  predicate Arrives(m: Member, d: Delivery, createFails: bool, syncFails: bool, sha: Digest) {
    && !createFails && !syncFails && !d.breaks && (d.length.Some? ==> d.length.value == m.size)
    && |Concat(d.chunks)| == m.size <= d.accepts && sha(Concat(d.chunks)) == m.digest
  }

  method DownloadMember(m: Member, d: Delivery, createFails: bool, syncFails: bool, sha: Digest)
    returns (ok: bool, file: Option<seq<Byte>>)
    ensures ok <==> Arrives(m, d, createFails, syncFails, sha)
    ensures ok ==> file.Some? && |file.value| == m.size && sha(file.value) == m.digest
    ensures file.None? <==> createFails
  {
    if createFails { return false, None; }
    var o, bytes := DownloadBytes(m, d, sha);
    file := Some(bytes);
    ok := o.Downloaded? && !syncFails && o.size == m.size && o.digest == m.digest;
  }

  // ---- All members, under capabilities that expire ----

  const BATCH_SIZE := 100

  /** A capability answer, with its timestamps as text. */
  datatype Grant = Issued(setId: string, expiresAt: string, until: string, members: seq<Member>) | Withheld

  /** The environment: the reading of timestamps, the k-th capability answer, the k-th look at the clock, and
      for each member what is delivered and whether its file can be created and synced. */
  datatype Source = Source(
    instant: string -> Option<int>, grants: nat -> Grant, now: nat -> int, deliveries: Member -> Delivery,
    createFails: Member -> bool, syncFails: Member -> bool, sha: Digest)

  predicate MemberArrives(source: Source, m: Member) {
    Arrives(m, source.deliveries(m), source.createFails(m), source.syncFails(m), source.sha)
  }

  /** A member as it was fetched: under which answer, after which look at the clock, and its file. */
  datatype Fetched = Fetched(member: Member, call: nat, tick: nat, file: seq<Byte>)

  function Members(log: seq<Fetched>): (members: seq<Member>)
    ensures |members| == |log| && forall i :: 0 <= i < |log| ==> members[i] == log[i].member
  {
    if log == [] then [] else Members(log[..|log| - 1]) + [log[|log| - 1].member]
  }

  /** Fetched under an answer for the same set, with the same expiry text, that lists the member; before that
      capability and the retention ended; and of exactly the declared size and digest. */
  ghost predicate Good(source: Source, header: Header, f: Fetched) {
    var g, retention := source.grants(f.call), source.instant(header.expiresAt);
    && g.Issued? && g.setId == header.setId && g.expiresAt == header.expiresAt && f.member in g.members
    && retention.Some? && source.instant(g.until).Some?
    && source.now(f.tick) < source.instant(g.until).value <= retention.value
    && |f.file| == f.member.size && source.sha(f.file) == f.member.digest
  }

  ghost predicate LogFits(source: Source, header: Header, log: seq<Fetched>) {
    forall i {:trigger Good(source, header, log[i])} :: 0 <= i < |log| ==> Good(source, header, log[i])
  }

  lemma LogExtends(source: Source, header: Header, log: seq<Fetched>, more: seq<Fetched>)
    requires LogFits(source, header, log) && LogFits(source, header, more)
    ensures LogFits(source, header, log + more)
  {
    forall i | 0 <= i < |log + more| ensures Good(source, header, (log + more)[i]) {
      if i < |log| {
        assert Good(source, header, log[i]);
      } else {
        assert Good(source, header, more[i - |log|]);
      }
    }
  }

  lemma MembersExtend(log: seq<Fetched>, f: Fetched)
    ensures Members(log + [f]) == Members(log) + [f.member]
  {
    assert (log + [f])[..|log|] == log;
  }

  lemma MembersJoin(a: seq<Fetched>, b: seq<Fetched>)
    ensures Members(a + b) == Members(a) + Members(b)
  {
  }

  /** The answer fits what is left: the same set, the same expiry text, an end within retention, and
      exactly the members asked for. */
  predicate Usable(source: Source, g: Grant, header: Header, retention: int, rest: seq<Member>) {
    && g.Issued? && g.setId == header.setId && g.expiresAt == header.expiresAt && g.members == rest
    && source.instant(g.until).Some? && source.instant(g.until).value <= retention
  }

  /** `Unfit`: an answer that does not fit what is left; `Lost`: a member that did not arrive whole;
      `Expired`: a capability that had ended before it was used at all; `Undated`: the inventory's own
      expiry cannot be read. */
  datatype Stop = Done | Unfit | Lost | Expired | Undated

  ghost predicate StopFits(stop: Stop, source: Source, header: Header, g: Grant, rest: seq<Member>, ticks: nat) {
    var retention := source.instant(header.expiresAt);
    match stop
    case Done => true
    case Unfit =>
      && rest != [] && retention.Some?
      && (|| g.Withheld? || g.setId != header.setId || g.expiresAt != header.expiresAt || g.members != rest
          || source.instant(g.until).None? || source.instant(g.until).value > retention.value)
    case Lost => rest != [] && !MemberArrives(source, rest[0])
    case Expired =>
      && rest != [] && ticks > 0 && g.Issued? && source.instant(g.until).Some?
      && source.now(ticks - 1) >= source.instant(g.until).value
    case Undated => rest != [] && retention.None?
  }

  /** The log covers the first members, in order. */
  ghost predicate Covers(log: seq<Fetched>, members: seq<Member>) {
    |log| <= |members| && Members(log) == members[..|log|]
  }

  lemma LogGrows(source: Source, header: Header, log: seq<Fetched>, f: Fetched, members: seq<Member>)
    requires LogFits(source, header, log) && Good(source, header, f)
    requires Covers(log, members) && |log| < |members| && f.member == members[|log|]
    ensures LogFits(source, header, log + [f]) && Covers(log + [f], members)
  {
    MembersExtend(log, f);
    LogExtends(source, header, log, [f]);
  }

  /** One member under the answer to a call, after a look at the clock. */
  method FetchOne(source: Source, header: Header, m: Member, call: nat, tick: nat) returns (f: Option<Fetched>)
    requires var g, retention := source.grants(call), source.instant(header.expiresAt);
             && g.Issued? && g.setId == header.setId && g.expiresAt == header.expiresAt && m in g.members
             && retention.Some? && source.instant(g.until).Some?
             && source.now(tick) < source.instant(g.until).value <= retention.value
    ensures f.Some? <==> MemberArrives(source, m)
    ensures f.Some? ==> f.value.member == m && Good(source, header, f.value)
  {
    var ok, file := DownloadMember(m, source.deliveries(m), source.createFails(m), source.syncFails(m), source.sha);
    f := if ok then Some(Fetched(m, call, tick, file.value)) else None;
  }

  /** Members of `rest` in order, under a usable answer, until the capability ends or one fails. */
  method FetchWhileUsable(source: Source, header: Header, retention: int, call: nat, rest: seq<Member>, tick: nat)
    returns (stop: Stop, log: seq<Fetched>, ticks: nat)
    requires rest != [] && source.instant(header.expiresAt) == Some(retention)
    requires Usable(source, source.grants(call), header, retention, rest)
    ensures LogFits(source, header, log) && Covers(log, rest)
    ensures stop.Done? || stop.Expired? || stop.Lost?
    ensures stop.Done? ==> log != []
    ensures stop.Lost? ==> |log| < |rest| && !MemberArrives(source, rest[|log|])
    ensures stop.Expired? ==> log == [] && ticks > 0
    ensures stop.Expired? ==> source.now(ticks - 1) >= source.instant(source.grants(call).until).value
  {
    log, ticks := [], tick;
    var g := source.grants(call);
    var until := source.instant(g.until).value;
    while |log| < |g.members|
      invariant Covers(log, rest) && LogFits(source, header, log)
    {
      var at := source.now(ticks);
      ticks := ticks + 1;
      if at >= until { return if log == [] then Expired else Done, log, ticks; }
      var f := FetchOne(source, header, g.members[|log|], call, ticks - 1);
      if f.None? { return Lost, log, ticks; }
      LogGrows(source, header, log, f.value, rest);
      log := log + [f.value];
    }
    stop := Done;
  }

  /** One answer's worth, with the reason it stopped. */
  method UseGrant(source: Source, header: Header, retention: int, call: nat, rest: seq<Member>, tick: nat)
    returns (stop: Stop, log: seq<Fetched>, ticks: nat)
    requires rest != [] && source.instant(header.expiresAt) == Some(retention)
    ensures LogFits(source, header, log) && Covers(log, rest)
    ensures stop.Done? ==> log != []
    ensures StopFits(stop, source, header, source.grants(call), rest[|log|..], ticks)
  {
    if !Usable(source, source.grants(call), header, retention, rest) { return Unfit, [], tick; }
    stop, log, ticks := FetchWhileUsable(source, header, retention, call, rest, tick);
  }

  lemma LogsJoin(log: seq<Fetched>, part: seq<Fetched>, batch: seq<Member>)
    requires Covers(log, batch) && Covers(part, batch[|log|..])
    ensures Covers(log + part, batch)
    ensures batch[|log|..][|part|..] == batch[|log + part|..]
  {
    MembersJoin(log, part);
  }

  /** A batch is fetched in order, each member once; every answer makes progress, so at most as many
      capabilities are asked for as there are members. */
  method DownloadBatch(source: Source, header: Header, batch: seq<Member>, call: nat, tick: nat)
    returns (stop: Stop, log: seq<Fetched>, calls: nat, ticks: nat)
    requires batch != []
    ensures LogFits(source, header, log) && Covers(log, batch)
    ensures stop.Done? <==> |log| == |batch|
    ensures !stop.Done? ==>
              var g := if calls == 0 then Withheld else source.grants(calls - 1);
              StopFits(stop, source, header, g, batch[|log|..], ticks)
    ensures stop.Undated? || calls > call
    ensures calls <= call + |batch|
  {
    stop, log, calls, ticks := Done, [], call, tick;
    var retention := source.instant(header.expiresAt);
    if retention.None? { return Undated, log, calls, ticks; }
    while stop.Done? && |log| < |batch|
      invariant LogFits(source, header, log) && Covers(log, batch)
      invariant call <= calls <= call + |log| + (if stop.Done? then 0 else 1) && (log != [] ==> call < calls)
      invariant !stop.Done? ==> |log| < |batch| && calls > call && !stop.Undated?
      invariant !stop.Done? ==> StopFits(stop, source, header, source.grants(calls - 1), batch[|log|..], ticks)
      decreases |batch| - |log|, stop.Done?
    {
      var part;
      stop, part, ticks := UseGrant(source, header, retention.value, calls, batch[|log|..], ticks);
      calls := calls + 1;
      LogsJoin(log, part, batch);
      LogExtends(source, header, log, part);
      log := log + part;
    }
  }

  lemma PartOfRest(part: seq<Fetched>, members: seq<Member>, from: nat, to: nat)
    requires from <= to <= |members| && Covers(part, members[from..to])
    ensures Covers(part, members[from..])
  {
    assert members[from..to][..|part|] == members[from..][..|part|];
  }

  lemma BatchJoins(
      source: Source, header: Header, log: seq<Fetched>, part: seq<Fetched>, members: seq<Member>, end: nat)
    requires |log| <= end <= |members| && Covers(log, members) && Covers(part, members[|log|..end])
    requires LogFits(source, header, log) && LogFits(source, header, part)
    ensures LogFits(source, header, log + part) && Covers(log + part, members)
  {
    PartOfRest(part, members, |log|, end);
    LogsJoin(log, part, members);
    LogExtends(source, header, log, part);
  }

  /** Members are asked for in batches of a hundred: where the batch ends that a member is in. */
  function BatchEnd(i: nat, n: nat): (end: nat)
    requires i < n
    ensures i < end <= n
  {
    var end := 100 * (i / 100 + 1);
    if end < n then end else n
  }

  predicate StartsBatch(i: nat, n: nat) {
    i < n ==> i % BATCH_SIZE == 0
  }

  lemma BatchStarts(i: nat, n: nat)
    requires i < n && StartsBatch(i, n)
    ensures BatchEnd(i, n) == if n - i < BATCH_SIZE then n else i + BATCH_SIZE
    ensures StartsBatch(BatchEnd(i, n), n)
  {
  }

  lemma RestOfBatch(members: seq<Member>, i: nat, k: nat)
    requires i < |members| && i % BATCH_SIZE == 0 && i + k < BatchEnd(i, |members|)
    ensures members[i..BatchEnd(i, |members|)][k..] == members[i + k..BatchEnd(i + k, |members|)]
  {
    assert (i + k) / 100 == i / 100;
  }

  /** Why the download stopped before member `i`, given the last answer and the rest of its batch. */
  ghost predicate StoppedAt(
      source: Source, header: Header, members: seq<Member>, stop: Stop, i: nat, calls: nat, ticks: nat)
    requires i < |members|
  {
    var g := if calls == 0 then Withheld else source.grants(calls - 1);
    StopFits(stop, source, header, g, members[i..BatchEnd(i, |members|)], ticks)
  }

  /** A batch from member `i` on that stopped after `k` members. */
  lemma AfterBatch(
      source: Source, header: Header, members: seq<Member>, i: nat, k: nat, stop: Stop, calls: nat, ticks: nat)
    requires i < |members| && StartsBatch(i, |members|) && i + k <= BatchEnd(i, |members|)
    requires stop.Done? <==> i + k == BatchEnd(i, |members|)
    requires !stop.Done? ==>
               var g := if calls == 0 then Withheld else source.grants(calls - 1);
               StopFits(stop, source, header, g, members[i..BatchEnd(i, |members|)][k..], ticks)
    ensures stop.Done? ==> StartsBatch(i + k, |members|)
    ensures !stop.Done? ==> i + k < |members| && StoppedAt(source, header, members, stop, i + k, calls, ticks)
  {
    BatchStarts(i, |members|);
    if !stop.Done? { RestOfBatch(members, i, k); }
  }

  /** The next batch, added to the log. */
  method DownloadNext(
      source: Source, header: Header, members: seq<Member>, before: seq<Fetched>, call: nat, tick: nat)
    returns (stop: Stop, log: seq<Fetched>, calls: nat, ticks: nat)
    requires |before| < |members| && StartsBatch(|before|, |members|) && call <= |before|
    requires LogFits(source, header, before) && Covers(before, members)
    ensures LogFits(source, header, log) && Covers(log, members)
    ensures stop.Done? ==> |before| < |log| && StartsBatch(|log|, |members|) && calls <= |log|
    ensures !stop.Done? ==>
              && |log| < |members| && calls <= |members|
              && StoppedAt(source, header, members, stop, |log|, calls, ticks)
  {
    var i := |before|;
    var end := if |members| - i < BATCH_SIZE then |members| else i + BATCH_SIZE;
    BatchStarts(i, |members|);
    var part;
    stop, part, calls, ticks := DownloadBatch(source, header, members[i..end], call, tick);
    BatchJoins(source, header, before, part, members, end);
    AfterBatch(source, header, members, i, |part|, stop, calls, ticks);
    log := before + part;
  }

  /** Every member of the inventory exactly once, in order, each with a file of its declared size and
      digest, fetched in time. */
  method DownloadAll(source: Source, header: Header, members: seq<Member>)
    returns (stop: Stop, log: seq<Fetched>, calls: nat, ticks: nat)
    ensures LogFits(source, header, log) && Covers(log, members)
    ensures stop.Done? <==> Members(log) == members
    ensures !stop.Done? ==>
              |log| < |members| && StoppedAt(source, header, members, stop, |log|, calls, ticks)
    ensures calls <= |members|
  {
    stop, log, calls, ticks := Done, [], 0, 0;
    while |log| < |members|
      invariant LogFits(source, header, log) && Covers(log, members)
      invariant StartsBatch(|log|, |members|) && calls <= |log|
      decreases |members| - |log|
    {
      stop, log, calls, ticks := DownloadNext(source, header, members, log, calls, ticks);
      if !stop.Done? { return; }
    }
    stop := Done;
    assert members[..|members|] == members;
  }

  /** So a finished download leaves, for the i-th member, a file that is exactly the i-th member's. */
  lemma DoneMeansIntact(source: Source, header: Header, log: seq<Fetched>, members: seq<Member>, i: nat)
    requires LogFits(source, header, log) && Members(log) == members && i < |members|
    ensures log[i].member == members[i]
    ensures |log[i].file| == members[i].size && source.sha(log[i].file) == members[i].digest
  {
    assert Good(source, header, log[i]);
  }
}
