/** Artifact inventories: when a page is accepted, and the check of a page against those before it. Both
    compare paths as text; what they come to is stated of the places the paths name. */
module ArtifactInventory {
  import opened Basics
  import opened BoundedBody
  import opened PublicId
  import opened ArtifactPaths

  const PAGE_LIMIT := 200
  const MAX_MEMBERS := 4097
  const MAX_ORDINAL := 4096

  /** A member as the service describes it, and the same with its path read as a place. */
  datatype Listed = Listed(path: string, mediaType: string, size: Word, digest: seq<Byte>)
  datatype Member = Member(place: Place, mediaType: string, size: Word, digest: seq<Byte>)

  /** What every page repeats. Timestamps are kept as text, and are compared as text between pages. */
  datatype Header = Header(setId: string, sealedAt: string, expiresAt: string, count: nat, total: Word)

  /** `sealed` and `expires` are the instants the two timestamps name, if they can be read. */
  datatype Page = Page(
    header: Header, sealed: Option<int>, expires: Option<int>, listed: seq<Listed>, next: Option<string>)

  predicate AllPaths(listed: seq<Listed>) {
    forall i {:trigger ValidPath(listed[i].path)} :: 0 <= i < |listed| ==> ValidPath(listed[i].path)
  }

  function Read(m: Listed): Member
    requires ValidPath(m.path)
  {
    Member(PlaceOf(m.path), m.mediaType, m.size, m.digest)
  }

  function ReadAll(listed: seq<Listed>): (members: seq<Member>)
    requires AllPaths(listed)
    ensures |members| == |listed| && forall i :: 0 <= i < |listed| ==> members[i] == Read(listed[i])
  {
    seq(|listed|, i requires 0 <= i < |listed| => Read(listed[i]))
  }

  // ---- Sizes ----

  function Total(members: seq<Member>): nat {
    if members == [] then 0 else Total(members[..|members| - 1]) + members[|members| - 1].size
  }

  /** The fold of checked additions. */
  function CheckedTotal(members: seq<Member>): Option<Word> {
    if members == [] then Some(0)
    else
      var before := CheckedTotal(members[..|members| - 1]);
      if before.None? then None else CheckedAdd(before.value, members[|members| - 1].size)
  }

  /** Checked addition succeeds exactly when no partial sum overflows, which is when the whole does not. */
  lemma {:induction false} CheckedTotalIsTotal(members: seq<Member>)
    ensures CheckedTotal(members) == if Total(members) <= WORD_MAX then Some(Total(members)) else None
  {
    if members != [] { CheckedTotalIsTotal(members[..|members| - 1]); }
  }

  lemma {:induction false} TotalOfParts(a: seq<Member>, b: seq<Member>)
    ensures Total(a + b) == Total(a) + Total(b)
    decreases |b|
  {
    if b == [] {
      assert a + b == a;
    } else {
      assert (a + b)[..|a + b| - 1] == a + b[..|b| - 1];
      TotalOfParts(a, b[..|b| - 1]);
    }
  }

  // ---- Acceptance of one page ----

  predicate BoundsFit(p: Page) {
    && ValidTypedId(p.header.setId, "ats_")
    && 0 < p.header.count <= MAX_MEMBERS
    && |p.listed| <= PAGE_LIMIT && |p.listed| <= p.header.count
    && (p.next.Some? ==> 1 <= |p.next.value| <= 2048)
    && p.sealed.Some? && p.expires.Some? && p.sealed.value < p.expires.value
    && (forall i :: 0 <= i < |p.listed| ==> 3 <= |p.listed[i].mediaType| <= 128)
    && AllPaths(p.listed)
  }

  /** Each path follows the one before it, byte by byte. */
  predicate PathsInOrder(listed: seq<Listed>) {
    forall i, j :: 0 <= i < |listed| && 0 <= j < |listed| && j == i + 1 ==> Less(listed[i].path, listed[j].path)
  }

  /** The conversion of a page off the wire: neighbouring paths are compared, sizes added with a check. */
  predicate PageAccepted(p: Page) {
    && BoundsFit(p) && PathsInOrder(p.listed)
    && var size := CheckedTotal(ReadAll(p.listed)); size.Some? && size.value <= p.header.total
  }

  predicate NeighboursInOrder(members: seq<Member>) {
    forall i, j :: 0 <= i < |members| && 0 <= j < |members| && j == i + 1 ==>
      Precedes(members[i].place, members[j].place)
  }

  /** Every two members, however far apart, are in order. */
  predicate Ordered(members: seq<Member>) {
    forall i, j {:trigger Precedes(members[i].place, members[j].place)} ::
      0 <= i < |members| && i < j < |members| ==> Precedes(members[i].place, members[j].place)
  }

  /** Strict order of neighbouring paths is increasing ordinals with the result last. */
  lemma PathsInOrderArePlaces(listed: seq<Listed>)
    requires AllPaths(listed)
    ensures PathsInOrder(listed) <==> NeighboursInOrder(ReadAll(listed))
  {
    forall i, j | 0 <= i < |listed| && 0 <= j < |listed| && j == i + 1
      ensures Less(listed[i].path, listed[j].path) <==> Precedes(ReadAll(listed)[i].place, ReadAll(listed)[j].place)
    {
      TextOrder(listed[i].path, listed[j].path);
    }
  }

  lemma {:induction false} NeighboursMakeOrdered(members: seq<Member>)
    ensures NeighboursInOrder(members) <==> Ordered(members)
    decreases |members|
  {
    if |members| > 1 {
      var last := |members| - 1;
      var front := members[..last];
      NeighboursMakeOrdered(front);
      if NeighboursInOrder(members) {
        assert NeighboursInOrder(front);
        assert Precedes(members[last - 1].place, members[last].place);
        forall i | 0 <= i < last ensures Precedes(members[i].place, members[last].place) {
          assert i < last - 1 ==> Precedes(front[i].place, front[last - 1].place);
        }
      }
    }
  }

  /** Comparing neighbouring paths is comparing all pairs of places: an accepted page has distinct paths in
      order of ordinal, the result only at the end, and sizes whose true sum is within the total; and
      whatever has these is accepted. */
  lemma AcceptedPagesAreOrdered(p: Page)
    ensures PageAccepted(p) <==>
              BoundsFit(p) && Ordered(ReadAll(p.listed)) && Total(ReadAll(p.listed)) <= p.header.total
    ensures PageAccepted(p) ==>
              forall i, j :: 0 <= i < j < |p.listed| ==>
                p.listed[i].path != p.listed[j].path && p.listed[i].path != RESULT
  {
    if BoundsFit(p) {
      var members := ReadAll(p.listed);
      PathsInOrderArePlaces(p.listed);
      NeighboursMakeOrdered(members);
      CheckedTotalIsTotal(members);
      if Ordered(members) { OrderedPathsDiffer(p.listed); }
    }
  }

  /** The bounds an accepted page keeps: an `ats_` ID, up to 4097 members in all and 200 to a page, a cursor of 1
      to 2048 characters, two readable instants in order, media types of 3 to 128 characters; and a page that
      breaks any of them is not accepted. */
  lemma AcceptedPagesAreBounded(p: Page)
    requires PageAccepted(p)
    ensures ValidTypedId(p.header.setId, "ats_") && 1 <= p.header.count <= 4097
    ensures |p.listed| <= 200 && |p.listed| <= p.header.count
    ensures p.next.Some? ==> 1 <= |p.next.value| <= 2048
    ensures p.sealed.Some? && p.expires.Some? && p.sealed.value < p.expires.value
    ensures forall m :: m in p.listed ==> 3 <= |m.mediaType| <= 128
  {
  }

  lemma OrderedPathsDiffer(listed: seq<Listed>)
    requires AllPaths(listed) && Ordered(ReadAll(listed))
    ensures forall i, j :: 0 <= i < j < |listed| ==> listed[i].path != listed[j].path && listed[i].path != RESULT
  {
    forall i, j | 0 <= i < j < |listed| ensures listed[i].path != listed[j].path && listed[i].path != RESULT {
      assert Precedes(ReadAll(listed)[i].place, ReadAll(listed)[j].place);
    }
  }

  // ---- A page after other pages ----

  datatype Answer = Reply(page: Page) | Unreadable

  /** The client's own check of the page that answers `cursor`. */
  predicate PageUsable(p: Page, cursor: Option<string>) {
    && PageAccepted(p)
    && !(cursor.None? && p.next.None? && |p.listed| < p.header.count)
    && !(p.next.Some? && (p.listed == [] || |p.listed| == p.header.count || p.next == cursor))
    && !(cursor.Some? && |p.listed| == p.header.count)
  }

  /** The test of one member, on its text. */
  predicate ListedFits(m: Listed) {
    && m.mediaType != "" && ValidPath(m.path)
    && if m.path == RESULT then m.mediaType == "application/json" else OrdinalTextFits(m.path)
  }

  predicate ValidMember(m: Member) {
    m.mediaType != "" &&
    if m.place.Result? then m.mediaType == "application/json" else 1 <= m.place.ordinal <= MAX_ORDINAL
  }

  lemma ListedFitsMeansValid(m: Listed)
    ensures ListedFits(m) <==> ValidPath(m.path) && ValidMember(Read(m))
  {
    if ValidPath(m.path) && m.path != RESULT { OrdinalTextIsBounded(m.path); }
  }

  ghost predicate AllValid(members: seq<Member>) {
    forall i :: 0 <= i < |members| ==> ValidMember(members[i])
  }

  ghost predicate PageValid(p: Page, expected: Option<Header>, before: seq<Member>) {
    && ValidTypedId(p.header.setId, "ats_") && 0 < p.header.count <= MAX_MEMBERS && |p.listed| <= PAGE_LIMIT
    && (expected.Some? ==> p.header == expected.value)
    && Continues(before, p.listed)
  }

  /** `m` is the listing of the last member, if there is one. */
  ghost predicate LastListed(m: Option<Listed>, members: seq<Member>) {
    if members == [] then m.None?
    else m.Some? && ValidPath(m.value.path) && Read(m.value) == members[|members| - 1]
  }

  /** Comparing with the member before decides whether the whole chain is in order. */
  lemma OrderedExtends(members: seq<Member>, m: Member)
    requires Ordered(members)
    ensures Ordered(members + [m]) <==> (members == [] || Precedes(members[|members| - 1].place, m.place))
  {
    var all := members + [m];
    if members != [] {
      var last := |members| - 1;
      assert all[last] == members[last] && all[|members|] == m;
      assert Ordered(all) ==> Precedes(all[last].place, all[|members|].place);
      if Precedes(members[last].place, m.place) {
        forall i | 0 <= i < |members| ensures Precedes(all[i].place, m.place) {
          assert i < last ==> Precedes(members[i].place, members[last].place);
        }
      }
    }
  }

  /** The listing `m` may come after `chain`. */
  ghost predicate MayFollow(chain: seq<Member>, m: Listed) {
    ValidPath(m.path) && ValidMember(Read(m)) && Ordered(chain + [Read(m)])
  }

  /** One step of the check, on text: comparing with the path before decides for the whole chain. */
  method Follows(prior: Option<Listed>, m: Listed, ghost chain: seq<Member>) returns (ok: bool)
    requires Ordered(chain) && LastListed(prior, chain)
    ensures ok <==> MayFollow(chain, m)
  {
    ListedFitsMeansValid(m);
    if ValidPath(m.path) {
      OrderedExtends(chain, Read(m));
      if prior.Some? { TextOrder(prior.value.path, m.path); }
    }
    ok := ListedFits(m) && (prior.None? || Less(prior.value.path, m.path));
  }

  /** All of the listing continues the members before it. */
  ghost predicate Continues(before: seq<Member>, listed: seq<Listed>) {
    AllPaths(listed) && AllValid(ReadAll(listed)) && Ordered(before + ReadAll(listed))
  }

  lemma ContinuesExtends(before: seq<Member>, listed: seq<Listed>, i: nat)
    requires i < |listed| && Continues(before, listed[..i])
    requires MayFollow(before + ReadAll(listed[..i]), listed[i])
    ensures Continues(before, listed[..i + 1])
    ensures before + ReadAll(listed[..i + 1]) == before + ReadAll(listed[..i]) + [Read(listed[i])]
  {
    assert ReadAll(listed[..i + 1]) == ReadAll(listed[..i]) + [Read(listed[i])];
    assert before + ReadAll(listed[..i + 1]) == before + ReadAll(listed[..i]) + [Read(listed[i])];
  }

  lemma ContinuesBreaks(before: seq<Member>, listed: seq<Listed>, i: nat)
    requires i < |listed| && Continues(before, listed)
    ensures AllPaths(listed[..i]) && MayFollow(before + ReadAll(listed[..i]), listed[i])
  {
    var members := ReadAll(listed);
    assert members[..i] == ReadAll(listed[..i]);
    assert (before + members)[..|before| + i + 1] == before + members[..i] + [members[i]];
    assert ValidMember(members[i]);
  }

  method CheckMembers(listed: seq<Listed>, previous: Option<Listed>, ghost before: seq<Member>) returns (ok: bool)
    requires Ordered(before) && LastListed(previous, before)
    ensures ok <==> Continues(before, listed)
  {
    var prior := previous;
    ghost var chain := before;
    assert before + ReadAll(listed[..0]) == before;
    for i := 0 to |listed|
      invariant Continues(before, listed[..i]) && chain == before + ReadAll(listed[..i]) && LastListed(prior, chain)
    {
      var follows := Follows(prior, listed[i], chain);
      if !follows {
        if Continues(before, listed) { ContinuesBreaks(before, listed, i); }
        return false;
      }
      ContinuesExtends(before, listed, i);
      prior := Some(listed[i]);
      chain := chain + [Read(listed[i])];
    }
    assert listed[..|listed|] == listed;
    ok := true;
  }

  /** `previous` is the last member of the pages before. */
  method ValidatePage(p: Page, expected: Option<Header>, previous: Option<Listed>, ghost before: seq<Member>)
    returns (ok: bool)
    requires Ordered(before) && LastListed(previous, before)
    ensures ok <==> PageValid(p, expected, before)
  {
    if !ValidTypedId(p.header.setId, "ats_") || p.header.count == 0 || p.header.count > MAX_MEMBERS
       || |p.listed| > PAGE_LIMIT
    {
      return false;
    }
    if expected.Some? && p.header != expected.value { return false; }
    ok := CheckMembers(p.listed, previous, before);
  }
}
