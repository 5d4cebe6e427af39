/** Collecting every page of an inventory: whatever a service answers the loop ends, what it returns is
    complete, and an inventory served honestly is returned as it is. */
module ArtifactCollection {
  import opened Basics
  import opened PublicId
  import opened ArtifactPaths
  import opened ArtifactInventory

  datatype Inventory = Inventory(header: Header, members: seq<Member>)

  /** Distinct members in order, as many and as large as announced, ending with the result. */
  ghost predicate Complete(inv: Inventory) {
    && AllValid(inv.members) && Ordered(inv.members)
    && |inv.members| == inv.header.count && Total(inv.members) == inv.header.total
    && inv.members != [] && inv.members[|inv.members| - 1].place.Result?
  }

  /** A page with its paths read. */
  datatype Fetched = Fetched(header: Header, members: seq<Member>, next: Option<string>)

  function Flat(parts: seq<seq<Member>>): seq<Member> {
    if parts == [] then [] else Flat(parts[..|parts| - 1]) + parts[|parts| - 1]
  }

  /** The answer is a page under the header and lists these members. */
  ghost predicate Lists(answer: Answer, header: Option<Header>, part: seq<Member>) {
    && answer.Reply? && header == Some(answer.page.header)
    && AllPaths(answer.page.listed) && ReadAll(answer.page.listed) == part
  }

  /** The first answers are pages of one inventory, and `members` are what they list, in turn. */
  ghost predicate Gathered(
      answers: nat -> Answer, parts: seq<seq<Member>>, header: Option<Header>, members: seq<Member>)
  {
    && (header.None? <==> parts == []) && members == Flat(parts)
    && forall i: nat {:trigger Lists(answers(i), header, parts[i])} ::
         i < |parts| ==> Lists(answers(i), header, parts[i])
  }

  lemma {:induction false} OrdinalsGrow(members: seq<Member>, i: nat)
    requires Ordered(members) && AllValid(members) && i < |members|
    ensures members[i].place.Export? ==> i < members[i].place.ordinal
  {
    if i > 0 {
      OrdinalsGrow(members, i - 1);
      assert Precedes(members[i - 1].place, members[i].place);
    }
  }

  /** Ordinals run from 1 to 4096, so no ordered list is longer than 4097. */
  lemma OrderedIsShort(members: seq<Member>)
    requires Ordered(members) && AllValid(members)
    ensures |members| <= MAX_MEMBERS
  {
    if |members| > 1 {
      var i := |members| - 2;
      OrdinalsGrow(members, i);
      assert Precedes(members[i].place, members[i + 1].place);
    }
  }

  // ---- An honest service ----

  /** An inventory cut into pages, with a cursor after each page but the last. */
  datatype Serving = Serving(inv: Inventory, sealed: int, expires: int, cuts: seq<nat>, cursor: nat -> string)

  /** A complete inventory whose text fits the client's bounds, cut into pages of at most 200 members. */
  ghost predicate IsCut(s: Serving) {
    && Complete(s.inv) && ValidTypedId(s.inv.header.setId, "ats_") && s.sealed < s.expires
    && (forall i :: 0 <= i < |s.inv.members| ==> 3 <= |s.inv.members[i].mediaType| <= 128)
    && |s.cuts| >= 2 && s.cuts[0] == 0 && s.cuts[|s.cuts| - 1] == |s.inv.members|
    && (forall i, j :: 0 <= i < j < |s.cuts| ==> s.cuts[i] < s.cuts[j] <= |s.inv.members|)
    && (forall i, j :: 0 <= i < j < |s.cuts| && j == i + 1 ==> s.cuts[j] - s.cuts[i] <= PAGE_LIMIT)
  }

  /** The cursors that are used fit their bounds, and no two are the same. */
  ghost predicate Servable(s: Serving) {
    && IsCut(s)
    && (forall i: nat :: i + 2 < |s.cuts| ==> 1 <= |s.cursor(i)| <= 2048)
    && (forall i: nat, j: nat :: i < j && j + 2 < |s.cuts| ==> s.cursor(i) != s.cursor(j))
  }

  ghost function Part(s: Serving, i: nat): seq<Member>
    requires Servable(s) && i + 1 < |s.cuts|
  {
    assert s.cuts[i] < s.cuts[i + 1] <= |s.inv.members|;
    s.inv.members[s.cuts[i]..s.cuts[i + 1]]
  }

  ghost function NextCursor(s: Serving, i: nat): Option<string> {
    if i + 2 == |s.cuts| then None else Some(s.cursor(i))
  }

  /** A member as it is written: its place spelled as a path. */
  function Relist(m: Member): Listed {
    Listed(Spell(m.place), m.mediaType, m.size, m.digest)
  }

  function Listing(members: seq<Member>): (listed: seq<Listed>)
    ensures |listed| == |members|
  {
    seq(|members|, i requires 0 <= i < |members| => Relist(members[i]))
  }

  lemma ReadingUndoesRelisting(m: Member)
    ensures ValidPath(Relist(m).path) && Read(Relist(m)) == m
  {
    PathsArePlaces(Spell(m.place), m.place);
  }

  /** Reading undoes listing. */
  lemma ReadingUndoesListing(members: seq<Member>)
    ensures AllPaths(Listing(members)) && ReadAll(Listing(members)) == members
  {
    forall i | 0 <= i < |members|
      ensures ValidPath(Listing(members)[i].path) && Read(Listing(members)[i]) == members[i]
    {
      ReadingUndoesRelisting(members[i]);
    }
  }

  ghost function PageOf(s: Serving, i: nat): Page
    requires Servable(s) && i + 1 < |s.cuts|
  {
    Page(s.inv.header, Some(s.sealed), Some(s.expires), Listing(Part(s, i)), NextCursor(s, i))
  }

  ghost predicate Serves(s: Serving, answers: nat -> Answer) {
    && Servable(s)
    && forall i: nat {:trigger PageOf(s, i)} :: i + 1 < |s.cuts| ==> answers(i) == Reply(PageOf(s, i))
  }

  ghost function CursorBefore(s: Serving, i: nat): Option<string> {
    if i == 0 then None else Some(s.cursor(i - 1))
  }

  lemma TotalSplits(members: seq<Member>, k: nat)
    requires k <= |members|
    ensures Total(members) == Total(members[..k]) + Total(members[k..])
  {
    assert members == members[..k] + members[k..];
    TotalOfParts(members[..k], members[k..]);
  }

  lemma TotalOfSlice(members: seq<Member>, a: nat, b: nat)
    requires a <= b <= |members|
    ensures Total(members[a..b]) <= Total(members)
  {
    TotalSplits(members, b);
    TotalSplits(members[..b], a);
  }

  lemma HonestPageIsAccepted(s: Serving, i: nat)
    requires Servable(s) && i + 1 < |s.cuts|
    ensures PageAccepted(PageOf(s, i)) && ReadAll(PageOf(s, i).listed) == Part(s, i)
  {
    OrderedIsShort(s.inv.members);
    ReadingUndoesListing(Part(s, i));
    TotalOfSlice(s.inv.members, s.cuts[i], s.cuts[i + 1]);
    PartIsOrdered(s, i);
    PageOfFits(s, i);
    AcceptedPagesAreOrdered(PageOf(s, i));
  }

  lemma PageOfFits(s: Serving, i: nat)
    requires Servable(s) && i + 1 < |s.cuts| && |s.inv.members| <= MAX_MEMBERS
    requires AllPaths(Listing(Part(s, i)))
    ensures BoundsFit(PageOf(s, i))
  {
    forall k | 0 <= k < |Part(s, i)| ensures 3 <= |PageOf(s, i).listed[k].mediaType| <= 128 {
      assert Part(s, i)[k] == s.inv.members[s.cuts[i] + k];
    }
  }

  lemma PartIsOrdered(s: Serving, i: nat)
    requires Servable(s) && i + 1 < |s.cuts|
    ensures Ordered(Part(s, i)) && AllValid(Part(s, i))
  {
  }

  lemma PagesJoin(s: Serving, i: nat)
    requires Servable(s) && i + 1 < |s.cuts|
    ensures s.cuts[i] <= s.cuts[i + 1] <= |s.inv.members|
    ensures s.inv.members[..s.cuts[i]] + Part(s, i) == s.inv.members[..s.cuts[i + 1]]
    ensures Ordered(s.inv.members[..s.cuts[i]]) && Ordered(s.inv.members[..s.cuts[i + 1]])
    ensures i + 2 == |s.cuts| ==> s.inv.members[..s.cuts[i + 1]] == s.inv.members
  {
  }

  lemma HonestPageIsValid(s: Serving, i: nat)
    requires Servable(s) && i + 1 < |s.cuts|
    ensures PageValid(PageOf(s, i), if i == 0 then None else Some(s.inv.header), s.inv.members[..s.cuts[i]])
  {
    OrderedIsShort(s.inv.members);
    ReadingUndoesListing(Part(s, i));
    PartIsOrdered(s, i);
    PagesJoin(s, i);
  }

  /** Every page of an honest service passes the client's checks. */
  lemma HonestPageIsUsable(s: Serving, i: nat)
    requires Servable(s) && i + 1 < |s.cuts|
    ensures PageUsable(PageOf(s, i), CursorBefore(s, i))
  {
    HonestPageIsAccepted(s, i);
    assert i > 0 ==> s.cuts[0] < s.cuts[i];
    assert i + 2 < |s.cuts| ==> s.cuts[i + 1] < s.cuts[|s.cuts| - 1];
  }

  lemma {:induction false} CutsGrow(cuts: seq<nat>, i: nat)
    requires i < |cuts| && forall j, k :: 0 <= j < k < |cuts| ==> cuts[j] < cuts[k]
    ensures i <= cuts[i]
  {
    if i > 0 {
      CutsGrow(cuts, i - 1);
      assert cuts[i - 1] < cuts[i];
    }
  }

  lemma SpellingsDiffer(a: Ordinal, b: Ordinal)
    requires a != b
    ensures Spell(Export(a)) != Spell(Export(b))
  {
    PathsArePlaces(Spell(Export(a)), Export(a));
    PathsArePlaces(Spell(Export(a)), Export(b));
  }

  /** Every inventory that is cut into pages can be served: there are enough cursors for it. */
  lemma EveryCutCanBeServed(s: Serving) returns (served: Serving, answers: nat -> Answer)
    requires IsCut(s)
    ensures served == s.(cursor := served.cursor) && Serves(served, answers)
  {
    OrderedIsShort(s.inv.members);
    CutsGrow(s.cuts, |s.cuts| - 1);
    served := s.(cursor := (i: nat) => if i < 10000 then Spell(Export(i)) else "");
    forall i: nat, j: nat | i < j && j + 2 < |s.cuts| ensures served.cursor(i) != served.cursor(j) {
      SpellingsDiffer(i, j);
    }
    var pages := served;
    assert Servable(pages);
    answers := i requires i >= 0 => if i + 1 < |pages.cuts| then Reply(PageOf(pages, i)) else Unreadable;
  }

  /** An inventory of two members, cut into two pages. */
  lemma TwoPages() returns (s: Serving)
    ensures IsCut(s) && |s.cuts| == 3
  {
    var first := Member(Export(1), "a/b", 1, []);
    var result := Member(Result, "application/json", 2, []);
    var members := [first, result];
    TotalOfParts([first], [result]);
    assert members == [first] + [result];
    var id := "ats_" + seq(26, i => '0');
    assert id[..4] == "ats_";
    var header := Header(id, "", "", 2, 3);
    s := Serving(Inventory(header, members), 0, 1, [0, 1, 2], (i: nat) => "");
  }

  // ---- The loop ----

  /** Where the loop stands before page `i` of an honest service. */
  ghost predicate AtPage(s: Serving, i: nat, expected: Option<Header>, cursor: Option<string>, members: seq<Member>) {
    && Servable(s) && i + 1 < |s.cuts|
    && expected == (if i == 0 then None else Some(s.inv.header))
    && cursor == CursorBefore(s, i)
    && s.cuts[i] <= |s.inv.members| && members == s.inv.members[..s.cuts[i]]
  }

  /** Page `i` was taken: that leads to the next page, or to the end with everything collected. */
  ghost predicate Advances(s: Serving, i: nat, members: seq<Member>, f: Fetched) {
    && f.header == s.inv.header && f.next == NextCursor(s, i)
    && if f.next.None? then members + f.members == s.inv.members
       else AtPage(s, i + 1, Some(f.header), f.next, members + f.members)
  }

  /** The members so far and those of a checked page. */
  ghost predicate Extends(members: seq<Member>, expected: Option<Header>, f: Fetched) {
    && (expected.Some? ==> f.header == expected.value)
    && Ordered(members + f.members) && AllValid(members + f.members) && |members + f.members| <= MAX_MEMBERS
    && (f.next.Some? ==> f.members != [] && f.next.value != "")
  }

  /** One page, checked by the client and then against the pages before it. */
  method ReadPage(answer: Answer, expected: Option<Header>, cursor: Option<string>, members: seq<Member>)
    returns (f: Option<Fetched>)
    requires Ordered(members) && AllValid(members)
    ensures f.Some? <==> answer.Reply? && PageUsable(answer.page, cursor) && PageValid(answer.page, expected, members)
    ensures f.Some? ==> Lists(answer, Some(f.value.header), f.value.members) && f.value.next == answer.page.next
    ensures f.Some? ==> Extends(members, expected, f.value)
  {
    if answer.Unreadable? || !PageUsable(answer.page, cursor) { return None; }
    var page := answer.page;
    var previous := None;
    if members != [] {
      previous := Some(Relist(members[|members| - 1]));
      ReadingUndoesRelisting(members[|members| - 1]);
    }
    var valid := ValidatePage(page, expected, previous, members);
    if !valid { return None; }
    OrderedIsShort(members + ReadAll(page.listed));
    f := Some(Fetched(page.header, ReadAll(page.listed), page.next));
  }

  lemma GatheredExtends(
      answers: nat -> Answer, parts: seq<seq<Member>>, header: Option<Header>, members: seq<Member>, f: Fetched)
    requires Gathered(answers, parts, header, members) && Lists(answers(|parts|), Some(f.header), f.members)
    requires header.Some? ==> f.header == header.value
    ensures Gathered(answers, parts + [f.members], Some(f.header), members + f.members)
  {
    var longer := parts + [f.members];
    assert longer[..|parts|] == parts;
    forall i: nat | i < |longer| ensures Lists(answers(i), Some(f.header), longer[i]) {
      if i < |parts| { assert Lists(answers(i), header, parts[i]); }
    }
  }

  lemma HonestPageAdvances(
      s: Serving, i: nat, expected: Option<Header>, cursor: Option<string>, members: seq<Member>, f: Fetched)
    requires AtPage(s, i, expected, cursor, members)
    requires Lists(Reply(PageOf(s, i)), Some(f.header), f.members) && f.next == NextCursor(s, i)
    ensures Advances(s, i, members, f)
  {
    ReadingUndoesListing(Part(s, i));
    PagesJoin(s, i);
  }

  method Fetch(answers: nat -> Answer, k: nat, expected: Option<Header>, cursor: Option<string>, members: seq<Member>,
               ghost parts: seq<seq<Member>>, ghost honest: Option<Serving>)
    returns (f: Option<Fetched>)
    requires Ordered(members) && AllValid(members) && |parts| == k && Gathered(answers, parts, expected, members)
    ensures f.Some? ==> Extends(members, expected, f.value)
    ensures f.Some? ==> answers(k).Reply? && f.value.next == answers(k).page.next
    ensures f.Some? ==> Gathered(answers, parts + [f.value.members], Some(f.value.header), members + f.value.members)
    ensures (honest.Some? && Serves(honest.value, answers) && AtPage(honest.value, k, expected, cursor, members)) ==>
              f.Some? && Advances(honest.value, k, members, f.value)
  {
    f := ReadPage(answers(k), expected, cursor, members);
    if f.Some? { GatheredExtends(answers, parts, expected, members, f.value); }
    if honest.Some? && Serves(honest.value, answers) && AtPage(honest.value, k, expected, cursor, members) {
      assert answers(k) == Reply(PageOf(honest.value, k));
      HonestPageIsUsable(honest.value, k);
      HonestPageIsValid(honest.value, k);
      HonestPageAdvances(honest.value, k, expected, cursor, members, f.value);
    }
  }

  /** The last check: what was collected is returned exactly when it is complete. */
  method Finish(header: Header, members: seq<Member>) returns (r: Option<Inventory>)
    requires Ordered(members) && AllValid(members)
    ensures r.Some? <==> Complete(Inventory(header, members))
    ensures r.Some? ==> r.value == Inventory(header, members)
  {
    CheckedTotalIsTotal(members);
    var total := CheckedTotal(members);
    if total.None? || |members| != header.count || total.value != header.total
       || members == [] || Relist(members[|members| - 1]).path != RESULT
    {
      if members != [] { ReadingUndoesRelisting(members[|members| - 1]); }
      return None;
    }
    ReadingUndoesRelisting(members[|members| - 1]);
    r := Some(Inventory(header, members));
  }

  /** The cursors after the first `n` pages are all there, and no two are the same. */
  ghost predicate FreshCursors(answers: nat -> Answer, n: nat) {
    && (forall i: nat :: i < n ==> answers(i).Reply? && answers(i).page.next.Some?)
    && (forall i: nat, j: nat :: i < j < n ==> answers(i).page.next != answers(j).page.next)
  }

  /** Every page in turn. Whatever is answered the loop ends, because an ordered list is short; what it
      returns is complete, and no cursor led to it twice; and an inventory served honestly, cut at any
      points, comes back as it is. */
  method Collect(answers: nat -> Answer, ghost honest: Option<Serving>)
    returns (r: Option<Inventory>, pages: nat, ghost parts: seq<seq<Member>>)
    ensures 0 < pages <= MAX_MEMBERS + 1 && |parts| <= pages <= |parts| + 1
    ensures r.Some? ==> Complete(r.value)
    ensures r.Some? ==> |parts| == pages && Gathered(answers, parts, Some(r.value.header), r.value.members)
    ensures r.Some? ==> FreshCursors(answers, pages - 1)
    ensures r.Some? ==> answers(pages - 1).Reply? && answers(pages - 1).page.next.None?
    ensures honest.Some? && Serves(honest.value, answers) ==> r == Some(honest.value.inv)
  {
    ghost var serving := honest.Some? && Serves(honest.value, answers);
    var expected: Option<Header>, cursor: Option<string>, seen: set<string>, members: seq<Member> := None, None, {}, [];
    pages, parts := 0, [];
    while true
      invariant Ordered(members) && AllValid(members) && |parts| == pages <= |members| <= MAX_MEMBERS
      invariant Gathered(answers, parts, expected, members)
      invariant FreshCursors(answers, pages)
      invariant forall i: nat :: i < pages ==> answers(i).page.next.value in seen
      invariant serving ==> AtPage(honest.value, pages, expected, cursor, members)
      invariant serving ==>
                  forall i: nat :: pages <= i && i + 2 < |honest.value.cuts| ==> honest.value.cursor(i) !in seen
      decreases MAX_MEMBERS - |members|
    {
      var f := Fetch(answers, pages, expected, cursor, members, parts, honest);
      if f.None? { return None, pages + 1, parts; }
      if expected.None? { expected := Some(f.value.header); }
      assert expected == Some(f.value.header);
      members, pages, parts := members + f.value.members, pages + 1, parts + [f.value.members];
      var next := f.value.next;
      if next.None? { break; }
      if next.value == "" || next.value in seen || members == [] { return None, pages, parts; }
      seen, cursor := seen + {next.value}, next;
    }
    r := Finish(expected.value, members);
  }
}
