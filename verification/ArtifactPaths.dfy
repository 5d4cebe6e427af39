/** Paths of artifact members as text, and the places they name. */
module ArtifactPaths {
  import opened Basics

  type Ordinal = n: nat | n < 10000

  /** A member is an export with an ordinal of four digits, or the result. */
  datatype Place = Export(ordinal: Ordinal) | Result

  /** Exports by ordinal, the result after all of them. */
  predicate Precedes(a: Place, b: Place) {
    a.Export? && (b.Result? || a.ordinal < b.ordinal)
  }

  const EXPORTS := "exports/"
  const RESULT := "result.json"

  // ---- Byte order ----

  predicate Agree(a: string, b: string, k: nat)
    requires k <= |a| && k <= |b|
  {
    forall i :: 0 <= i < k ==> a[i] == b[i]
  }

  /** The first difference decides, and a proper prefix comes first. */
  predicate Less(a: string, b: string) {
    exists k :: 0 <= k < |b| && k <= |a| && Agree(a, b, k) && (k == |a| || a[k] < b[k])
  }

  lemma LessAt(a: string, b: string, k: nat)
    requires k < |a| && k < |b| && Agree(a, b, k)
    ensures a[k] < b[k] ==> Less(a, b)
    ensures a[k] > b[k] ==> !Less(a, b)
  {
  }

  /** Any two texts are equal or one comes before the other, and never both. */
  lemma LessIsTotal(a: string, b: string)
    ensures !(Less(a, b) && Less(b, a)) && !Less(a, a)
    ensures a == b || Less(a, b) || Less(b, a)
  {
    if a != b {
      var k := FirstDifference(a, b);
      if k < |a| && k < |b| {
        LessAt(a, b, k);
        LessAt(b, a, k);
      } else if k < |b| {
        assert Agree(a, b, k);
      } else {
        assert Agree(b, a, k);
      }
    }
  }

  lemma {:induction false} FirstDifference(a: string, b: string) returns (k: nat)
    requires a != b
    ensures k <= |a| && k <= |b| && Agree(a, b, k)
    ensures (k == |a| && k < |b|) || (k == |b| && k < |a|) || (k < |a| && k < |b| && a[k] != b[k])
  {
    k := 0;
    while k < |a| && k < |b| && a[k] == b[k]
      invariant k <= |a| && k <= |b| && Agree(a, b, k)
    {
      k := k + 1;
    }
    assert a[..k] == b[..k];
  }

  // ---- Four digits ----

  predicate FourDigits(text: string) {
    |text| == 4 && forall i :: 0 <= i < 4 ==> '0' <= text[i] <= '9'
  }

  function Digit(c: char): int { c as int - '0' as int }

  function ReadFour(text: string): (n: Ordinal)
    requires FourDigits(text)
  {
    1000 * Digit(text[0]) + 100 * Digit(text[1]) + 10 * Digit(text[2]) + Digit(text[3])
  }

  function WriteFour(n: Ordinal): (text: string)
    ensures FourDigits(text)
  {
    ['0' + (n / 1000) as char, '0' + (n / 100 % 10) as char, '0' + (n / 10 % 10) as char, '0' + (n % 10) as char]
  }

  lemma FourIsInverse(n: Ordinal)
    ensures ReadFour(WriteFour(n)) == n
  {
    assert n == 10 * (n / 10) + n % 10;
    assert n / 10 == 10 * (n / 100) + n / 10 % 10;
    assert n / 100 == 10 * (n / 1000) + n / 100 % 10;
  }

  /** Four digits compare as text the way they compare as numbers, behind any common prefix. */
  lemma DigitsCompare(a: string, b: string, prefix: string)
    requires FourDigits(a) && FourDigits(b)
    ensures Less(prefix + a, prefix + b) <==> ReadFour(a) < ReadFour(b)
    ensures ReadFour(a) == ReadFour(b) ==> a == b
  {
    var k := if a[0] != b[0] then 0 else if a[1] != b[1] then 1 else if a[2] != b[2] then 2 else 3;
    LessAt(prefix + a, prefix + b, |prefix| + k);
    if a[k] == b[k] { assert a == b; }
  }

  // ---- Paths ----

  predicate ValidPath(path: string) {
    path == RESULT || (|path| == 12 && path[..8] == EXPORTS && FourDigits(path[8..]))
  }

  function Parse(path: string): (place: Option<Place>)
    ensures place.Some? <==> ValidPath(path)
  {
    if path == RESULT then Some(Result)
    else if ValidPath(path) then Some(Export(ReadFour(path[8..])))
    else None
  }

  function Spell(place: Place): string {
    if place.Result? then RESULT else EXPORTS + WriteFour(place.ordinal)
  }

  /** Valid paths and places correspond one to one. */
  lemma PathsArePlaces(path: string, place: Place)
    ensures Parse(path) == Some(place) <==> Spell(place) == path
  {
    if place.Export? {
      FourIsInverse(place.ordinal);
      assert (EXPORTS + WriteFour(place.ordinal))[8..] == WriteFour(place.ordinal);
      assert (EXPORTS + WriteFour(place.ordinal))[..8] == EXPORTS;
      if Parse(path) == Some(place) && path != RESULT {
        DigitsCompare(path[8..], WriteFour(place.ordinal), "");
        assert path == path[..8] + path[8..];
      }
    }
  }

  /** Byte order on paths is the order of places. */
  lemma PathOrderIsPlaceOrder(a: Place, b: Place)
    ensures Less(Spell(a), Spell(b)) <==> Precedes(a, b)
  {
    if a.Export? && b.Export? {
      FourIsInverse(a.ordinal);
      FourIsInverse(b.ordinal);
      DigitsCompare(WriteFour(a.ordinal), WriteFour(b.ordinal), EXPORTS);
    } else if a.Export? {
      LessAt(Spell(a), Spell(b), 0);
    } else if b.Export? {
      LessAt(Spell(a), Spell(b), 0);
    } else {
      assert forall k :: 0 <= k < |RESULT| ==> !(RESULT[k] < RESULT[k]);
    }
  }

  lemma TextBounds(text: string, excluded: string, top: string)
    requires FourDigits(text) && FourDigits(excluded) && FourDigits(top)
    ensures text != excluded && !Less(top, text) <==>
              ReadFour(text) != ReadFour(excluded) && ReadFour(text) <= ReadFour(top)
  {
    assert "" + top == top && "" + text == text;
    DigitsCompare(top, text, "");
    DigitsCompare(excluded, text, "");
  }

  /** The textual bounds on an ordinal are numeric ones. */
  lemma OrdinalBounds(n: Ordinal)
    ensures WriteFour(n) != "0000" && !Less("4096", WriteFour(n)) <==> 1 <= n <= 4096
  {
    FourIsInverse(n);
    TextBounds(WriteFour(n), "0000", "4096");
  }

  function PlaceOf(path: string): Place
    requires ValidPath(path)
  {
    Parse(path).value
  }

  /** So comparing accepted paths byte by byte is comparing their places. */
  lemma TextOrder(a: string, b: string)
    requires ValidPath(a) && ValidPath(b)
    ensures Less(a, b) <==> Precedes(PlaceOf(a), PlaceOf(b))
    ensures PlaceOf(a) == PlaceOf(b) ==> a == b
  {
    PathsArePlaces(a, PlaceOf(a));
    PathsArePlaces(b, PlaceOf(b));
    PathOrderIsPlaceOrder(PlaceOf(a), PlaceOf(b));
  }

  /** The test of an ordinal as text. */
  predicate OrdinalTextFits(path: string)
    requires ValidPath(path) && path != RESULT
  {
    path[8..] != "0000" && !Less("4096", path[8..])
  }

  lemma OrdinalTextIsBounded(path: string)
    requires ValidPath(path) && path != RESULT
    ensures OrdinalTextFits(path) <==> 1 <= PlaceOf(path).ordinal <= 4096
  {
    PathsArePlaces(path, PlaceOf(path));
    OrdinalBounds(PlaceOf(path).ordinal);
    assert (EXPORTS + WriteFour(PlaceOf(path).ordinal))[8..] == WriteFour(PlaceOf(path).ordinal);
  }
}
