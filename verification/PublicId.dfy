/** Typed public IDs: a prefix and a ULID in lower-case Crockford base 32. */
module PublicId {
  predicate IsIdCharacter(c: char) {
    || '0' <= c <= '9' || 'a' <= c <= 'h' || 'j' <= c <= 'k' || 'm' <= c <= 'n'
    || 'p' <= c <= 't' || 'v' <= c <= 'z'
  }

  predicate ValidTypedId(value: string, prefix: string) {
    && |value| == |prefix| + 26 && value[..|prefix|] == prefix
    && '0' <= value[|prefix|] <= '7'
    && forall i :: |prefix| < i < |value| ==> IsIdCharacter(value[i])
  }

  // ---- What these characters are ----

  /** The 32 digits, in rows of eight: no i, l, o and u. */
  function IdRow(r: nat): (row: string)
    requires r < 4
    ensures |row| == 8
  {
    match r
    case 0 => "01234567"
    case 1 => "89abcdef"
    case 2 => "ghjkmnpq"
    case _ => "rstvwxyz"
  }

  function IdDigit(v: nat): char
    requires v < 32
  {
    IdRow(v / 8)[v % 8]
  }

  lemma RowsAreCharacters(r: nat, k: nat)
    requires r < 4 && k < 8
    ensures IsIdCharacter(IdRow(r)[k]) && (IdRow(r)[k] <= '7' <==> r == 0)
  {
  }

  /** The value of a digit. */
  lemma CharactersAreDigits(c: char) returns (v: nat)
    requires IsIdCharacter(c)
    ensures v < 32 && IdDigit(v) == c && (c <= '7' <==> v < 8)
  {
    v := if c <= '9' then c as int - '0' as int
         else if c <= 'h' then c as int - 'a' as int + 10
         else if c <= 'k' then c as int - 'j' as int + 18
         else if c <= 'n' then c as int - 'm' as int + 20
         else if c <= 't' then c as int - 'p' as int + 22
         else c as int - 'v' as int + 27;
  }

  /** A valid ID is the prefix and 26 digits of which the first is below eight. */
  lemma IdsAreDigits(value: string, prefix: string)
    ensures ValidTypedId(value, prefix) <==>
              && |value| == |prefix| + 26 && prefix <= value
              && (exists v: nat :: v < 8 && value[|prefix|] == IdDigit(v))
              && forall i :: |prefix| <= i < |value| ==> exists v: nat :: v < 32 && value[i] == IdDigit(v)
  {
    forall c: char ensures IsIdCharacter(c) <==> exists v: nat :: v < 32 && c == IdDigit(v) {
      if IsIdCharacter(c) { var v := CharactersAreDigits(c); }
      forall v: nat | v < 32 && c == IdDigit(v) ensures IsIdCharacter(c) { RowsAreCharacters(v / 8, v % 8); }
    }
    if |value| == |prefix| + 26 {
      var c := value[|prefix|];
      if '0' <= c <= '7' { var v := CharactersAreDigits(c); }
      forall v: nat | v < 8 && c == IdDigit(v) ensures '0' <= c <= '7' { RowsAreCharacters(0, v); }
    }
  }
}
