/** The canonical syntax of a service API key: a typed credential ID, a dot, and an unpadded
    base64url secret (sections 3.5 and 5 of RFC 4648) of exactly 32 bytes. */
module ServiceKey {
  import opened Basics
  import opened PublicId

  type Sextet = x: int | 0 <= x < 64

  function Symbol(v: Sextet): char {
    if v < 26 then 'A' + v as char
    else if v < 52 then 'a' + (v - 26) as char
    else if v < 62 then '0' + (v - 52) as char
    else if v == 62 then '-'
    else '_'
  }

  /** Table 2 of RFC 4648, in rows of eight. */
  function Row(r: nat): (row: string)
    requires r < 8
    ensures |row| == 8
  {
    match r
    case 0 => "ABCDEFGH"
    case 1 => "IJKLMNOP"
    case 2 => "QRSTUVWX"
    case 3 => "YZabcdef"
    case 4 => "ghijklmn"
    case 5 => "opqrstuv"
    case 6 => "wxyz0123"
    case _ => "456789-_"
  }

  lemma SymbolsAreTheTable(r: nat, c: nat)
    requires r < 8 && c < 8
    ensures Symbol(8 * r + c) == Row(r)[c]
  {
  }

  predicate IsSymbol(c: char) {
    'A' <= c <= 'Z' || 'a' <= c <= 'z' || '0' <= c <= '9' || c == '-' || c == '_'
  }

  function SymbolValue(c: char): Sextet
    requires IsSymbol(c)
  {
    if 'A' <= c <= 'Z' then c as int - 'A' as int
    else if 'a' <= c <= 'z' then c as int - 'a' as int + 26
    else if '0' <= c <= '9' then c as int - '0' as int + 52
    else if c == '-' then 62
    else 63
  }

  lemma SymbolsAreInverse(v: Sextet, c: char)
    ensures IsSymbol(Symbol(v)) && SymbolValue(Symbol(v)) == v
    ensures IsSymbol(c) ==> Symbol(SymbolValue(c)) == c
  {
  }

  function Spell(v: seq<Sextet>): string {
    seq(|v|, i requires 0 <= i < |v| => Symbol(v[i]))
  }

  predicate AllSymbols(s: string) {
    forall i :: 0 <= i < |s| ==> IsSymbol(s[i])
  }

  function Values(s: string): seq<Sextet>
    requires AllSymbols(s)
  {
    seq(|s|, i requires 0 <= i < |s| => SymbolValue(s[i]))
  }

  lemma SpellingIsInverse(v: seq<Sextet>, s: string)
    ensures AllSymbols(Spell(v)) && Values(Spell(v)) == v
    ensures AllSymbols(s) ==> Spell(Values(s)) == s
  {
    forall i | 0 <= i < |v| ensures IsSymbol(Spell(v)[i]) && SymbolValue(Spell(v)[i]) == v[i] {
      SymbolsAreInverse(v[i], '-');
    }
    if AllSymbols(s) {
      forall i | 0 <= i < |s| ensures Spell(Values(s))[i] == s[i] {
        SymbolsAreInverse(0, s[i]);
      }
    }
  }

  // ---- Bits ----

  function Two(n: nat): nat {
    if n == 0 then 1 else 2 * Two(n - 1)
  }

  /** The low `n` bits of a number, most significant first. */
  function Bits(v: nat, n: nat): (bits: seq<bool>)
    ensures |bits| == n
  {
    if n == 0 then [] else Bits(v / 2, n - 1) + [v % 2 == 1]
  }

  function Number(bits: seq<bool>): (v: nat)
    ensures v < Two(|bits|)
  {
    if |bits| == 0 then 0
    else 2 * Number(bits[..|bits| - 1]) + if bits[|bits| - 1] then 1 else 0
  }

  lemma {:induction false} NumberOfBits(v: nat, n: nat)
    requires v < Two(n)
    ensures Number(Bits(v, n)) == v
  {
    if n > 0 {
      NumberOfBits(v / 2, n - 1);
      assert Bits(v, n)[..n - 1] == Bits(v / 2, n - 1);
    }
  }

  lemma {:induction false} BitsOfNumber(bits: seq<bool>)
    ensures Bits(Number(bits), |bits|) == bits
  {
    if |bits| > 0 {
      BitsOfNumber(bits[..|bits| - 1]);
      assert bits == bits[..|bits| - 1] + [bits[|bits| - 1]];
    }
  }

  function Zeros(n: nat): seq<bool> {
    seq(n, _ => false)
  }

  function Eight(bits: seq<bool>): Byte
    requires |bits| == 8
  {
    assert Two(8) == 256;
    Number(bits)
  }

  function Six(bits: seq<bool>): Sextet
    requires |bits| == 6
  {
    assert Two(6) == 64;
    Number(bits)
  }

  function FromBytes(b: seq<Byte>): (bits: seq<bool>)
    ensures |bits| == 8 * |b|
  {
    if b == [] then [] else Bits(b[0], 8) + FromBytes(b[1..])
  }

  function FromSextets(v: seq<Sextet>): (bits: seq<bool>)
    ensures |bits| == 6 * |v|
  {
    if v == [] then [] else Bits(v[0], 6) + FromSextets(v[1..])
  }

  /** Cut into sextets, the last one filled up with zero bits. */
  function ToSextets(bits: seq<bool>): seq<Sextet> {
    if bits == [] then []
    else if |bits| < 6 then [Six(bits + Zeros(6 - |bits|))]
    else [Six(bits[..6])] + ToSextets(bits[6..])
  }

  /** Cut into bytes, dropping what is left over. */
  function ToBytes(bits: seq<bool>): seq<Byte> {
    if |bits| < 8 then [] else [Eight(bits[..8])] + ToBytes(bits[8..])
  }

  lemma {:induction false} BytesOfBits(b: seq<Byte>, rest: seq<bool>)
    requires |rest| < 8
    ensures ToBytes(FromBytes(b) + rest) == b
  {
    if b != [] {
      assert Two(8) == 256;
      NumberOfBits(b[0], 8);
      BytesOfBits(b[1..], rest);
      var bits := FromBytes(b) + rest;
      assert bits[..8] == Bits(b[0], 8) && bits[8..] == FromBytes(b[1..]) + rest;
    }
  }

  lemma SliceOfRest(bits: seq<bool>, n: nat)
    requires 8 <= n <= |bits|
    ensures bits[..n] == bits[..8] + bits[8..][..n - 8]
  {
  }

  lemma {:induction false} BitsOfBytes(bits: seq<bool>)
    ensures FromBytes(ToBytes(bits)) == bits[..8 * (|bits| / 8)]
  {
    if |bits| >= 8 {
      var rest, n := bits[8..], |bits| / 8;
      BitsOfNumber(bits[..8]);
      BitsOfBytes(rest);
      assert |rest| / 8 == n - 1;
      assert ToBytes(bits)[1..] == ToBytes(rest);
      SliceOfRest(bits, 8 * n);
    }
  }

  /** Cutting undoes joining, also when fewer than six zero bits are missing at the end. */
  lemma {:induction false} SextetsOfBits(v: seq<Sextet>, bits: seq<bool>, missing: nat)
    requires missing < 6 && bits + Zeros(missing) == FromSextets(v)
    ensures ToSextets(bits) == v
  {
    if |v| == 0 {
      assert |bits + Zeros(missing)| == 0;
    } else {
      assert Two(6) == 64;
      NumberOfBits(v[0], 6);
      var all := FromSextets(v);
      assert all[..6] == Bits(v[0], 6) && all[6..] == FromSextets(v[1..]);
      assert |bits| + missing == 6 * |v|;
      if |v| == 1 {
        assert all == Bits(v[0], 6);
        if missing == 0 {
          assert bits == all && bits[..6] == all && bits[6..] == [];
        }
      } else {
        assert bits[..6] == all[..6];
        assert bits[6..] + Zeros(missing) == all[6..];
        SextetsOfBits(v[1..], bits[6..], missing);
      }
    }
  }

  lemma {:induction false} BitsOfSextets(bits: seq<bool>)
    ensures FromSextets(ToSextets(bits)) == bits + Zeros(Missing(|bits|, 6))
  {
    if 0 < |bits| < 6 {
      BitsOfNumber(bits + Zeros(6 - |bits|));
    } else if |bits| >= 6 {
      BitsOfNumber(bits[..6]);
      BitsOfSextets(bits[6..]);
      assert ToSextets(bits)[1..] == ToSextets(bits[6..]);
      assert Missing(|bits|, 6) == Missing(|bits| - 6, 6);
      assert bits + Zeros(Missing(|bits|, 6)) == bits[..6] + (bits[6..] + Zeros(Missing(|bits[6..]|, 6)));
    }
  }

  function Missing(n: nat, group: nat): nat
    requires group > 0
  {
    if n % group == 0 then 0 else group - n % group
  }

  // ---- Bits as numbers ----

  /** Digits of `width` bits each, most significant first. */
  function Big(width: nat, digits: seq<int>): int {
    if digits == [] then 0 else digits[0] * Two(width * (|digits| - 1)) + Big(width, digits[1..])
  }

  lemma {:induction false} TwoAdds(m: nat, n: nat)
    ensures Two(m + n) == Two(m) * Two(n)
  {
    if n > 0 {
      TwoAdds(m, n - 1);
      assert Two(m) * Two(n) == 2 * (Two(m) * Two(n - 1));
    }
  }

  lemma Doubles(a: int, b: int)
    ensures a * (2 * b) == 2 * (a * b)
  {
  }

  lemma {:induction false} NumberJoins(x: seq<bool>, y: seq<bool>)
    ensures Number(x + y) == Number(x) * Two(|y|) + Number(y)
    decreases |y|
  {
    if y == [] {
      assert x + y == x;
    } else {
      var front, bit := y[..|y| - 1], if y[|y| - 1] then 1 else 0;
      assert (x + y)[..|x + y| - 1] == x + front;
      NumberJoins(x, front);
      calc {
        Number(x + y);
        2 * Number(x + front) + bit;
        2 * (Number(x) * Two(|front|)) + Number(y);
        { Doubles(Number(x), Two(|front|)); }
        Number(x) * Two(|y|) + Number(y);
      }
    }
  }

  lemma {:induction false} NumberOfZeros(n: nat)
    ensures Number(Zeros(n)) == 0
  {
    if n > 0 {
      assert Zeros(n)[..n - 1] == Zeros(n - 1);
      NumberOfZeros(n - 1);
    }
  }

  lemma {:induction false} NumberOfBytes(b: seq<Byte>)
    ensures Number(FromBytes(b)) == Big(8, b)
  {
    if b != [] {
      assert Two(8) == 256;
      NumberOfBits(b[0], 8);
      NumberJoins(Bits(b[0], 8), FromBytes(b[1..]));
      NumberOfBytes(b[1..]);
    }
  }

  lemma {:induction false} NumberOfSextets(v: seq<Sextet>)
    ensures Number(FromSextets(v)) == Big(6, v)
  {
    if v != [] {
      assert Two(6) == 64;
      NumberOfBits(v[0], 6);
      NumberJoins(Bits(v[0], 6), FromSextets(v[1..]));
      NumberOfSextets(v[1..]);
    }
  }

  /** The sextets of a byte string, read as one number, are its bytes read as one number and shifted by the
      bits that were filled up. */
  lemma {:induction false} SextetsAreTheNumber(b: seq<Byte>)
    ensures Big(6, ToSextets(FromBytes(b))) == Big(8, b) * Two(Missing(8 * |b|, 6))
  {
    var bits, missing := FromBytes(b), Missing(8 * |b|, 6);
    BitsOfSextets(bits);
    NumberOfSextets(ToSextets(bits));
    NumberJoins(bits, Zeros(missing));
    NumberOfZeros(missing);
    NumberOfBytes(b);
  }

  /** So three bytes are four sextets of the same 24-bit number. */
  lemma ThreeBytesAreFourSextets(a: Byte, b: Byte, c: Byte)
    ensures var v := ToSextets(FromBytes([a, b, c]));
            |v| == 4 && 262144 * v[0] as int + 4096 * v[1] as int + 64 * v[2] as int + v[3] as int
                        == 65536 * a as int + 256 * b as int + c as int
  {
    var bytes := [a, b, c];
    var v := ToSextets(FromBytes(bytes));
    SextetCount(FromBytes(bytes));
    SextetsAreTheNumber(bytes);
    BigOfThree(bytes);
    BigOfFour(v);
  }

  lemma BigOfThree(b: seq<int>)
    requires |b| == 3
    ensures Big(8, b) == 65536 * b[0] + 256 * b[1] + b[2]
  {
    TwoAdds(8, 8);
    assert Two(8) == 256;
    assert b[1..][1..] == [b[2]] && Big(8, [b[2]]) == b[2];
    assert Big(8, b[1..]) == 256 * b[1] + b[2];
  }

  lemma BigOfFour(v: seq<int>)
    requires |v| == 4
    ensures Big(6, v) == 262144 * v[0] + 4096 * v[1] + 64 * v[2] + v[3]
  {
    TwoAdds(6, 6);
    TwoAdds(12, 6);
    assert Two(6) == 64;
    var w := v[1..];
    assert w[1..][1..] == [v[3]] && Big(6, [v[3]]) == v[3];
    assert Big(6, w[1..]) == 64 * v[2] + v[3];
    assert Big(6, w) == 4096 * v[1] + 64 * v[2] + v[3];
  }

  // ---- The encoding ----

  function Encode(b: seq<Byte>): string {
    Spell(ToSextets(FromBytes(b)))
  }

  /** A single leftover symbol cannot occur. `strict` also rejects set bits in the last symbol that
      no byte uses; a lenient decoder ignores them. */
  function DecodeSextets(v: seq<Sextet>, strict: bool): Option<seq<Byte>> {
    var bits := FromSextets(v);
    var used := 8 * (|bits| / 8);
    if |v| % 4 == 1 || (strict && bits[used..] != Zeros(|bits| - used)) then None else Some(ToBytes(bits))
  }

  function Decode(s: string, strict: bool): Option<seq<Byte>> {
    if AllSymbols(s) then DecodeSextets(Values(s), strict) else None
  }

  lemma {:induction false} SextetCount(bits: seq<bool>)
    ensures |ToSextets(bits)| == (|bits| + Missing(|bits|, 6)) / 6
  {
    BitsOfSextets(bits);
  }

  lemma MissingAfter(m: nat, r: nat)
    requires r < 6
    ensures Missing(6 * m + r, 6) == if r == 0 then 0 else 6 - r
  {
    assert (6 * m + r) % 6 == r;
  }

  lemma ByteCounts(n: nat)
    ensures Missing(8 * n, 6) < 6 && (8 * n + Missing(8 * n, 6)) / 8 == n
    ensures (8 * n + Missing(8 * n, 6)) / 6 % 4 != 1
  {
    var q := n / 3;
    if n % 3 == 0 {
      MissingAfter(4 * q, 0);
    } else if n % 3 == 1 {
      MissingAfter(4 * q + 1, 2);
    } else {
      MissingAfter(4 * q + 2, 4);
    }
  }

  lemma SextetCounts(k: nat)
    requires k % 4 != 1
    ensures 0 <= 6 * k - 8 * (6 * k / 8) == Missing(8 * (6 * k / 8), 6) < 6
  {
    var q := k / 4;
    if k % 4 == 0 {
      assert 6 * k / 8 == 3 * q;
      MissingAfter(4 * q, 0);
    } else if k % 4 == 2 {
      assert 6 * k / 8 == 3 * q + 1;
      MissingAfter(4 * q + 1, 2);
    } else {
      assert 6 * k / 8 == 3 * q + 2;
      MissingAfter(4 * q + 2, 4);
    }
  }

  /** Decoding undoes encoding, for byte strings of any length and either decoder. */
  lemma {:induction false} DecodeUndoesEncode(b: seq<Byte>, strict: bool)
    ensures Decode(Encode(b), strict) == Some(b)
  {
    SpellingIsInverse(ToSextets(FromBytes(b)), []);
    DecodeUndoesCutting(b, strict);
  }

  lemma {:induction false} DecodeUndoesCutting(b: seq<Byte>, strict: bool)
    ensures DecodeSextets(ToSextets(FromBytes(b)), strict) == Some(b)
  {
    var bits := FromBytes(b);
    ByteCounts(|b|);
    BitsOfSextets(bits);
    SextetCount(bits);
    BytesOfBits(b, Zeros(Missing(|bits|, 6)));
    var all := bits + Zeros(Missing(|bits|, 6));
    assert all[|bits|..] == Zeros(|all| - |bits|);
  }

  /** Cutting again gives the same sextets exactly when no unused bit was set. */
  lemma {:induction false} CuttingUndoesDecode(v: seq<Sextet>)
    requires |v| % 4 != 1
    ensures DecodeSextets(v, true).Some? <==> ToSextets(FromBytes(DecodeSextets(v, false).value)) == v
  {
    var bits := FromSextets(v);
    var used := 8 * (|bits| / 8);
    SextetCounts(|v|);
    BitsOfBytes(bits);
    if bits[used..] == Zeros(|bits| - used) {
      assert bits == bits[..used] + Zeros(|bits| - used);
      SextetsOfBits(v, bits[..used], |bits| - used);
    } else {
      BitsOfSextets(bits[..used]);
      assert (bits[..used] + Zeros(|bits| - used))[used..] == Zeros(|bits| - used);
    }
  }

  /** Encoding undoes decoding exactly where the strict decoder accepts. */
  lemma {:induction false} EncodeUndoesDecode(s: string)
    ensures Decode(s, true).Some? <==> Decode(s, false).Some? && Encode(Decode(s, false).value) == s
    ensures Decode(s, true).Some? ==> Decode(s, false) == Decode(s, true)
  {
    if Decode(s, false).Some? {
      CuttingUndoesDecode(Values(s));
      SpellingIsInverse(ToSextets(FromBytes(Decode(s, false).value)), s);
    }
  }

  // ---- The key ----

  predicate ValidSecret(secret: string, strict: bool) {
    && |secret| == 43
    && var decoded := Decode(secret, strict);
       decoded.Some? && |decoded.value| == 32 && Encode(decoded.value) == secret
  }

  /** Accepted secrets are exactly the encodings of 32-byte values, each of one value only, and it
      does not matter which kind of decoder is underneath. */
  lemma {:induction false} SecretsAreThirtyTwoBytes(secret: string, strict: bool)
    ensures ValidSecret(secret, strict) <==> exists b: seq<Byte> :: |b| == 32 && Encode(b) == secret
    ensures forall b: seq<Byte>, c: seq<Byte> :: Encode(b) == Encode(c) ==> b == c
  {
    forall b: seq<Byte> | |b| == 32 && Encode(b) == secret ensures ValidSecret(secret, strict) {
      DecodeUndoesEncode(b, strict);
      SextetCount(FromBytes(b));
    }
    forall b: seq<Byte>, c: seq<Byte> | Encode(b) == Encode(c) ensures b == c {
      DecodeUndoesEncode(b, true);
      DecodeUndoesEncode(c, true);
    }
  }

  predicate IsWhitespace(c: char) {
    var n := c as int;
    9 <= n <= 13 || n == 32 || n == 0x85 || n == 0xA0 || n == 0x1680 || 0x2000 <= n <= 0x200A
    || n == 0x2028 || n == 0x2029 || n == 0x202F || n == 0x205F || n == 0x3000
  }

  predicate IsTrimmed(value: string) {
    value == [] || (!IsWhitespace(value[0]) && !IsWhitespace(value[|value| - 1]))
  }

  /** The position of the first dot. */
  function FirstDot(value: string): (k: Option<nat>)
    ensures k.Some? ==> k.value < |value| && value[k.value] == '.' && forall i :: 0 <= i < k.value ==> value[i] != '.'
    ensures k.None? ==> '.' !in value
  {
    if value == [] then None
    else if value[0] == '.' then Some(0)
    else
      var rest := FirstDot(value[1..]);
      if rest.None? then None else Some(rest.value + 1)
  }

  predicate ValidApiKey(value: string, strict: bool) {
    && IsTrimmed(value)
    && var dot := FirstDot(value);
       && dot.Some?
       && var id, secret := value[..dot.value], value[dot.value + 1..];
          '.' !in secret && ValidTypedId(id, "crd_") && ValidSecret(secret, strict)
  }

  lemma {:induction false} SplitKey(value: string, strict: bool) returns (id: string, b: seq<Byte>)
    requires ValidApiKey(value, strict)
    ensures ValidTypedId(id, "crd_") && |b| == 32 && value == id + "." + Encode(b)
  {
    var dot := FirstDot(value).value;
    var secret := value[dot + 1..];
    assert value == value[..dot] + "." + secret;
    assert ValidSecret(secret, strict);
    id, b := value[..dot], Decode(secret, strict).value;
    assert Encode(b) == secret;
  }

  /** A key is a `crd_` ID, a dot and the encoding of a 32-byte value, and nothing else is a key. */
  lemma {:induction false} KeysAreIdAndSecret(value: string, strict: bool)
    ensures ValidApiKey(value, strict) <==>
              exists id: string, b: seq<Byte> :: ValidTypedId(id, "crd_") && |b| == 32 && value == id + "." + Encode(b)
  {
    if ValidApiKey(value, strict) {
      var id, b := SplitKey(value, strict);
    }
    forall id: string, b: seq<Byte> | ValidTypedId(id, "crd_") && |b| == 32 && value == id + "." + Encode(b)
      ensures ValidApiKey(value, strict)
    {
      JoinedKeyIsValid(id, b, strict);
    }
  }

  lemma {:induction false} JoinedKeyIsValid(id: string, b: seq<Byte>, strict: bool)
    requires ValidTypedId(id, "crd_") && |b| == 32
    ensures ValidApiKey(id + "." + Encode(b), strict)
  {
    var value := id + "." + Encode(b);
    SpellingIsInverse(ToSextets(FromBytes(b)), []);
    SextetCount(FromBytes(b));
    SecretsAreThirtyTwoBytes(Encode(b), strict);
    assert value[30] == '.';
    assert '.' !in Encode(b);
    forall i | 0 <= i < 30 ensures value[i] != '.' {
      assert value[i] == id[i];
      if i < 4 { assert id[..4][i] == "crd_"[i]; }
    }
    assert FirstDot(value) == Some(30);
    assert value[..30] == id && value[31..] == Encode(b);
    assert id[..4][0] == 'c' && value[0] == id[0];
    assert value[|value| - 1] == Encode(b)[42];
  }

  lemma KeyLength(value: string, strict: bool)
    requires ValidApiKey(value, strict)
    ensures |value| == 74 && !IsWhitespace(value[73])
  {
  }
}
