/**
 Base64url without padding (section 5 of RFC 4648), read strictly: no padding characters, no spare
 bits set. This is the `URL_SAFE_NO_PAD` engine that crates/api/src/signed_link.rs uses.
 */
module Base64Url {
  import opened Wrappers

  type Byte = n: int | 0 <= n < 256

  /** Six bits. */
  type Sextet = n: int | 0 <= n < 64

  /** The letter of the URL-safe alphabet: A-Z, a-z, 0-9, `-`, `_`. */
  function Symbol(n: Sextet): char {
    if n < 26 then ('A' as int + n) as char
    else if n < 52 then ('a' as int + n - 26) as char
    else if n < 62 then ('0' as int + n - 52) as char
    else if n == 62 then '-'
    else '_'
  }

  /** The sextet a character stands for, or 64. */
  function Code(c: char): (n: nat)
    ensures n <= 64
  {
    if 'A' <= c <= 'Z' then c as int - 'A' as int
    else if 'a' <= c <= 'z' then c as int - 'a' as int + 26
    else if '0' <= c <= '9' then c as int - '0' as int + 52
    else if c == '-' then 62
    else if c == '_' then 63
    else 64
  }

  lemma CodeOfSymbol(n: Sextet)
    ensures Code(Symbol(n)) == n
  {
  }

  lemma SymbolOfCode(c: char)
    requires Code(c) < 64
    ensures Symbol(Code(c)) == c
  {
  }

  const CAPITALS := "ABCDEFGHIJKLMNOPQRSTUVWXYZ"
  const SMALLS := "abcdefghijklmnopqrstuvwxyz"
  const REST := "0123456789-_"

  /** Table 2 of section 5 of RFC 4648. */
  lemma AlphabetExactly(n: Sextet)
    ensures Symbol(n) == if n < 26 then CAPITALS[n] else if n < 52 then SMALLS[n - 26] else REST[n - 52]
  {
  }

  function Encode(b: seq<Byte>): string {
    if |b| == 0 then ""
    else if |b| < 3 then EncodeTail(b)
    else EncodeGroup(b[0], b[1], b[2]) + Encode(b[3..])
  }

  function EncodeGroup(x: Byte, y: Byte, z: Byte): (s: string)
    ensures |s| == 4
  {
    [Symbol(x / 4), Symbol(x % 4 * 16 + y / 16), Symbol(y % 16 * 4 + z / 64), Symbol(z % 64)]
  }

  function EncodeTail(b: seq<Byte>): (s: string)
    requires 1 <= |b| <= 2
    ensures |s| == |b| + 1
  {
    if |b| == 1 then [Symbol(b[0] / 4), Symbol(b[0] % 4 * 16)]
    else [Symbol(b[0] / 4), Symbol(b[0] % 4 * 16 + b[1] / 16), Symbol(b[1] % 16 * 4)]
  }

  /**
   Three bytes and the four symbols they become are one number, highest digit first; one or two bytes
   become what they would with zero bytes behind them, without the symbols of those.
   */
  lemma GroupIsOneNumber(x: Byte, y: Byte, z: Byte)
    ensures var s := EncodeGroup(x, y, z);
            ((Code(s[0]) * 64 + Code(s[1])) * 64 + Code(s[2])) * 64 + Code(s[3]) == (x * 256 + y) * 256 + z
    ensures EncodeTail([x]) == EncodeGroup(x, 0, 0)[..2] && EncodeTail([x, y]) == EncodeGroup(x, y, 0)[..3]
  {
    hide Symbol, Code;
    CodeOfSymbol(x / 4);
    CodeOfSymbol(x % 4 * 16 + y / 16);
    CodeOfSymbol(y % 16 * 4 + z / 64);
    CodeOfSymbol(z % 64);
  }

  predicate Readable(s: string) {
    forall i :: 0 <= i < |s| ==> Code(s[i]) < 64
  }

  function Decode(s: string): Option<seq<Byte>> {
    if |s| == 0 then Some([])
    else if |s| == 1 then None
    else if |s| < 4 then DecodeTail(s)
    else if !Readable(s[..4]) then None
    else
      match Decode(s[4..])
      case None => None
      case Some(rest) => Some(DecodeGroup(Code(s[0]), Code(s[1]), Code(s[2]), Code(s[3])) + rest)
  }

  function DecodeGroup(a: nat, b: nat, c: nat, d: nat): (bytes: seq<Byte>)
    requires a < 64 && b < 64 && c < 64 && d < 64
    ensures |bytes| == 3
  {
    [a * 4 + b / 16, b % 16 * 16 + c / 4, c % 4 * 64 + d]
  }

  /** Two or three characters carry one or two bytes; the bits left over must be zero. */
  function DecodeTail(s: string): Option<seq<Byte>>
    requires 2 <= |s| <= 3
  {
    if !Readable(s) then None
    else
      var a, b := Code(s[0]), Code(s[1]);
      if |s| == 2 then
        if b % 16 != 0 then None else Some([a * 4 + b / 16])
      else
        var c := Code(s[2]);
        if c % 4 != 0 then None else Some([a * 4 + b / 16, b % 16 * 16 + c / 4])
  }

  /** Four sextets carry three bytes, and nothing is lost either way. */
  lemma GroupOfBytes(x: Byte, y: Byte, z: Byte)
    ensures DecodeGroup(x / 4, x % 4 * 16 + y / 16, y % 16 * 4 + z / 64, z % 64) == [x, y, z]
    ensures x / 4 * 4 + x % 4 * 16 / 16 == x && x % 4 * 16 % 16 == 0
    ensures x / 4 * 4 + (x % 4 * 16 + y / 16) / 16 == x
    ensures (x % 4 * 16 + y / 16) % 16 * 16 + y % 16 * 4 / 4 == y && y % 16 * 4 % 4 == 0
  {
    SplitByte(x, 4, 16, 0);
    SplitByte(y, 16, 4, 0);
    SplitByte(x, 4, 16, y / 16);
    SplitByte(y, 16, 4, z / 64);
  }

  /** High bits shifted in front of a small number come apart again. */
  lemma SplitByte(x: Byte, k: nat, m: nat, low: nat)
    requires (k == 4 && m == 16) || (k == 16 && m == 4)
    requires low < m
    ensures (x % k * m + low) / m == x % k && (x % k * m + low) % m == low
  {
  }

  lemma GroupOfSextets(a: Sextet, b: Sextet, c: Sextet, d: Sextet)
    ensures var g := DecodeGroup(a, b, c, d);
            && g[0] / 4 == a && g[0] % 4 * 16 + g[1] / 16 == b
            && g[1] % 16 * 4 + g[2] / 64 == c && g[2] % 64 == d
    ensures b % 16 == 0 ==> (a * 4 + b / 16) % 4 * 16 == b
    ensures c % 4 == 0 ==> (b % 16 * 16 + c / 4) % 16 * 4 == c
  {
  }

  lemma DecodeEncodedGroup(x: Byte, y: Byte, z: Byte)
    ensures var s := EncodeGroup(x, y, z);
            Readable(s) && DecodeGroup(Code(s[0]), Code(s[1]), Code(s[2]), Code(s[3])) == [x, y, z]
  {
    hide Symbol, Code, DecodeGroup;
    CodeOfSymbol(x / 4);
    CodeOfSymbol(x % 4 * 16 + y / 16);
    CodeOfSymbol(y % 16 * 4 + z / 64);
    CodeOfSymbol(z % 64);
    GroupOfBytes(x, y, z);
  }

  lemma EncodeDecodedGroup(s: string)
    requires |s| >= 4 && Readable(s[..4])
    ensures Code(s[0]) < 64 && Code(s[1]) < 64 && Code(s[2]) < 64 && Code(s[3]) < 64
    ensures var g := DecodeGroup(Code(s[0]), Code(s[1]), Code(s[2]), Code(s[3]));
            EncodeGroup(g[0], g[1], g[2]) == s[..4]
  {
    hide Symbol, Code, DecodeGroup;
    assert s[..4] == [s[0], s[1], s[2], s[3]];
    assert s[..4][0] == s[0] && s[..4][1] == s[1] && s[..4][2] == s[2] && s[..4][3] == s[3];
    GroupOfSextets(Code(s[0]), Code(s[1]), Code(s[2]), Code(s[3]));
    SymbolsOf(s[..4]);
  }

  lemma SymbolsOf(s: string)
    requires Readable(s)
    ensures forall i :: 0 <= i < |s| ==> Symbol(Code(s[i])) == s[i]
  {
    hide Symbol, Code;
    forall i | 0 <= i < |s|
      ensures Symbol(Code(s[i])) == s[i]
    {
      SymbolOfCode(s[i]);
    }
  }

  /** Decoding gives back exactly the bytes that were encoded. */
  lemma {:induction false} DecodeOfEncode(b: seq<Byte>)
    ensures Decode(Encode(b)) == Some(b)
  {
    hide Symbol, Code, EncodeGroup, EncodeTail, DecodeTail, DecodeGroup, Readable;
    if |b| >= 3 {
      DecodeOfEncode(b[3..]);
      DecodeEncodedGroup(b[0], b[1], b[2]);
      var s := EncodeGroup(b[0], b[1], b[2]);
      assert Encode(b)[..4] == s && Encode(b)[4..] == Encode(b[3..]);
      assert b == [b[0], b[1], b[2]] + b[3..];
    } else if |b| > 0 {
      DecodeOfShort(b);
    }
  }

  lemma DecodeOfShort(b: seq<Byte>)
    requires 1 <= |b| <= 2
    ensures DecodeTail(EncodeTail(b)) == Some(b)
  {
    hide Symbol, Code, DecodeTail;
    if |b| == 1 {
      TailOfOne(b[0]);
      assert b == [b[0]];
    } else {
      TailOfTwo(b[0], b[1]);
      assert b == [b[0], b[1]];
    }
  }

  lemma TailOfOne(x: Byte)
    ensures DecodeTail([Symbol(x / 4), Symbol(x % 4 * 16)]) == Some([x])
  {
    hide Symbol, Code;
    GroupOfBytes(x, 0, 0);
    CodeOfSymbol(x / 4);
    CodeOfSymbol(x % 4 * 16);
  }

  lemma TailOfTwo(x: Byte, y: Byte)
    ensures DecodeTail([Symbol(x / 4), Symbol(x % 4 * 16 + y / 16), Symbol(y % 16 * 4)]) == Some([x, y])
  {
    hide Symbol, Code;
    GroupOfBytes(x, y, 0);
    CodeOfSymbol(x / 4);
    CodeOfSymbol(x % 4 * 16 + y / 16);
    CodeOfSymbol(y % 16 * 4);
  }

  lemma EncodeCons(group: seq<Byte>, rest: seq<Byte>)
    requires |group| == 3
    ensures Encode(group + rest) == EncodeGroup(group[0], group[1], group[2]) + Encode(rest)
  {
    hide EncodeGroup;
    assert (group + rest)[3..] == rest;
  }

  /** Only the encoder's own text decodes: no second spelling of the same bytes is accepted. */
  lemma {:induction false} EncodeOfDecode(s: string)
    requires Decode(s).Some?
    ensures Encode(Decode(s).value) == s
  {
    hide Symbol, Code, Encode, EncodeGroup, DecodeGroup, DecodeTail, Readable;
    if |s| >= 4 {
      EncodeOfDecode(s[4..]);
      EncodeDecodedGroup(s);
      EncodeCons(DecodeGroup(Code(s[0]), Code(s[1]), Code(s[2]), Code(s[3])), Decode(s[4..]).value);
      assert s == s[..4] + s[4..];
    } else if |s| >= 2 {
      EncodeOfTail(s);
    } else {
      EncodeOfNothing();
    }
  }

  lemma EncodeOfNothing()
    ensures Encode([]) == ""
  {
  }

  lemma EncodeOfTail(s: string)
    requires 2 <= |s| <= 3 && DecodeTail(s).Some?
    ensures Encode(DecodeTail(s).value) == s
  {
    hide Symbol, Code;
    SymbolsOf(s);
    GroupOfSextets(Code(s[0]), Code(s[1]), if |s| == 3 then Code(s[2]) else 0, 0);
  }
}
