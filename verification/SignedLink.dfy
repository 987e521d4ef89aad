/**
 Signed view links (crates/api/src/signed_link.rs): `base64url(id ":" expiry ":" hex(mac))`.

 Strings are byte sequences in UTF-8, as Rust's `str` is. The keyed digest is a parameter: nothing
 is assumed of it.
 */
module SignedLink {
  import opened Wrappers
  import opened Text
  import opened Base64Url
  import opened Utf8

  type Bytes = seq<Byte>

  /** HMAC-SHA256 of a key and a message. */
  type Mac = (Bytes, Bytes) -> Bytes

  const COLON: Byte := 0x3A

  const MAX_U64: nat := 0xFFFF_FFFF_FFFF_FFFF

  datatype Verified = Verified(id: Bytes, expiry: nat)

  datatype VerifyError = NotBase64 | BadPayload | Expired | Mismatch

  // ---------------------------------------------------------------------------
  // Hex and comparison
  // ---------------------------------------------------------------------------

  function HexDigit(n: int): (c: Byte)
    requires 0 <= n < 16
    ensures c < 0x80 && c != COLON
  {
    if n < 10 then '0' as int + n else 'a' as int + n - 10
  }

  function Hex(digest: Bytes): Bytes {
    if digest == [] then []
    else
      var n := |digest| - 1;
      Hex(digest[..n]) + [HexDigit(digest[n] / 16), HexDigit(digest[n] % 16)]
  }

  /** `hex_lower` */
  method HexLower(digest: Bytes) returns (text: Bytes)
    ensures text == Hex(digest)
  {
    text := [];
    for i := 0 to |digest|
      invariant text == Hex(digest[..i])
    {
      var b := digest[i];
      assert digest[..i + 1][..i] == digest[..i];
      text := text + [HexDigit(b / 16)];
      text := text + [HexDigit(b % 16)];
    }
    assert digest[..|digest|] == digest;
  }

  lemma {:induction false} HexIsPlain(digest: Bytes)
    ensures |Hex(digest)| == 2 * |digest|
    ensures COLON !in Hex(digest) && WellFormed(Hex(digest))
    ensures forall i :: 0 <= i < |Hex(digest)| ==> Hex(digest)[i] < 0x80
  {
    if digest != [] {
      HexIsPlain(digest[..|digest| - 1]);
    }
    AsciiIsWellFormed(Hex(digest));
  }

  const HEX := "0123456789abcdef"

  lemma HexDigitExactly(n: int)
    requires 0 <= n < 16
    ensures HexDigit(n) == HEX[n] as int
  {
  }

  /** Two lowercase digits a byte, the high one first. */
  lemma {:induction false} HexExactly(digest: Bytes, i: nat)
    requires i < |digest|
    ensures |Hex(digest)| == 2 * |digest|
    ensures Hex(digest)[2 * i] == HEX[digest[i] / 16] as int
    ensures Hex(digest)[2 * i + 1] == HEX[digest[i] % 16] as int
  {
    hide HexDigit;
    HexIsPlain(digest);
    HexIsPlain(digest[..|digest| - 1]);
    HexDigitExactly(digest[i] / 16);
    HexDigitExactly(digest[i] % 16);
    if i < |digest| - 1 {
      HexExactly(digest[..|digest| - 1], i);
    }
  }

  lemma HexDigitInjective(m: int, n: int)
    requires 0 <= m < 16 && 0 <= n < 16 && HexDigit(m) == HexDigit(n)
    ensures m == n
  {
  }

  lemma HexLast(a: Bytes)
    requires a != []
    ensures var n, x := |a| - 1, Hex(a);
            && |x| == 2 * n + 2 && x[..2 * n] == Hex(a[..n])
            && x[2 * n] == HexDigit(a[n] / 16) && x[2 * n + 1] == HexDigit(a[n] % 16)
  {
    HexIsPlain(a);
    HexIsPlain(a[..|a| - 1]);
  }

  /** Two digests with the same text are the same digest. */
  lemma {:induction false} HexInjective(a: Bytes, b: Bytes)
    requires Hex(a) == Hex(b)
    ensures a == b
  {
    hide Hex, HexDigit, WellFormed;
    HexIsPlain(a);
    HexIsPlain(b);
    if a != [] {
      var n := |a| - 1;
      HexLast(a);
      HexLast(b);
      HexInjective(a[..n], b[..n]);
      HexDigitInjective(a[n] / 16, b[n] / 16);
      HexDigitInjective(a[n] % 16, b[n] % 16);
      assert a[n] == b[n];
      assert a == a[..n] + [a[n]] && b == b[..n] + [b[n]];
    }
  }

  function Pow2(w: nat): nat {
    if w == 0 then 1 else 2 * Pow2(w - 1)
  }

  /** `x ^ y` on the low `w` bits. */
  function Xor(w: nat, x: nat, y: nat): (z: nat)
    ensures z < Pow2(w)
  {
    if w == 0 then 0 else 2 * Xor(w - 1, x / 2, y / 2) + (if x % 2 == y % 2 then 0 else 1)
  }

  /** `x | y` on the low `w` bits. */
  function Or(w: nat, x: nat, y: nat): (z: nat)
    ensures z < Pow2(w)
  {
    if w == 0 then 0 else 2 * Or(w - 1, x / 2, y / 2) + (if x % 2 == 0 && y % 2 == 0 then 0 else 1)
  }

  lemma {:induction false} XorIsZero(w: nat, x: nat, y: nat)
    requires x < Pow2(w) && y < Pow2(w)
    ensures Xor(w, x, y) == 0 <==> x == y
  {
    if w > 0 {
      XorIsZero(w - 1, x / 2, y / 2);
    }
  }

  lemma {:induction false} OrIsZero(w: nat, x: nat, y: nat)
    requires x < Pow2(w) && y < Pow2(w)
    ensures Or(w, x, y) == 0 <==> x == 0 && y == 0
  {
    if w > 0 {
      OrIsZero(w - 1, x / 2, y / 2);
    }
  }

  lemma EightBits()
    ensures Pow2(8) == 256
  {
    assert Pow2(4) == 16;
  }

  /** `constant_time_eq`: every byte is looked at, and the differences are gathered with OR. */
  method ConstantTimeEq(a: Bytes, b: Bytes) returns (equal: bool)
    ensures equal == (a == b)
  {
    hide Xor, Or, Pow2;
    EightBits();
    if |a| != |b| {
      return false;
    }
    var diff: Byte := 0;
    for i := 0 to |a|
      invariant diff == 0 <==> a[..i] == b[..i]
    {
      XorIsZero(8, a[i], b[i]);
      OrIsZero(8, diff, Xor(8, a[i], b[i]));
      assert a[..i + 1] == a[..i] + [a[i]] && b[..i + 1] == b[..i] + [b[i]];
      diff := Or(8, diff, Xor(8, a[i], b[i]));
    }
    assert a[..|a|] == a && b[..|b|] == b;
    return diff == 0;
  }

  // ---------------------------------------------------------------------------
  // Signing and verifying
  // ---------------------------------------------------------------------------

  /** The bytes of a text of ASCII characters, and back; a byte past ASCII reads as no digit. */
  function Ascii(s: string): Bytes {
    seq(|s|, i requires 0 <= i < |s| => if s[i] as int < 0x80 then s[i] as int else 0)
  }

  function Chars(s: Bytes): string {
    seq(|s|, i requires 0 <= i < |s| => s[i] as char)
  }

  function Payload(id: Bytes, expiryText: Bytes): Bytes {
    id + [COLON] + expiryText
  }

  function Token(mac: Mac, payload: Bytes, key: Bytes): string {
    Encode(payload + [COLON] + Hex(mac(key, payload)))
  }

  /** `sign`; the sum of now and ttl is a `u64`. */
  function Sign(mac: Mac, id: Bytes, ttl: nat, key: Bytes, now: nat): string
    requires now + ttl <= MAX_U64
  {
    Token(mac, Payload(id, Ascii(Dec(now + ttl))), key)
  }

  function VerifyPayload(payload: Bytes, now: nat): Result<Verified, VerifyError> {
    match SplitOnce(payload, COLON)
    case None => Failure(BadPayload)
    case Some((id, expiryText)) =>
      match ParseUnsigned(Chars(expiryText), MAX_U64)
      case None => Failure(BadPayload)
      case Some(expiry) => if expiry <= now then Failure(Expired) else Success(Verified(id, expiry))
  }

  /** `verify_at` */
  function VerifyAt(mac: Mac, token: string, key: Bytes, now: nat): Result<Verified, VerifyError> {
    match Decode(token)
    case None => Failure(NotBase64)
    case Some(raw) =>
      if !WellFormed(raw) then Failure(BadPayload)
      else
        match RSplitOnce(raw, COLON)
        case None => Failure(BadPayload)
        case Some((payload, sig)) =>
          if sig != Hex(mac(key, payload)) then Failure(Mismatch)
          else VerifyPayload(payload, now)
  }

  /** `verify_at` as it runs: the signature is rebuilt with `hex_lower` and compared in constant time. */
  method Verify(mac: Mac, token: string, key: Bytes, now: nat) returns (r: Result<Verified, VerifyError>)
    ensures r == VerifyAt(mac, token, key, now)
  {
    var raw := Decode(token);
    if raw.None? {
      return Failure(NotBase64);
    }
    if !WellFormed(raw.value) {
      return Failure(BadPayload);
    }
    var parts := RSplitOnce(raw.value, COLON);
    if parts.None? {
      return Failure(BadPayload);
    }
    var (payload, sig) := parts.value;
    var expected := HexLower(mac(key, payload));
    var same := ConstantTimeEq(sig, expected);
    if !same {
      return Failure(Mismatch);
    }
    return VerifyPayload(payload, now);
  }

  // ---------------------------------------------------------------------------
  // Properties
  // ---------------------------------------------------------------------------

  lemma CharsOfAscii(s: string)
    requires AllDigits(s)
    ensures Chars(Ascii(s)) == s && COLON !in Ascii(s)
    ensures forall i :: 0 <= i < |s| ==> Ascii(s)[i] < 0x80
  {
    assert forall i :: 0 <= i < |s| ==> s[i] in s;
  }

  lemma ExpiryReadsBack(n: nat)
    requires n <= MAX_U64
    ensures ParseUnsigned(Chars(Ascii(Dec(n))), MAX_U64) == Some(n)
    ensures COLON !in Ascii(Dec(n)) && WellFormed(Ascii(Dec(n)))
  {
    CharsOfAscii(Dec(n));
    AsciiIsWellFormed(Ascii(Dec(n)));
    ValueOfDec(n);
    ParseOfDigits(Dec(n), MAX_U64);
  }

  lemma ColonIsWellFormed()
    ensures WellFormed([COLON])
  {
    AsciiIsWellFormed([COLON]);
  }

  /** A token over a well-formed payload passes every check up to the payload itself. */
  lemma OwnTokenOpens(mac: Mac, payload: Bytes, key: Bytes, now: nat)
    requires WellFormed(payload)
    ensures VerifyAt(mac, Token(mac, payload, key), key, now) == VerifyPayload(payload, now)
  {
    hide Encode, Decode, WellFormed, Hex, RSplitOnce, VerifyPayload;
    var sig := Hex(mac(key, payload));
    var raw := payload + [COLON] + sig;
    HexIsPlain(mac(key, payload));
    DecodeOfEncode(raw);
    ColonIsWellFormed();
    WellFormedAppend(payload, [COLON]);
    WellFormedAppend(payload + [COLON], sig);
    RSplitOnceUnique(payload, COLON, sig);
  }

  /**
   Verifying a signed token gives back exactly the id and the expiry while the expiry lies ahead, and
   Expired from then on; but an id that contains a colon never verifies.
   */
  lemma SignThenVerify(mac: Mac, id: Bytes, ttl: nat, key: Bytes, now: nat, later: nat)
    requires now + ttl <= MAX_U64 && WellFormed(id)
    ensures VerifyAt(mac, Sign(mac, id, ttl, key, now), key, later)
         == if COLON in id then Failure(BadPayload)
            else if later < now + ttl then Success(Verified(id, now + ttl))
            else Failure(Expired)
  {
    hide WellFormed, Token, VerifyAt, Ascii, ParseUnsigned, Chars, Dec;
    var expiryText := Ascii(Dec(now + ttl));
    var payload := Payload(id, expiryText);
    ExpiryReadsBack(now + ttl);
    ColonIsWellFormed();
    WellFormedAppend(id, [COLON]);
    WellFormedAppend(id + [COLON], expiryText);
    OwnTokenOpens(mac, payload, key, later);
    if COLON in id {
      ColonInIdIsMisread(id, expiryText, later);
    } else {
      SplitOnceUnique(id, COLON, expiryText);
    }
  }

  /** With a colon in the id the expiry is read from inside the id, and it is no number. */
  lemma ColonInIdIsMisread(id: Bytes, expiryText: Bytes, now: nat)
    requires COLON in id
    ensures VerifyPayload(Payload(id, expiryText), now) == Failure(BadPayload)
  {
    hide SplitOnce;
    var (a, b) := SplitOnce(id, COLON).value;
    var rest := b + [COLON] + expiryText;
    assert Payload(id, expiryText) == a + [COLON] + rest;
    SplitOnceUnique(a, COLON, rest);
    assert Chars(rest)[|b|] == ':';
    NotANumber(Chars(rest), |b|);
  }

  lemma NotANumber(s: string, i: nat)
    requires i < |s| && s[i] == ':'
    ensures ParseUnsigned(s, MAX_U64) == None
  {
    var digits := if s[0] == '+' then s[1..] else s;
    assert ':' in digits by {
      assert s[0] == '+' ==> i > 0 && digits[i - 1] == ':';
      assert s[0] != '+' ==> digits[i] == ':';
    }
  }

  /**
   A token is accepted for an id and an expiry exactly when it is the token of `id:text` under this
   very key, for some spelling `text` of an expiry that lies ahead. No other string opens the link.
   */
  lemma AcceptedTokens(mac: Mac, token: string, key: Bytes, now: nat, id: Bytes, expiry: nat)
    ensures VerifyAt(mac, token, key, now) == Success(Verified(id, expiry))
       <==> COLON !in id && now < expiry && exists text :: IsTokenOf(mac, token, key, id, text, expiry)
  {
    hide WellFormed, Hex, SplitOnce, RSplitOnce, ParseUnsigned, Chars, Encode, Decode;
    if VerifyAt(mac, token, key, now) == Success(Verified(id, expiry)) {
      var raw := Decode(token).value;
      var (payload, sig) := RSplitOnce(raw, COLON).value;
      var (a, text) := SplitOnce(payload, COLON).value;
      EncodeOfDecode(token);
      assert IsTokenOf(mac, token, key, id, text, expiry);
    }
    if text :| COLON !in id && now < expiry && IsTokenOf(mac, token, key, id, text, expiry) {
      var payload := Payload(id, text);
      var raw := payload + [COLON] + Hex(mac(key, payload));
      HexIsPlain(mac(key, payload));
      DecodeOfEncode(raw);
      RSplitOnceUnique(payload, COLON, Hex(mac(key, payload)));
      SplitOnceUnique(id, COLON, text);
    }
  }

  predicate IsTokenOf(mac: Mac, token: string, key: Bytes, id: Bytes, text: Bytes, expiry: nat) {
    var payload := id + [COLON] + text;
    var raw := payload + [COLON] + Hex(mac(key, payload));
    && token == Encode(raw) && WellFormed(raw)
    && ParseUnsigned(Chars(text), MAX_U64) == Some(expiry)
  }
}
