/** The UTF-16 escapes of the JSON engine and the UTF-8 bytes they turn into. */
module Utf8 {
  import opened Text

  predicate IsHex(c: char) {
    '0' <= c <= '9' || 'A' <= c <= 'F' || 'a' <= c <= 'f'
  }

  function HexValue(c: char): (v: nat)
    requires IsHex(c)
    ensures v < 16
  {
    if c <= '9' then c as int - 48
    else if c <= 'F' then c as int - 55
    else c as int - 87
  }

  predicate IsHex4(s: string) {
    |s| == 4 && forall i :: 0 <= i < 4 ==> IsHex(s[i])
  }

  /** parse_hex4: the value of four hexadecimal digits, and 0 when one of them is not a digit. */
  function Hex4(s: string): (h: nat)
    requires |s| == 4
    ensures h < 0x10000
    ensures !IsHex4(s) ==> h == 0
  {
    if IsHex4(s) then
      0x1000 * HexValue(s[0]) + 0x100 * HexValue(s[1]) + 0x10 * HexValue(s[2]) + HexValue(s[3])
    else 0
  }

  predicate IsHighSurrogate(u: nat) { 0xD800 <= u <= 0xDBFF }

  predicate IsLowSurrogate(u: nat) { 0xDC00 <= u <= 0xDFFF }

  predicate IsScalar(cp: nat) { cp < 0xD800 || 0xDFFF < cp <= 0x10FFFF }

  /** Section 2.2 of RFC 2781. */
  function FromSurrogates(hi: nat, lo: nat): (cp: nat)
    requires IsHighSurrogate(hi) && IsLowSurrogate(lo)
    ensures 0x10000 <= cp <= 0x10FFFF
  {
    0x10000 + (hi - 0xD800) * 0x400 + (lo - 0xDC00)
  }

  /** The number of bytes the source reserves for a code point. */
  function Utf8Length(cp: nat): (n: nat)
    ensures 1 <= n <= 4
  {
    if cp < 0x80 then 1 else if cp < 0x800 then 2 else if cp < 0x10000 then 3 else 4
  }

  function FirstByteMark(n: nat): nat
    requires 1 <= n <= 4
  {
    if n == 1 then 0 else if n == 2 then 0xC0 else if n == 3 then 0xE0 else 0xF0
  }

  /** Continuation bytes are peeled off the low end, six bits at a time; the rest of the code point
      goes into the first byte under its mark. */
  function Utf8Bytes(cp: nat, n: nat, mark: nat): (bytes: string)
    requires 1 <= n <= 4 && mark < 0x100
    ensures |bytes| == n
    decreases n
  {
    if n == 1 then [((cp + mark) % 0x100) as char]
    else Utf8Bytes(cp / 0x40, n - 1, mark) + [(0x80 + cp % 0x40) as char]
  }

  function EncodeUtf8(cp: nat): (bytes: string)
    ensures 1 <= |bytes| <= 4 && |bytes| == Utf8Length(cp)
  {
    Utf8Bytes(cp, Utf8Length(cp), FirstByteMark(Utf8Length(cp)))
  }

  /** The source computes a continuation byte, and its first bytes, with masks; on 32-bit words these
      are the sums used above. */
  lemma MaskForms(c: bv32)
    ensures ((c | 0x80) & 0xBF) & 0xFF == 0x80 + c % 0x40
    ensures c >> 6 == c / 0x40
    ensures c < 0x20 ==> (c | 0xC0) & 0xFF == (c + 0xC0) % 0x100
    ensures c < 0x10 ==> (c | 0xE0) & 0xFF == (c + 0xE0) % 0x100
    ensures c < 0x08 ==> (c | 0xF0) & 0xFF == (c + 0xF0) % 0x100
  {
  }

  /** The masks and the shift that combine two surrogates. */
  lemma SurrogateMasks(hi: bv32, lo: bv32)
    requires 0xD800 <= hi <= 0xDBFF && 0xDC00 <= lo <= 0xDFFF
    ensures 0x10000 + (((hi & 0x3FF) << 10) | (lo & 0x3FF)) == 0x10000 + (hi - 0xD800) * 0x400 + (lo - 0xDC00)
  {
  }

  predicate IsTail(b: nat) { 0x80 <= b <= 0xBF }

  /** A decoder written from sections 3 and 4 of RFC 3629: one character, nothing left over,
      shortest form only, no surrogates, nothing above U+10FFFF. */
  function DecodeUtf8(s: string): Option<nat> {
    var b := seq(|s|, i requires 0 <= i < |s| => s[i] as int);
    if |b| == 1 && b[0] <= 0x7F then
      Some(b[0])
    else if |b| == 2 && 0xC2 <= b[0] <= 0xDF && IsTail(b[1]) then
      Some((b[0] - 0xC0) * 0x40 + (b[1] - 0x80))
    else if |b| == 3 && 0xE0 <= b[0] <= 0xEF && IsTail(b[1]) && IsTail(b[2])
            && (b[0] == 0xE0 ==> 0xA0 <= b[1]) && (b[0] == 0xED ==> b[1] <= 0x9F) then
      Some((b[0] - 0xE0) * 0x1000 + (b[1] - 0x80) * 0x40 + (b[2] - 0x80))
    else if |b| == 4 && 0xF0 <= b[0] <= 0xF4 && IsTail(b[1]) && IsTail(b[2]) && IsTail(b[3])
            && (b[0] == 0xF0 ==> 0x90 <= b[1]) && (b[0] == 0xF4 ==> b[1] <= 0x8F) then
      Some((b[0] - 0xF0) * 0x40000 + (b[1] - 0x80) * 0x1000 + (b[2] - 0x80) * 0x40 + (b[3] - 0x80))
    else
      None
  }

  /** Every scalar value survives encoding, in the form RFC 3629 prescribes. */
  lemma EncodeDecode(cp: nat)
    requires IsScalar(cp)
    ensures DecodeUtf8(EncodeUtf8(cp)) == Some(cp)
  {
    if cp < 0x80 {
      assert EncodeUtf8(cp) == [(cp % 0x100) as char];
    } else if cp < 0x800 {
      EncodeTwo(cp / 0x40, cp % 0x40);
      DecodeTwo(cp / 0x40, cp % 0x40);
    } else if cp < 0x10000 {
      ThreeBytes(cp);
    } else {
      FourBytes(cp);
    }
  }

  lemma ThreeBytes(cp: nat)
    requires IsScalar(cp) && 0x800 <= cp < 0x10000
    ensures DecodeUtf8(EncodeUtf8(cp)) == Some(cp)
  {
    var a, r := cp / 0x1000, cp % 0x1000;
    var y, x := r / 0x40, r % 0x40;
    EncodeThree(a, y, x);
    DecodeThree(a, y, x);
  }

  lemma FourBytes(cp: nat)
    requires 0x10000 <= cp <= 0x10FFFF
    ensures DecodeUtf8(EncodeUtf8(cp)) == Some(cp)
  {
    var a, r := cp / 0x40000, cp % 0x40000;
    var z, s := r / 0x1000, r % 0x1000;
    var y, x := s / 0x40, s % 0x40;
    EncodeFour(a, z, y, x);
    DecodeFour(a, z, y, x);
  }

  lemma EncodeTwo(a: nat, x: nat)
    requires 2 <= a < 0x20 && x < 0x40
    ensures EncodeUtf8(a * 0x40 + x) == [((a + 0xC0) % 0x100) as char, (0x80 + x) as char]
  {
    assert (a * 0x40 + x) / 0x40 == a && (a * 0x40 + x) % 0x40 == x;
  }

  lemma EncodeThree(a: nat, y: nat, x: nat)
    requires a < 0x10 && x < 0x40 && y < 0x40 && (a == 0 ==> 0x20 <= y)
    ensures EncodeUtf8(a * 0x1000 + y * 0x40 + x)
         == [((a + 0xE0) % 0x100) as char, (0x80 + y) as char, (0x80 + x) as char]
  {
    var q := a * 0x40 + y;
    assert q / 0x40 == a && q % 0x40 == y;
    assert (q * 0x40 + x) / 0x40 == q && (q * 0x40 + x) % 0x40 == x;
    assert Utf8Bytes(q, 2, 0xE0) == Utf8Bytes(a, 1, 0xE0) + [(0x80 + y) as char];
  }

  lemma EncodeFour(a: nat, z: nat, y: nat, x: nat)
    requires a <= 4 && x < 0x40 && y < 0x40 && z < 0x40 && (a == 0 ==> 0x10 <= z)
    ensures EncodeUtf8(a * 0x40000 + z * 0x1000 + y * 0x40 + x)
         == [((a + 0xF0) % 0x100) as char, (0x80 + z) as char, (0x80 + y) as char, (0x80 + x) as char]
  {
    var p := a * 0x40 + z;
    var q := p * 0x40 + y;
    assert p / 0x40 == a && p % 0x40 == z;
    assert q / 0x40 == p && q % 0x40 == y;
    assert (q * 0x40 + x) / 0x40 == q && (q * 0x40 + x) % 0x40 == x;
    assert Utf8Bytes(p, 2, 0xF0) == Utf8Bytes(a, 1, 0xF0) + [(0x80 + z) as char];
    assert Utf8Bytes(q, 3, 0xF0) == Utf8Bytes(p, 2, 0xF0) + [(0x80 + y) as char];
  }

  lemma DecodeTwo(a: nat, x: nat)
    requires 2 <= a < 0x20 && x < 0x40
    ensures DecodeUtf8([((a + 0xC0) % 0x100) as char, (0x80 + x) as char]) == Some(a * 0x40 + x)
  {
  }

  lemma DecodeThree(a: nat, y: nat, x: nat)
    requires a < 0x10 && x < 0x40 && y < 0x40
    requires (a == 0 ==> 0x20 <= y) && (a == 0xD ==> y < 0x20)
    ensures DecodeUtf8([((a + 0xE0) % 0x100) as char, (0x80 + y) as char, (0x80 + x) as char])
         == Some(a * 0x1000 + y * 0x40 + x)
  {
  }

  lemma DecodeFour(a: nat, z: nat, y: nat, x: nat)
    requires a <= 4 && x < 0x40 && y < 0x40 && z < 0x40
    requires (a == 0 ==> 0x10 <= z) && (a == 4 ==> z < 0x10)
    ensures DecodeUtf8([((a + 0xF0) % 0x100) as char, (0x80 + z) as char, (0x80 + y) as char, (0x80 + x) as char])
         == Some(a * 0x40000 + z * 0x1000 + y * 0x40 + x)
  {
  }

  /** A converted escape sequence: its bytes and how many input characters it took. */
  datatype Utf16Result = Utf16Fail | Utf16Ok(bytes: string, consumed: nat)

  /** utf16_literal_to_utf8 on the text from the backslash to the end of the literal's body. */
  function Utf16Literal(t: string): (r: Utf16Result)
    ensures r.Utf16Ok? ==> 6 <= r.consumed <= |t|
  {
    if |t| < 6 then Utf16Fail
    else
      var first := Hex4(t[2..6]);
      if IsLowSurrogate(first) then Utf16Fail
      else if IsHighSurrogate(first) then
        if |t| < 12 || t[6] != '\\' || t[7] != 'u' then Utf16Fail
        else
          var second := Hex4(t[8..12]);
          if !IsLowSurrogate(second) then Utf16Fail
          else Utf16Ok(EncodeUtf8(FromSurrogates(first, second)), 12)
      else Utf16Ok(EncodeUtf8(first), 6)
  }

  /** The escape is read as RFC 2781 and RFC 3629 together prescribe: a basic code point or a
      surrogate pair comes out as the bytes that decode to it, and a surrogate that is not followed by
      its partner is refused. */
  lemma Utf16LiteralMeaning(h: string, rest: string)
    requires IsHex4(h)
    ensures var u := Hex4(h);
            var r := Utf16Literal("\\u" + h + rest);
            if IsScalar(u) then
              r.Utf16Ok? && r.consumed == 6 && DecodeUtf8(r.bytes) == Some(u)
            else if IsHighSurrogate(u) && |rest| >= 6 && rest[..2] == "\\u" && IsLowSurrogate(Hex4(rest[2..6])) then
              r.Utf16Ok? && r.consumed == 12
              && DecodeUtf8(r.bytes) == Some(FromSurrogates(u, Hex4(rest[2..6])))
            else r.Utf16Fail?
  {
    var u := Hex4(h);
    var t := "\\u" + h + rest;
    assert t[2..6] == h;
    if IsScalar(u) {
      EncodeDecode(u);
    } else if IsHighSurrogate(u) && |rest| >= 6 {
      assert t[8..12] == rest[2..6];
      assert t[6] == rest[0] && t[7] == rest[1];
      if IsLowSurrogate(Hex4(rest[2..6])) {
        EncodeDecode(FromSurrogates(u, Hex4(rest[2..6])));
      }
    }
  }
}
