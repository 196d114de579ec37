/** Hexadecimal and decimal text, and the bytes it stands for (src/order_signer.cpp). */
module HexText {
  import opened Wrappers
  import opened Arithmetic
  import opened Digits

  type byte = b: nat | b < 256

  predicate IsDecimal(c: char) {
    '0' <= c <= '9'
  }

  predicate IsHex(c: char) {
    '0' <= c <= '9' || 'a' <= c <= 'f' || 'A' <= c <= 'F'
  }

  predicate AllDecimal(text: string) {
    forall i :: 0 <= i < |text| ==> IsDecimal(text[i])
  }

  predicate AllHex(text: string) {
    forall i :: 0 <= i < |text| ==> IsHex(text[i])
  }

  function HexDigit(c: char): (digit: nat)
    requires IsHex(c)
    ensures digit < 16
  {
    if '0' <= c <= '9' then c as nat - '0' as nat
    else if 'a' <= c <= 'f' then c as nat - 'a' as nat + 10
    else c as nat - 'A' as nat + 10
  }

  function HexChar(digit: nat): (c: char)
    requires digit < 16
    ensures IsHex(c) && HexDigit(c) == digit && (digit < 10 ==> IsDecimal(c))
  {
    if digit < 10 then ('0' as nat + digit) as char else ('a' as nat + digit - 10) as char
  }

  const HEX_DIGITS := "0123456789abcdef"

  /** A letter in lower case; any other character is left as it is. */
  function LowerCase(c: char): char {
    if 'A' <= c <= 'Z' then (c as nat - 'A' as nat + 'a' as nat) as char else c
  }

  function Lowered(text: string): (lower: string)
    ensures |lower| == |text| && forall i :: 0 <= i < |text| ==> lower[i] == LowerCase(text[i])
  {
    seq(|text|, i requires 0 <= i < |text| => LowerCase(text[i]))
  }

  /** A hexadecimal digit is one whose lower case stands in the list of digits, and its value is its place there. */
  lemma DigitIsPlace(c: char)
    ensures IsHex(c) <==> LowerCase(c) in HEX_DIGITS
    ensures IsHex(c) ==> HEX_DIGITS[HexDigit(c)] == LowerCase(c)
    ensures IsDecimal(c) <==> c in HEX_DIGITS[..10]
  {
    var place := if IsHex(c) then HexDigit(c) else 0;
    assert IsHex(c) ==> HEX_DIGITS[place] == LowerCase(c);
    assert IsDecimal(c) ==> HEX_DIGITS[..10][place] == c;
    assert forall i :: 0 <= i < 16 ==> IsHex(HEX_DIGITS[i]);
  }

  /** The digits of a text; decimal digits are hexadecimal digits below ten. */
  function TextDigits(text: string): (d: seq<nat>)
    requires AllHex(text)
    ensures |d| == |text| && AreDigits(16, d) && (AllDecimal(text) ==> AreDigits(10, d))
  {
    seq(|text|, i requires 0 <= i < |text| => HexDigit(text[i]))
  }

  function DigitsText(d: seq<nat>): (text: string)
    requires AreDigits(16, d)
    ensures AllHex(text) && TextDigits(text) == d && (AreDigits(10, d) ==> AllDecimal(text))
  {
    var text := seq(|d|, i requires 0 <= i < |d| => HexChar(d[i]));
    assert TextDigits(text) == d;
    text
  }

  lemma DigitsJoin(a: string, b: string)
    requires AllHex(a) && AllHex(b)
    ensures AllHex(a + b) && TextDigits(a + b) == TextDigits(a) + TextDigits(b)
  {
  }

  function HexValue(text: string): nat
    requires AllHex(text)
  {
    Value(16, TextDigits(text))
  }

  function DecimalValue(text: string): nat
    requires AllDecimal(text)
  {
    Value(10, TextDigits(text))
  }

  /** The usual decimal notation: no leading zeros, "0" for zero. */
  function DecimalText(value: nat): (text: string)
    ensures text != "" && AllDecimal(text)
  {
    MinimalIsShort(10, value);
    if value == 0 then "0" else DigitsText(Minimal(10, value))
  }

  lemma DecimalTextReads(value: nat)
    ensures DecimalValue(DecimalText(value)) == value
    ensures value != 0 ==> DecimalText(value)[0] != '0'
  {
    MinimalIsShort(10, value);
    if value == 0 {
      assert TextDigits("0") == [0];
      assert [0][..0] == [];
    } else {
      assert HexDigit(DecimalText(value)[0]) == TextDigits(DecimalText(value))[0];
    }
  }

  /** The case of its letters changes neither the digits of a text nor its prefix. */
  lemma CaseIsIgnored(text: string)
    ensures AllHex(Lowered(text)) <==> AllHex(text)
    ensures AllHex(text) ==> TextDigits(Lowered(text)) == TextDigits(text)
    ensures HasPrefix(Lowered(text)) <==> HasPrefix(text)
    ensures WithoutPrefix(Lowered(text)) == Lowered(WithoutPrefix(text))
  {
    var lower := Lowered(text);
    forall i | 0 <= i < |text|
      ensures IsHex(lower[i]) <==> IsHex(text[i])
      ensures IsHex(text[i]) ==> HexDigit(lower[i]) == HexDigit(text[i])
    {
    }
    if HasPrefix(text) {
      assert forall i :: 0 <= i < |text| - 2 ==> WithoutPrefix(lower)[i] == LowerCase(WithoutPrefix(text)[i]);
    }
  }

  /** A decimal text without leading zeros is the notation of its value. */
  lemma DecimalTextIsUnique(text: string)
    requires AllDecimal(text) && text != "" && text[0] != '0'
    ensures DecimalText(DecimalValue(text)) == text
  {
    var d := TextDigits(text);
    assert d[0] != 0;
    LeadingDigit(10, d);
    MinimalIsUnique(10, d);
    SameDigitsSameText(DigitsText(d), text);
  }

  lemma SameDigitsSameText(a: string, b: string)
    requires AllDecimal(a) && AllDecimal(b) && TextDigits(a) == TextDigits(b)
    ensures a == b
  {
    assert |a| == |b|;
    forall i | 0 <= i < |a| ensures a[i] == b[i] {
      assert TextDigits(a)[i] == TextDigits(b)[i];
    }
  }

  predicate HasPrefix(text: string) {
    |text| >= 2 && text[0] == '0' && (text[1] == 'x' || text[1] == 'X')
  }

  function WithoutPrefix(text: string): string {
    if HasPrefix(text) then text[2..] else text
  }

  function Join<T>(parts: seq<seq<T>>): seq<T> {
    if parts == [] then [] else Join(parts[..|parts| - 1]) + parts[|parts| - 1]
  }

  // ----- bytes and hexadecimal digits -----

  /** Two hexadecimal digits for each byte. */
  function Nibbles(bytes: seq<byte>): (d: seq<nat>)
    ensures |d| == 2 * |bytes| && AreDigits(16, d)
  {
    if bytes == [] then []
    else
      var last: nat := bytes[|bytes| - 1];
      Nibbles(bytes[..|bytes| - 1]) + [last / 16, last % 16]
  }

  lemma TwoNibbles(base: nat, d: seq<nat>, high: nat, low: nat)
    ensures Value(base, d + [high, low]) == (Value(base, d) * base + high) * base + low
  {
    var all := d + [high, low];
    assert all[..|all| - 1] == d + [high];
    assert (d + [high])[..|d|] == d;
  }

  lemma {:induction false} NibblesKeepValue(bytes: seq<byte>)
    ensures Value(16, Nibbles(bytes)) == Value(256, bytes)
  {
    if bytes != [] {
      var front, last: nat := bytes[..|bytes| - 1], bytes[|bytes| - 1];
      NibblesKeepValue(front);
      TwoNibbles(16, Nibbles(front), last / 16, last % 16);
    }
  }

  lemma {:induction false} NibblesJoin(a: seq<byte>, b: seq<byte>)
    ensures Nibbles(a + b) == Nibbles(a) + Nibbles(b)
  {
    if b == [] {
      assert a + b == a;
    } else {
      assert (a + b)[..|a + b| - 1] == a + b[..|b| - 1];
      NibblesJoin(a, b[..|b| - 1]);
    }
  }

  /** to_hex. */
  method ToHex(bytes: seq<byte>) returns (text: string)
    ensures text == "0x" + DigitsText(Nibbles(bytes))
  {
    var hex := "";
    for i := 0 to |bytes|
      invariant hex == DigitsText(Nibbles(bytes[..i]))
    {
      var value: nat := bytes[i];
      assert bytes[..i + 1][..i] == bytes[..i];
      assert Nibbles(bytes[..i + 1]) == Nibbles(bytes[..i]) + [value / 16, value % 16];
      hex := hex + [HexChar(value / 16), HexChar(value % 16)];
    }
    assert bytes[..|bytes|] == bytes;
    text := "0x" + hex;
  }

  datatype HexError = IncompleteByte | NotHex

  /** Complete bytes behind one optional prefix, or why there are none. */
  ghost predicate IsFromHex(text: string, r: Result<seq<byte>, HexError>) {
    var hex := WithoutPrefix(text);
    && (r.Ok? <==> |hex| % 2 == 0 && AllHex(hex))
    && (r.Ok? ==> Nibbles(r.value) == TextDigits(hex))
    && (r == Err(IncompleteByte) <==> |hex| % 2 != 0)
  }

  lemma NothingRead(hex: string)
    ensures AllHex(hex[..0]) && Nibbles([]) == TextDigits(hex[..0])
  {
  }

  lemma BadDigit(hex: string, i: nat)
    requires i < |hex| && !IsHex(hex[i])
    ensures !AllHex(hex)
  {
  }

  lemma OneMoreByte(hex: string, i: nat, bytes: seq<byte>, next: byte)
    requires i + 1 < |hex| && AllHex(hex[..i]) && Nibbles(bytes) == TextDigits(hex[..i])
    requires IsHex(hex[i]) && IsHex(hex[i + 1]) && next == HexDigit(hex[i]) * 16 + HexDigit(hex[i + 1])
    ensures AllHex(hex[..i + 2]) && Nibbles(bytes + [next]) == TextDigits(hex[..i + 2])
  {
    assert forall j :: 0 <= j < i ==> hex[..i + 2][j] == hex[..i][j];
    assert TextDigits(hex[..i + 2]) == TextDigits(hex[..i]) + [HexDigit(hex[i]), HexDigit(hex[i + 1])];
    assert (bytes + [next])[..|bytes|] == bytes;
  }

  /** from_hex: one optional prefix, then complete bytes. */
  method FromHex(text: string) returns (r: Result<seq<byte>, HexError>)
    ensures IsFromHex(text, r)
  {
    var hex := WithoutPrefix(text);
    if |hex| % 2 != 0 {
      return Err(IncompleteByte);
    }
    var bytes: seq<byte> := [];
    var i := 0;
    hide Nibbles, TextDigits, AllHex;
    NothingRead(hex);
    while i < |hex|
      invariant 0 <= i <= |hex| && i % 2 == 0 && AllHex(hex[..i])
      invariant Nibbles(bytes) == TextDigits(hex[..i])
    {
      if !IsHex(hex[i]) || !IsHex(hex[i + 1]) {
        BadDigit(hex, if IsHex(hex[i]) then i + 1 else i);
        return Err(NotHex);
      }
      var next: byte := HexDigit(hex[i]) * 16 + HexDigit(hex[i + 1]);
      OneMoreByte(hex, i, bytes, next);
      bytes := bytes + [next];
      i := i + 2;
    }
    assert hex[..i] == hex;
    return Ok(bytes);
  }

  /** Reading back the text of some bytes gives the bytes. */
  lemma {:induction false} NibblesAreUnique(a: seq<byte>, b: seq<byte>)
    requires Nibbles(a) == Nibbles(b)
    ensures a == b
  {
    if a != [] {
      var n := |a| - 1;
      var x: nat, y: nat := a[n], b[n];
      assert Nibbles(a) == Nibbles(a[..n]) + [x / 16, x % 16];
      assert Nibbles(b) == Nibbles(b[..n]) + [y / 16, y % 16];
      assert Nibbles(a)[2 * n] == x / 16 && Nibbles(a)[2 * n + 1] == x % 16;
      assert Nibbles(b)[2 * n] == y / 16 && Nibbles(b)[2 * n + 1] == y % 16;
      assert Nibbles(a[..n]) == Nibbles(a)[..2 * n] == Nibbles(b[..n]);
      NibblesAreUnique(a[..n], b[..n]);
      assert a == a[..n] + [a[n]] && b == b[..n] + [b[n]];
    }
  }

  /** A text and its lower-case form stand for the same bytes, or for the same fault. */
  lemma FromHexIgnoresCase(text: string, r: Result<seq<byte>, HexError>, lower: Result<seq<byte>, HexError>)
    requires IsFromHex(text, r) && IsFromHex(Lowered(text), lower)
    ensures r == lower
  {
    CaseIsIgnored(text);
    CaseIsIgnored(WithoutPrefix(text));
    hide WithoutPrefix, AllHex, TextDigits, Nibbles;
    assert |WithoutPrefix(Lowered(text))| == |WithoutPrefix(text)|;
    assert r.Ok? <==> lower.Ok?;
    if r.Ok? {
      NibblesAreUnique(r.value, lower.value);
    } else {
      assert r.error.IncompleteByte? <==> lower.error.IncompleteByte?;
    }
  }

  /** The text that to_hex writes is read as the bytes it was written for, and so is the text without its prefix. */
  lemma HexRoundTrip(bytes: seq<byte>, text: string, r: Result<seq<byte>, HexError>)
    requires text == DigitsText(Nibbles(bytes)) || text == "0x" + DigitsText(Nibbles(bytes))
    requires IsFromHex(text, r)
    ensures r == Ok(bytes)
  {
    hide AllHex, TextDigits, Nibbles, WithoutPrefix, HasPrefix;
    var hex := DigitsText(Nibbles(bytes));
    PrefixIsDropped(hex);
    ReadBack(hex, text, bytes, r);
  }

  lemma ReadBack(hex: string, text: string, bytes: seq<byte>, r: Result<seq<byte>, HexError>)
    requires AllHex(hex) && TextDigits(hex) == Nibbles(bytes) && WithoutPrefix(text) == hex && IsFromHex(text, r)
    ensures r == Ok(bytes)
  {
    hide AllHex, TextDigits, Nibbles, WithoutPrefix;
    assert |hex| == 2 * |bytes|;
    assert r.Ok?;
    NibblesAreUnique(r.value, bytes);
  }

  lemma PrefixIsDropped(hex: string)
    requires AllHex(hex)
    ensures WithoutPrefix("0x" + hex) == hex && WithoutPrefix(hex) == hex
  {
    assert |hex| >= 2 ==> IsHex(hex[1]);
  }
}
