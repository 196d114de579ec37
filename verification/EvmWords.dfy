/** ABI words as hexadecimal text, and their decimal notation (src/evm_utils.cpp). */
module EvmWords {
  import opened Wrappers
  import opened Arithmetic
  import opened Digits
  import opened HexText
  import opened Uint256

  const WORD_DIGITS: nat := 64

  datatype DecodeError =
    | NotOneWord
    | InvalidHexCharacter
    | ExceedsHostSize
    | NotWordAligned
    | OffsetIndexTooLarge
    | OffsetWordMissing
    | InvalidHead
    | OffsetNotAligned
    | OffsetIntoHead
    | LengthWordMissing
    | Truncated

  // ----- unsigned values -----

  /** decimal * mul + add, digit by digit in place, then new digits in front. */
  method DecimalMulAdd(decimal: string, mul: nat, add: nat) returns (r: string)
    requires AllDecimal(decimal)
    ensures r == DecimalText(DecimalValue(decimal) * mul + add)
  {
    hide Pow, Value, DecimalText;
    var text := decimal;
    var carry: nat := add;
    NoDigits(text[|decimal|..]);
    for i := |decimal| downto 0
      invariant |text| == |decimal| && AllDecimal(text) && text[..i] == decimal[..i]
      invariant DecimalValue(text[i..]) + carry * Pow(10, |text| - i) == DecimalValue(decimal[i..]) * mul + add
    {
      ghost var low, lowBefore, before := text[i + 1..], decimal[i + 1..], carry;
      assert text[i] == decimal[i] by {
        assert text[..i + 1][i] == decimal[..i + 1][i];
      }
      var digit := HexDigit(text[i]);
      var next := digit * mul + carry;
      text := text[i := HexChar(next % 10)];
      carry := next / 10;
      assert text[i..] == [HexChar(next % 10)] + low && decimal[i..] == [decimal[i]] + lowBefore;
      FirstDigit(HexChar(next % 10), low);
      FirstDigit(decimal[i], lowBefore);
      PowNext(10, |low|);
      PlaceStep(10, mul, digit, next, before, Pow(10, |low|), DecimalValue(low), DecimalValue(lowBefore), add);
    }
    assert text[0..] == text && decimal[0..] == decimal;
    while carry > 0
      invariant AllDecimal(text)
      invariant DecimalValue(text) + carry * Pow(10, |text|) == DecimalValue(decimal) * mul + add
      decreases carry
    {
      FirstDigit(HexChar(carry % 10), text);
      PowNext(10, |text|);
      NextCarry(carry, Pow(10, |text|));
      text := [HexChar(carry % 10)] + text;
      carry := carry / 10;
    }
    ZerosAreNothing(text);
    r := SkipZeros(text);
    if r == "" {
      NoDigits(r);
      ZeroText();
      return "0";
    }
    DecimalTextIsUnique(r);
  }

  lemma DecimalIsHex(text: string)
    requires AllDecimal(text)
    ensures AllHex(text)
  {
  }

  lemma ZeroText()
    ensures DecimalText(0) == "0"
  {
  }

  lemma FirstIsDecimal(c: char, rest: string)
    requires IsDecimal(c) && AllDecimal(rest)
    ensures AllDecimal([c] + rest) && AllHex([c]) && AllHex(rest) && IsHex(c)
  {
    DecimalIsHex(rest);
  }

  lemma OneDigit(c: char)
    requires IsHex(c)
    ensures AllHex([c]) && TextDigits([c]) == [HexDigit(c)]
  {
  }

  lemma FirstDigit(c: char, rest: string)
    requires IsDecimal(c) && AllDecimal(rest)
    ensures AllDecimal([c] + rest) && IsHex(c)
    ensures DecimalValue([c] + rest) == HexDigit(c) * Pow(10, |rest|) + DecimalValue(rest)
  {
    FirstIsDecimal(c, rest);
    hide Pow, Value, IsDecimal, IsHex, AllDecimal, AllHex, TextDigits, HexDigit;
    DigitsJoin([c], rest);
    OneDigit(c);
    OnePlace(10, HexDigit(c), TextDigits(rest));
  }

  lemma NextCarry(carry: nat, place: nat)
    ensures (carry % 10) * place + (carry / 10) * (place * 10) == carry * place
  {
    assert carry == 10 * (carry / 10) + carry % 10;
    assert (carry / 10) * (place * 10) == (10 * (carry / 10)) * place;
    assert (10 * (carry / 10) + carry % 10) * place == (10 * (carry / 10)) * place + (carry % 10) * place;
  }

  lemma HexPrefix(hex: string, n: nat)
    requires n < |hex| && AllHex(hex[..n]) && IsHex(hex[n])
    ensures AllHex(hex[..n + 1]) && HexValue(hex[..n + 1]) == HexValue(hex[..n]) * 16 + HexDigit(hex[n])
  {
    assert forall j :: 0 <= j < n ==> hex[..n + 1][j] == hex[..n][j];
    assert TextDigits(hex[..n + 1])[..n] == TextDigits(hex[..n]);
  }

  method PositiveHexToDecimal(text: string) returns (r: Result<string, DecodeError>)
    ensures var hex := WithoutPrefix(text);
      r == if AllHex(hex) then Ok(DecimalText(HexValue(hex))) else Err(InvalidHexCharacter)
  {
    hide Pow, Value, DecimalText;
    var hex := WithoutPrefix(text);
    var result := "0";
    NoDigits(hex[..0]);
    ZeroText();
    for i := 0 to |hex|
      invariant AllHex(hex[..i]) && result == DecimalText(HexValue(hex[..i]))
    {
      if !IsHex(hex[i]) {
        return Err(InvalidHexCharacter);
      }
      DecimalTextReads(HexValue(hex[..i]));
      HexPrefix(hex, i);
      result := DecimalMulAdd(result, 16, HexDigit(hex[i]));
    }
    assert hex[..|hex|] == hex;
    return Ok(result);
  }

  /** canonical_abi_word_hex. */
  function CanonicalWord(word: string): Result<string, DecodeError> {
    var hex := WithoutPrefix(word);
    if |hex| != WORD_DIGITS then Err(NotOneWord)
    else if !AllHex(hex) then Err(InvalidHexCharacter)
    else Ok(hex)
  }

  lemma HexHasNoPrefix(hex: string)
    requires AllHex(hex)
    ensures WithoutPrefix(hex) == hex
  {
    assert |hex| >= 2 ==> IsHex(hex[1]);
  }

  /** evm_uint_word_to_decimal. */
  method UintWordToDecimal(word: string) returns (r: Result<string, DecodeError>)
    ensures |WithoutPrefix(word)| != 64 ==> r == Err(NotOneWord)
    ensures |WithoutPrefix(word)| == 64 && !AllHex(WithoutPrefix(word)) ==> r == Err(InvalidHexCharacter)
    ensures |WithoutPrefix(word)| == 64 && AllHex(WithoutPrefix(word)) ==>
      CanonicalWord(word) == Ok(WithoutPrefix(word))
    ensures CanonicalWord(word).Err? ==> r == Err(CanonicalWord(word).error)
    ensures CanonicalWord(word).Ok? ==> r == Ok(DecimalText(HexValue(CanonicalWord(word).value)))
  {
    var hex := CanonicalWord(word);
    if hex.Err? {
      return Err(hex.error);
    }
    HexHasNoPrefix(hex.value);
    r := PositiveHexToDecimal(hex.value);
  }

  // ----- signed values -----

  lemma {:induction false} ComplementValue(d: seq<nat>, inverted: seq<nat>)
    requires |inverted| == |d| && AreDigits(16, d)
    requires forall i :: 0 <= i < |d| ==> inverted[i] == 15 - d[i]
    ensures Value(16, inverted) + Value(16, d) + 1 == Pow(16, |d|)
  {
    if d != [] {
      ComplementValue(d[..|d| - 1], inverted[..|d| - 1]);
    }
  }

  /** Every digit replaced by its distance to 15. */
  method Inverted(text: string) returns (r: Result<string, DecodeError>)
    ensures r.Ok? <==> AllHex(text)
    ensures r.Ok? ==>
      && |r.value| == |text| && AllHex(r.value)
      && HexValue(r.value) + HexValue(text) + 1 == Pow(16, |text|)
  {
    hide Pow, Value;
    var hex := "";
    for i := 0 to |text|
      invariant |hex| == i && AllHex(hex) && AllHex(text[..i])
      invariant forall j :: 0 <= j < i ==> HexDigit(hex[j]) == 15 - HexDigit(text[..i][j])
    {
      if !IsHex(text[i]) {
        return Err(InvalidHexCharacter);
      }
      assert text[..i + 1] == text[..i] + [text[i]];
      hex := hex + [HexChar(15 - HexDigit(text[i]))];
    }
    assert text[..|text|] == text;
    ComplementValue(TextDigits(text), TextDigits(hex));
    return Ok(hex);
  }

  /** Invert every digit and add one: the distance to the next power of 16. */
  method TwosComplementAbs(text: string) returns (r: Result<string, DecodeError>)
    ensures var hex := WithoutPrefix(text);
      && (r.Ok? <==> AllHex(hex))
      && (r.Ok? ==>
            var p := Pow(16, Max(|hex|, WORD_DIGITS));
            p > 0 && AllHex(r.value) && |r.value| == Max(|hex|, WORD_DIGITS)
            && HexValue(r.value) == (p - HexValue(hex)) % p)
  {
    hide Pow, Value;
    var stripped := WithoutPrefix(text);
    var hex := stripped;
    if |hex| < WORD_DIGITS {
      hex := seq(WORD_DIGITS - |hex|, i => '0') + hex;
    }
    PaddedKeepsValue(stripped, hex);
    var inverted := Inverted(hex);
    if inverted.Err? {
      return Err(InvalidHexCharacter);
    }
    var plusOne := AddOne(inverted.value);
    PowPositive(16, |hex|);
    ValueBound(16, TextDigits(plusOne));
    ValueBound(16, TextDigits(hex));
    Wraps(HexValue(hex), HexValue(plusOne), Pow(16, |hex|));
    return Ok(plusOne);
  }

  lemma PaddedKeepsValue(stripped: string, hex: string)
    requires hex == if |stripped| < WORD_DIGITS then seq(WORD_DIGITS - |stripped|, i => '0') + stripped else stripped
    ensures AllHex(hex) <==> AllHex(stripped)
    ensures AllHex(hex) ==> HexValue(hex) == HexValue(stripped)
  {
    if |stripped| < WORD_DIGITS {
      var n := WORD_DIGITS - |stripped|;
      assert forall i :: 0 <= i < |stripped| ==> hex[n + i] == stripped[i];
      if AllHex(stripped) {
        assert TextDigits(hex) == Zeros(n) + TextDigits(stripped);
        ZerosInFront(16, n, TextDigits(stripped));
      }
    }
  }

  lemma Wraps(value: nat, result: nat, p: nat)
    requires value < p && result < p
    requires result == p - value || (result + p == p - value)
    ensures result == (p - value) % p
  {
    if value == 0 {
      DivisionIs(p, p, 1, 0);
    } else {
      DivisionIs(p - value, p, 0, p - value);
    }
  }

  /** The carry loop of the addition of one; a final carry is dropped. */
  method AddOne(text: string) returns (r: string)
    requires AllHex(text)
    ensures |r| == |text| && AllHex(r)
    ensures HexValue(r) == HexValue(text) + 1 || HexValue(r) + Pow(16, |text|) == HexValue(text) + 1
  {
    hide Pow, Value;
    r := text;
    var carry: nat := 1;
    var i := |text|;
    NoDigits(text[|text|..]);
    while i > 0 && carry != 0
      invariant 0 <= i <= |text| && |r| == |text| && AllHex(r) && carry <= 1
      invariant r[..i] == text[..i]
      invariant HexValue(r[i..]) + carry * Pow(16, |text| - i) == HexValue(text[i..]) * 1 + 1
      decreases i
    {
      ghost var low, lowBefore, before := r[i..], text[i..], carry;
      i := i - 1;
      assert r[i] == text[i] by {
        assert r[..i + 1][i] == text[..i + 1][i];
      }
      var digit := HexDigit(r[i]);
      var next := digit + carry;
      carry := next / 16;
      r := r[i := HexChar(next % 16)];
      assert r[i..] == [HexChar(next % 16)] + low && text[i..] == [text[i]] + lowBefore;
      FirstHexDigit(HexChar(next % 16), low);
      FirstHexDigit(text[i], lowBefore);
      PowNext(16, |low|);
      PlaceStep(16, 1, digit, next, before, Pow(16, |low|), HexValue(low), HexValue(lowBefore), 1);
    }
    JoinHex(r[..i], r[i..]);
    JoinHex(text[..i], text[i..]);
    assert r == r[..i] + r[i..] && text == text[..i] + text[i..];
    CarryOut(HexValue(text[..i]), carry, Pow(16, |text| - i), Pow(16, i), Pow(16, |text|), i == 0) by {
      PowAdds(16, i, |text| - i);
      if i == 0 {
        NoDigits(text[..i]);
      }
    }
  }

  lemma CarryOut(high: nat, carry: nat, place: nat, above: nat, whole: nat, first: bool)
    requires carry <= 1 && (first ==> high == 0 && above == 1) && above * place == whole
    ensures carry == 1 && first ==> carry * place == whole
    ensures carry == 0 ==> carry * place == 0
  {
  }

  lemma NoDigits(text: string)
    requires text == ""
    ensures HexValue(text) == 0 && DecimalValue(text) == 0 && Pow(16, 0) == 1 && Pow(10, 0) == 1
  {
  }

  lemma FirstHexDigit(c: char, rest: string)
    requires IsHex(c) && AllHex(rest)
    ensures AllHex([c] + rest) && HexValue([c] + rest) == HexDigit(c) * Pow(16, |rest|) + HexValue(rest)
  {
    OneDigit(c);
    hide Pow, Value, IsHex, AllHex, TextDigits, HexDigit;
    DigitsJoin([c], rest);
    OnePlace(16, HexDigit(c), TextDigits(rest));
  }

  lemma JoinHex(a: string, b: string)
    requires AllHex(a) && AllHex(b)
    ensures AllHex(a + b) && HexValue(a + b) == HexValue(a) * Pow(16, |b|) + HexValue(b)
  {
    DigitsJoin(a, b);
    ValueJoin(16, TextDigits(a), TextDigits(b));
  }

  /** The value a word stands for in two's complement. */
  function TwosComplement(value: nat): int {
    if value < 8 * Pow(16, WORD_DIGITS - 1) then value else value - Pow(16, WORD_DIGITS)
  }

  function SignedText(value: int): string {
    if value < 0 then "-" + DecimalText(-value) else DecimalText(value)
  }

  /** It is the one number of the range -2^255 to 2^255 - 1 that differs from the word's value by a multiple of
      2^256. */
  lemma TwosComplementIs(value: nat)
    requires value < Pow(16, WORD_DIGITS)
    ensures var half, t := 8 * Pow(16, WORD_DIGITS - 1), TwosComplement(value);
      && 2 * half == Pow(16, WORD_DIGITS) && -half <= t < half
      && (t == value || t == value - 2 * half)
  {
    hide Pow;
    PowNext(16, WORD_DIGITS - 1);
  }

  /** A number's text: a minus sign exactly for a negative one, and the decimal notation of its distance to zero. */
  lemma SignedTextReads(value: int)
    ensures var text := SignedText(value);
      && text != "" && (text[0] == '-' <==> value < 0)
      && var digits := if value < 0 then text[1..] else text;
         AllDecimal(digits) && DecimalValue(digits) == if value < 0 then -value else value
  {
    DecimalTextReads(if value < 0 then -value else value);
    hide DecimalText;
  }

  /** evm_int_word_to_decimal prints the two's-complement value of every word. */
  method IntWordToDecimal(word: string) returns (r: Result<string, DecodeError>)
    ensures |WithoutPrefix(word)| != 64 ==> r == Err(NotOneWord)
    ensures |WithoutPrefix(word)| == 64 && !AllHex(WithoutPrefix(word)) ==> r == Err(InvalidHexCharacter)
    ensures |WithoutPrefix(word)| == 64 && AllHex(WithoutPrefix(word)) ==>
      CanonicalWord(word) == Ok(WithoutPrefix(word))
    ensures CanonicalWord(word).Err? ==> r == Err(CanonicalWord(word).error)
    ensures CanonicalWord(word).Ok? ==> r == Ok(SignedText(TwosComplement(HexValue(CanonicalWord(word).value))))
  {
    hide Pow;
    var canonical := CanonicalWord(word);
    if canonical.Err? {
      return Err(canonical.error);
    }
    var hex := canonical.value;
    HexHasNoPrefix(hex);
    SignDigit(hex);
    var negative := HexDigit(hex[0]) >= 8;
    if !negative {
      r := PositiveHexToDecimal(hex);
      return;
    }
    var complement := TwosComplementAbs(hex);
    HexHasNoPrefix(complement.value);
    DivisionIs(Pow(16, WORD_DIGITS) - HexValue(hex), Pow(16, WORD_DIGITS), 0, Pow(16, WORD_DIGITS) - HexValue(hex));
    var magnitude := PositiveHexToDecimal(complement.value);
    return Ok("-" + magnitude.value);
  }

  lemma SignDigit(hex: string)
    requires |hex| == WORD_DIGITS && AllHex(hex)
    ensures HexDigit(hex[0]) >= 8 <==> HexValue(hex) >= 8 * Pow(16, WORD_DIGITS - 1)
    ensures 0 <= HexValue(hex) < Pow(16, WORD_DIGITS) && 8 * Pow(16, WORD_DIGITS - 1) > 0
  {
    assert hex == [hex[0]] + hex[1..];
    FirstHexDigit(hex[0], hex[1..]);
    ValueBound(16, TextDigits(hex[1..]));
    ValueBound(16, TextDigits(hex));
    var p := Pow(16, WORD_DIGITS - 1);
    if HexDigit(hex[0]) >= 8 {
      MulMonotone(8, HexDigit(hex[0]), p);
    } else {
      MulMonotone(HexDigit(hex[0]), 7, p);
    }
  }

  // ----- a word of the encoder -----

  /** The text of a 32-byte word stands for the word's value. */
  lemma WordTextValue(word: seq<byte>)
    requires |word| == WORD
    ensures CanonicalWord("0x" + DigitsText(Nibbles(word))) == Ok(DigitsText(Nibbles(word)))
    ensures HexValue(DigitsText(Nibbles(word))) == Value(256, word)
  {
    var hex := DigitsText(Nibbles(word));
    assert ("0x" + hex)[2..] == hex;
    NibblesKeepValue(word);
  }

  /** Text to word to text: a word's decimal notation, read again, is the word; and the notation is the text that
      was read, without its leading zeros. */
  method WordRoundTrip(text: string) returns (r: Result<string, DecodeError>)
    requires AllDecimal(text) && ParsedUint(text).Ok?
    ensures r == Ok(if WithoutZeros(text) == "" then "0" else WithoutZeros(text))
    ensures ParsedUint(r.value) == ParsedUint(text)
  {
    hide Pow, Value;
    var word := ParseUint256Word(text);
    FixedIsValue(256, ParsedUint(text).value, WORD);
    WordTextValue(word.value);
    var hex := ToHex(word.value);
    r := UintWordToDecimal(hex);
    ReadingDropsZeros(text);
    DecimalRoundTrip(ParsedUint(text).value);
  }
}
