/** 32-byte words and the texts they are read from (src/evm_uint.cpp). */
module Uint256 {
  import opened Wrappers
  import opened Arithmetic
  import opened Digits
  import opened HexText

  const WORD: nat := 32

  datatype WordError = Empty | NotDecimal | NotHexadecimal | Exceeds

  /** One place of value * factor + carry, with the carry above it. */
  lemma PlaceStep(base: nat, factor: nat, digit: nat, next: nat, carry: nat, place: nat, low: nat, lowBefore: nat,
                  add: nat)
    requires base > 0 && next == digit * factor + carry
    requires low + carry * place == lowBefore * factor + add
    ensures (next % base) * place + low + (next / base) * (place * base)
         == (digit * place + lowBefore) * factor + add
  {
    var n, c := next % base, next / base;
    assert next == base * c + n;
    assert c * (place * base) == (base * c) * place;
    assert n * place + (base * c) * place == next * place by {
      assert (n + base * c) * place == n * place + (base * c) * place;
    }
    assert next * place == (digit * factor) * place + carry * place;
    assert (digit * place + lowBefore) * factor == (digit * factor) * place + lowBefore * factor by {
      assert (digit * place) * factor == (digit * factor) * place;
    }
  }

  lemma OnePlace(base: nat, digit: nat, rest: seq<nat>)
    ensures Value(base, [digit] + rest) == digit * Pow(base, |rest|) + Value(base, rest)
  {
    ValueJoin(base, [digit], rest);
    assert [digit][..0] == [];
    assert Value(base, [digit]) == digit;
  }

  /** Multiply the word by ten and add a digit, in place; rest is what does not fit. */
  method MultiplyAdd(word: array<byte>, digit: nat) returns (rest: nat)
    requires digit < 10
    modifies word
    ensures rest < 10
    ensures Value(256, word[..]) + rest * Pow(256, word.Length) == Value(256, old(word[..])) * 10 + digit
  {
    rest := digit;
    ghost var before := word[..];
    for i := word.Length downto 0
      invariant rest < 10
      invariant word[..i] == before[..i]
      invariant Value(256, word[i..]) + rest * Pow(256, word.Length - i) == Value(256, before[i..]) * 10 + digit
    {
      ghost var low, lowBefore := word[i + 1..], before[i + 1..];
      ghost var carry := rest;
      var next := word[i] * 10 + rest;
      assert word[i] == before[i] by {
        assert word[..i + 1][i] == before[..i + 1][i];
      }
      word[i] := next % 256;
      rest := next / 256;
      assert word[i..] == [next % 256] + low && before[i..] == [before[i]] + lowBefore;
      OnePlace(256, next % 256, low);
      OnePlace(256, before[i], lowBefore);
      PlaceStep(256, 10, before[i], next, carry, Pow(256, word.Length - i - 1), Value(256, low), Value(256, lowBefore),
                digit);
    }
    assert word[0..] == word[..] && before[0..] == before;
  }

  // ----- decimal text -----

  /** What a decimal text reads as: the first fault from the left decides. */
  function ParsedDecimal(text: string): Result<nat, WordError> {
    if text == "" then Ok(0)
    else
      match ParsedDecimal(text[..|text| - 1])
      case Err(e) => Err(e)
      case Ok(value) =>
        var c := text[|text| - 1];
        if !IsDecimal(c) then Err(NotDecimal)
        else
          var next := value * 10 + HexDigit(c);
          if next >= Pow(256, WORD) then Err(Exceeds) else Ok(next)
  }

  lemma DecimalPrefix(text: string)
    requires AllDecimal(text) && text != ""
    ensures AllDecimal(text[..|text| - 1])
    ensures DecimalValue(text) == DecimalValue(text[..|text| - 1]) * 10 + HexDigit(text[|text| - 1])
  {
    assert TextDigits(text)[..|text| - 1] == TextDigits(text[..|text| - 1]);
  }

  /** Exactly the decimal texts of values below 2^256 are read, as their value. */
  lemma {:induction false} ParsedDecimalIff(text: string)
    ensures ParsedDecimal(text).Ok? <==> AllDecimal(text) && DecimalValue(text) < Pow(256, WORD)
    ensures ParsedDecimal(text).Ok? ==> ParsedDecimal(text).value == DecimalValue(text)
  {
    if text == "" {
      PowPositive(256, WORD);
    } else {
      var front := text[..|text| - 1];
      ParsedDecimalIff(front);
      assert text == front + [text[|text| - 1]];
      if AllDecimal(text) {
        DecimalPrefix(text);
      }
    }
  }

  /** A decimal text is refused for its first character that is no digit or brings the value to 2^256, whichever
      comes first. */
  lemma {:induction false} DecimalFaultIs(text: string) returns (n: nat)
    requires ParsedDecimal(text).Err?
    ensures n < |text| && AllDecimal(text[..n]) && DecimalValue(text[..n]) < Pow(256, WORD)
    ensures match ParsedDecimal(text).error
            case NotDecimal => !IsDecimal(text[n])
            case Exceeds => AllDecimal(text[..n + 1]) && DecimalValue(text[..n + 1]) >= Pow(256, WORD)
            case _ => false
  {
    hide Pow;
    var front := text[..|text| - 1];
    ParsedDecimalIff(front);
    if ParsedDecimal(front).Err? {
      n := DecimalFaultIs(front);
      assert front[..n] == text[..n] && front[..n + 1] == text[..n + 1];
    } else {
      n := |text| - 1;
      assert text[..n + 1] == text;
      if IsDecimal(text[n]) {
        assert AllDecimal(text) by {
          assert text == front + [text[n]];
        }
        DecimalPrefix(text);
      }
    }
  }

  lemma ParsedFaultSpreads(text: string, n: nat)
    requires n <= |text| && ParsedDecimal(text[..n]).Err?
    ensures ParsedDecimal(text) == ParsedDecimal(text[..n])
    decreases |text| - n
  {
    if n == |text| {
      assert text[..n] == text;
    } else {
      assert text[..n + 1][..n] == text[..n];
      ParsedFaultSpreads(text, n + 1);
    }
  }

  /** The word of a value, as a result. */
  function AsWord(value: Result<nat, WordError>): Result<seq<nat>, WordError>
    requires value.Ok? ==> value.value < Pow(256, WORD)
  {
    match value
    case Err(e) => Err(e)
    case Ok(v) => Ok(Fixed(256, v, WORD))
  }

  lemma ParsedOneMore(text: string, i: nat, value: nat)
    requires i < |text| && ParsedDecimal(text[..i]) == Ok(value)
    ensures ParsedDecimal(text[..i + 1])
         == if !IsDecimal(text[i]) then Err(NotDecimal)
            else if value * 10 + HexDigit(text[i]) >= Pow(256, WORD) then Err(Exceeds)
            else Ok(value * 10 + HexDigit(text[i]))
  {
    assert text[..i + 1][..i] == text[..i];
  }

  method DecimalToWord(text: string) returns (r: Result<seq<byte>, WordError>)
    ensures ParsedDecimal(text).Ok? ==> ParsedDecimal(text).value < Pow(256, WORD)
    ensures r == AsWord(ParsedDecimal(text))
  {
    hide Pow;
    ParsedDecimalIff(text);
    var word := new byte[WORD](i => 0);
    assert word[..] == Zeros(WORD) + [];
    ZerosInFront(256, WORD, []);
    hide Value;
    for i := 0 to |text|
      invariant ParsedDecimal(text[..i]) == Ok(Value(256, word[..]))
    {
      ParsedOneMore(text, i, Value(256, word[..]));
      if !IsDecimal(text[i]) {
        ParsedFaultSpreads(text, i + 1);
        return Err(NotDecimal);
      }
      var rest := MultiplyAdd(word, HexDigit(text[i]));
      ValueBound(256, word[..]);
      if rest != 0 {
        MulMonotone(1, rest, Pow(256, WORD));
        ParsedFaultSpreads(text, i + 1);
        return Err(Exceeds);
      }
    }
    assert text[..|text|] == text;
    FixedIsUnique(256, word[..]);
    return Ok(word[..]);
  }

  // ----- hexadecimal text -----

  function WithoutZeros(text: string): (rest: string)
    ensures rest == "" || rest[0] != '0'
    ensures AllHex(text) <==> AllHex(rest)
  {
    if text != "" && text[0] == '0' then
      assert text == [text[0]] + text[1..];
      WithoutZeros(text[1..])
    else text
  }

  lemma {:induction false} WithoutZerosKeepsValue(text: string)
    requires AllHex(text)
    ensures HexValue(WithoutZeros(text)) == HexValue(text)
    ensures |WithoutZeros(text)| <= |text|
  {
    if text != "" && text[0] == '0' {
      WithoutZerosKeepsValue(text[1..]);
      ZeroInFront(16, TextDigits(text[1..]));
      assert TextDigits(text) == [0] + TextDigits(text[1..]);
    }
  }

  /** from_hex drops a prefix; after hex_to_word has made the number of digits even that can be an x that the text
      holds behind its own prefix and zeros. */
  function HexCore(rest: string): string {
    if |rest| % 2 != 0 && (rest[0] == 'x' || rest[0] == 'X') then rest[1..] else rest
  }

  /** What the digits behind the prefix read as. */
  function ParsedHex(digits: string): Result<nat, WordError> {
    var rest := WithoutZeros(digits);
    if |rest| > 2 * WORD then Err(Exceeds)
    else if !AllHex(HexCore(rest)) then Err(NotHexadecimal)
    else Ok(HexValue(HexCore(rest)))
  }

  /** Hexadecimal digits are read exactly when their value is below 2^256, as that value. */
  lemma ParsedHexOfDigits(digits: string)
    requires AllHex(digits)
    ensures ParsedHex(digits) == if HexValue(digits) < Pow(256, WORD) then Ok(HexValue(digits)) else Err(Exceeds)
  {
    var rest := WithoutZeros(digits);
    WithoutZerosKeepsValue(digits);
    var d := TextDigits(rest);
    assert HexCore(rest) == rest;
    if rest != "" {
      assert d[0] != 0;
    }
    MinimalIsUnique(16, d);
    MinimalFits(16, Value(16, d), 2 * WORD);
    PowSquare(WORD);
  }

  lemma {:induction false} PowSquare(n: nat)
    ensures Pow(16, 2 * n) == Pow(256, n)
  {
    if n > 0 {
      PowSquare(n - 1);
      assert Pow(16, 2 * n) == Pow(16, 2 * n - 1) * 16;
      assert Pow(16, 2 * n - 1) == Pow(16, 2 * (n - 1)) * 16;
    }
  }

  /** A text that is not hexadecimal is read nevertheless exactly when one x stands behind its leading zeros, in
      front of an even number of digits. */
  lemma StrayPrefixIff(digits: string)
    requires !AllHex(digits)
    ensures var rest := WithoutZeros(digits);
      ParsedHex(digits).Ok?
      <==> |rest| <= 2 * WORD && |rest| % 2 == 1 && (rest[0] == 'x' || rest[0] == 'X') && AllHex(rest[1..])
  {
  }

  lemma StrayPrefixIsRead()
    ensures ParsedHex("x12") == Ok(0x12) && ParsedHex("0x12") == Ok(0x12) && !AllHex("x12")
  {
    assert WithoutZeros("x12") == "x12" && HexCore("x12") == "12";
    assert "0x12"[1..] == "x12";
    assert TextDigits("12") == [1, 2];
    TwoNibbles(16, [], 1, 2);
    assert [] + [1, 2] == [1, 2];
    assert !IsHex("x12"[0]);
  }

  /** Digits are refused for their number when more than 64 characters stand behind the leading zeros, otherwise for a
      character. */
  lemma HexFaultIs(digits: string)
    ensures var rest := WithoutZeros(digits);
      && (ParsedHex(digits) == Err(Exceeds) <==> |rest| > 64)
      && (|rest| <= 64 ==> (ParsedHex(digits) == Err(NotHexadecimal) <==> !AllHex(HexCore(rest))))
  {
    hide WithoutZeros, HexCore, HexValue;
  }

  lemma ParsedHexFits(digits: string)
    ensures ParsedHex(digits).Ok? ==> ParsedHex(digits).value < Pow(256, WORD)
  {
    var rest := WithoutZeros(digits);
    if ParsedHex(digits).Ok? {
      ValueBound(16, TextDigits(HexCore(rest)));
      PowGrows(16, |HexCore(rest)|, 2 * WORD);
      PowSquare(WORD);
    }
  }

  method SkipZeros(text: string) returns (rest: string)
    ensures rest == WithoutZeros(text)
  {
    var first := 0;
    while first < |text| && text[first] == '0'
      invariant first <= |text| && WithoutZeros(text) == WithoutZeros(text[first..])
    {
      assert text[first..][1..] == text[first + 1..];
      first := first + 1;
    }
    return text[first..];
  }

  method HexToWord(text: string) returns (r: Result<seq<byte>, WordError>)
    ensures ParsedHex(text).Ok? ==> ParsedHex(text).value < Pow(256, WORD)
    ensures r == AsWord(ParsedHex(text))
  {
    hide Pow, Value, WithoutZeros, HexCore, Minimal;
    ParsedHexFits(text);
    var digits := SkipZeros(text);
    if |digits| > 2 * WORD {
      return Err(Exceeds);
    }
    ghost var core := HexCore(digits);
    if |digits| % 2 != 0 {
      digits := "0" + digits;
    }
    EvenDigits(WithoutZeros(text), digits);
    var bytes := FromHex(digits);
    if bytes.Err? {
      return Err(NotHexadecimal);
    }
    NibblesKeepValue(bytes.value);
    var padding: seq<byte> := seq(WORD - |bytes.value|, i => 0);
    assert padding == Zeros(WORD - |bytes.value|);
    ZerosInFront(256, WORD - |bytes.value|, bytes.value);
    FixedIsUnique(256, padding + bytes.value);
    return Ok(padding + bytes.value);
  }

  /** What from_hex makes of the digits once their number is even. */
  lemma EvenDigits(rest: string, digits: string)
    requires rest == "" || rest[0] != '0'
    requires digits == if |rest| % 2 != 0 then "0" + rest else rest
    ensures |WithoutPrefix(digits)| % 2 == 0 && |WithoutPrefix(digits)| <= |rest| + 1
    ensures AllHex(WithoutPrefix(digits)) <==> AllHex(HexCore(rest))
    ensures AllHex(HexCore(rest)) ==>
      Value(16, TextDigits(WithoutPrefix(digits))) == HexValue(HexCore(rest))
  {
    if |rest| % 2 == 0 {
      assert WithoutPrefix(digits) == rest == HexCore(rest);
    } else if rest[0] == 'x' || rest[0] == 'X' {
      assert WithoutPrefix(digits) == rest[1..] == HexCore(rest);
    } else {
      assert WithoutPrefix(digits) == "0" + rest && HexCore(rest) == rest;
      ZeroBefore(rest);
      hide HexCore, WithoutPrefix, AllHex, Value;
    }
  }

  lemma ZeroBefore(rest: string)
    ensures AllHex("0" + rest) <==> AllHex(rest)
    ensures AllHex(rest) ==> Value(16, TextDigits("0" + rest)) == HexValue(rest)
  {
    var hex := "0" + rest;
    assert forall i :: 0 <= i < |rest| ==> hex[i + 1] == rest[i];
    if AllHex(rest) {
      assert TextDigits(hex) == [0] + TextDigits(rest);
      ZeroInFront(16, TextDigits(rest));
    }
  }

  // ----- any text -----

  function ParsedUint(text: string): Result<nat, WordError> {
    if text == "" || (HasPrefix(text) && |text| == 2) then Err(Empty)
    else if HasPrefix(text) then ParsedHex(text[2..])
    else ParsedDecimal(text)
  }

  /** Without a prefix a text is read exactly when it is a decimal notation of a value below 2^256, with a prefix
      when hexadecimal digits of such a value follow it; and as that value. The only other texts that are read have a
      stray x behind the prefix. */
  lemma ParsedUintIff(text: string)
    ensures !HasPrefix(text) ==>
      && (ParsedUint(text).Ok? <==> text != "" && AllDecimal(text) && DecimalValue(text) < Pow(256, WORD))
      && (ParsedUint(text).Ok? ==> ParsedUint(text).value == DecimalValue(text))
    ensures HasPrefix(text) && AllHex(text[2..]) ==>
      && (ParsedUint(text).Ok? <==> |text| > 2 && HexValue(text[2..]) < Pow(256, WORD))
      && (ParsedUint(text).Ok? ==> ParsedUint(text).value == HexValue(text[2..]))
    ensures HasPrefix(text) && !AllHex(text[2..]) && ParsedUint(text).Ok? ==>
      var rest := WithoutZeros(text[2..]);
      rest != "" && rest[0] in {'x', 'X'} && AllHex(rest[1..]) && ParsedUint(text).value == HexValue(rest[1..])
  {
    ParsedDecimalIff(text);
    if HasPrefix(text) {
      if AllHex(text[2..]) {
        ParsedHexOfDigits(text[2..]);
      } else {
        StrayPrefixIff(text[2..]);
      }
    }
  }

  lemma {:induction false} ZerosLowered(text: string)
    ensures WithoutZeros(Lowered(text)) == Lowered(WithoutZeros(text))
  {
    if text != "" && text[0] == '0' {
      assert Lowered(text)[1..] == Lowered(text[1..]);
      ZerosLowered(text[1..]);
    }
  }

  lemma CoreLowered(rest: string)
    ensures HexCore(Lowered(rest)) == Lowered(HexCore(rest))
  {
    if |rest| % 2 != 0 && (rest[0] == 'x' || rest[0] == 'X') {
      assert Lowered(rest)[1..] == Lowered(rest[1..]);
    }
  }

  lemma {:induction false} DecimalLowered(text: string)
    ensures ParsedDecimal(Lowered(text)) == ParsedDecimal(text)
  {
    if text != "" {
      var front := text[..|text| - 1];
      assert Lowered(text)[..|text| - 1] == Lowered(front);
      DecimalLowered(front);
    }
  }

  /** The case of its letters does not matter to what a text reads as. */
  lemma ParsedIgnoresCase(text: string)
    ensures ParsedUint(Lowered(text)) == ParsedUint(text)
  {
    CaseIsIgnored(text);
    if HasPrefix(text) && |text| > 2 {
      var digits := text[2..];
      assert Lowered(text)[2..] == Lowered(digits);
      var core := HexCore(WithoutZeros(digits));
      ZerosLowered(digits);
      CoreLowered(WithoutZeros(digits));
      CaseIsIgnored(core);
      hide WithoutZeros, HexCore, HexDigit;
    } else {
      DecimalLowered(text);
    }
  }

  method ParseUint256Word(text: string) returns (r: Result<seq<byte>, WordError>)
    ensures ParsedUint(text).Ok? ==> ParsedUint(text).value < Pow(256, WORD)
    ensures r == AsWord(ParsedUint(text))
  {
    var isHex := HasPrefix(text);
    if text == "" || (isHex && |text| == 2) {
      return Err(Empty);
    }
    if isHex {
      r := HexToWord(text[2..]);
    } else {
      r := DecimalToWord(text);
    }
  }

  // ----- a 64-bit value -----

  lemma {:induction false} LowBytes(value: nat, i: nat)
    ensures Pow(256, i) > 0 && Pow(256, i + 1) == Pow(256, i) * 256
    ensures value % Pow(256, i + 1) == ((value / Pow(256, i)) % 256) * Pow(256, i) + value % Pow(256, i)
  {
    PowPositive(256, i);
    NextPlace(value, Pow(256, i), 256);
  }

  lemma NextPlace(value: nat, p: nat, base: nat)
    requires p > 0 && base > 0
    ensures p * base > 0 && value % (p * base) == ((value / p) % base) * p + value % p
  {
    var q := value / p;
    MulGrows(p, base);
    Recompose(value, p, base, q, value % p, q / base, q % base);
    DivisionIs(value, p * base, q / base, (q % base) * p + value % p);
  }

  lemma Recompose(value: nat, p: nat, base: nat, q: nat, r: nat, high: nat, low: nat)
    requires value == p * q + r && q == base * high + low && r < p && low < base
    ensures value == high * (p * base) + (low * p + r) && low * p + r < p * base
  {
    assert p * (base * high + low) == p * (base * high) + p * low;
    assert p * (base * high) == high * (p * base);
    MulMonotone(low + 1, base, p);
    assert (low + 1) * p == low * p + p;
    assert base * p == p * base;
  }

  lemma DivisionIs(value: nat, d: nat, q: nat, r: nat)
    requires r < d && value == q * d + r
    ensures value / d == q && value % d == r
  {
    assert value == d * (value / d) + value % d;
    assert d * (value / d) == (value / d) * d;
    SplitIsUnique(d, q, r, value / d, value % d);
  }

  method Uint256Word(value: nat) returns (word: seq<byte>)
    requires value <= UINT64_MAX
    ensures value < Pow(256, WORD) && word == Fixed(256, value, WORD)
  {
    Pow64();
    var bytes := new byte[WORD](i => 0);
    for i := 0 to 8
      invariant forall j :: 0 <= j < WORD - i ==> bytes[j] == 0
      invariant Value(256, bytes[WORD - i..]) == value % Pow(256, i)
    {
      LowBytes(value, i);
      ghost var low := bytes[WORD - i..];
      var next := (value / Pow(256, i)) % 256;
      bytes[WORD - 1 - i] := next;
      assert bytes[WORD - (i + 1)..] == [next] + low;
      OnePlace(256, next, low);
    }
    word := bytes[..];
    assert word == Zeros(WORD - 8) + bytes[WORD - 8..];
    ZerosInFront(256, WORD - 8, bytes[WORD - 8..]);
    assert value % Pow(256, 8) == value by {
      DivisionIs(value, Pow(256, 8), 0, value);
    }
    FixedIsUnique(256, word);
  }

  lemma Pow64()
    ensures Pow(256, 8) == UINT64_MAX + 1 && Pow(256, 8) <= Pow(256, WORD)
  {
    PowAdds(256, 4, 4);
    PowGrows(256, 8, WORD);
  }

  // ----- round trips -----

  /** The decimal notation of any word value is read back as that value. */
  lemma DecimalRoundTrip(value: nat)
    requires value < Pow(256, WORD)
    ensures ParsedUint(DecimalText(value)) == Ok(value)
  {
    hide Pow;
    DecimalTextReads(value);
    ParsedDecimalIff(DecimalText(value));
    var text := DecimalText(value);
  }

  /** Whatever decimal text was read, the notation of its value is the text without leading zeros. */
  lemma ReadingDropsZeros(text: string)
    requires AllDecimal(text) && ParsedUint(text).Ok?
    ensures var rest := WithoutZeros(text);
      DecimalText(ParsedUint(text).value) == if rest == "" then "0" else rest
  {
    hide Pow;
    ParsedDecimalIff(text);
    ZerosAreNothing(text);
    var rest := WithoutZeros(text);
    if rest == "" {
      assert TextDigits("") == [];
    } else {
      DecimalTextIsUnique(rest);
    }
  }

  lemma {:induction false} ZerosAreNothing(text: string)
    requires AllDecimal(text)
    ensures AllDecimal(WithoutZeros(text)) && DecimalValue(WithoutZeros(text)) == DecimalValue(text)
  {
    if text != "" && text[0] == '0' {
      ZerosAreNothing(text[1..]);
      ZeroInFront(10, TextDigits(text[1..]));
      assert TextDigits(text) == [0] + TextDigits(text[1..]);
    }
  }
}
