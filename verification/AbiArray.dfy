/** Reading a dynamic uint array out of ABI data as text (src/evm_utils.cpp), and its relation to the encoder. */
module AbiArray {
  import opened Wrappers
  import opened Arithmetic
  import opened Digits
  import opened HexText
  import opened Uint256
  import opened EvmWords
  import opened Abi

  /** abi_word_to_size: the value of a word, if a host size holds it. */
  function SizeOf(word: string): Result<nat, DecodeError> {
    match CanonicalWord(word)
    case Err(e) => Err(e)
    case Ok(hex) => if HexValue(hex) <= UINT64_MAX then Ok(HexValue(hex)) else Err(ExceedsHostSize)
  }

  lemma PrefixIsSmaller(hex: string, n: nat)
    requires AllHex(hex) && n <= |hex|
    ensures HexValue(hex[..n]) <= HexValue(hex)
  {
    assert hex == hex[..n] + hex[n..];
    JoinHex(hex[..n], hex[n..]);
    PowPositive(16, |hex[n..]|);
    MulGrows(HexValue(hex[..n]), Pow(16, |hex[n..]|));
  }

  method AbiWordToSize(word: string) returns (r: Result<nat, DecodeError>)
    ensures r == SizeOf(word)
  {
    var canonical := CanonicalWord(word);
    if canonical.Err? {
      return Err(canonical.error);
    }
    var hex := canonical.value;
    var value: nat := 0;
    NoDigits(hex[..0]);
    for i := 0 to |hex|
      invariant value == HexValue(hex[..i]) && value <= UINT64_MAX
    {
      HexPrefix(hex, i);
      PrefixIsSmaller(hex, i + 1);
      var digit := HexDigit(hex[i]);
      if value > (UINT64_MAX - digit) / 16 {
        return Err(ExceedsHostSize);
      }
      value := value * 16 + digit;
    }
    assert hex[..|hex|] == hex;
    return Ok(value);
  }

  /** The words of a hexadecimal text, each with its own prefix. */
  function WordTexts(hex: string): (words: seq<string>)
    ensures |words| == |hex| / WORD_DIGITS
  {
    seq(|hex| / WORD_DIGITS,
        i requires 0 <= i < |hex| / WORD_DIGITS => "0x" + hex[WORD_DIGITS * i..WORD_DIGITS * i + WORD_DIGITS])
  }

  method EvmDataWords(data: string) returns (r: Result<seq<string>, DecodeError>)
    ensures r == if |WithoutPrefix(data)| % WORD_DIGITS != 0 then Err(NotWordAligned)
                 else Ok(WordTexts(WithoutPrefix(data)))
  {
    var hex := WithoutPrefix(data);
    if |hex| % WORD_DIGITS != 0 {
      return Err(NotWordAligned);
    }
    var words: seq<string> := [];
    var i := 0;
    while i < |hex|
      invariant 0 <= i <= |hex| && i % WORD_DIGITS == 0 && |words| == i / WORD_DIGITS
      invariant words == WordTexts(hex)[..|words|]
    {
      assert WORD_DIGITS * |words| == i;
      assert WordTexts(hex)[|words|] == "0x" + hex[i..i + WORD_DIGITS];
      words := words + ["0x" + hex[i..i + WORD_DIGITS]];
      i := i + WORD_DIGITS;
    }
    assert WordTexts(hex)[..|words|] == WordTexts(hex);
    return Ok(words);
  }

  /** Why an array is refused before its elements are read, in the order of the source's checks. */
  function ArrayFault(words: seq<string>, offsetIndex: nat, headCount: nat): Option<DecodeError> {
    if offsetIndex >= |words| then Some(OffsetWordMissing)
    else if headCount <= offsetIndex || headCount > |words| then Some(InvalidHead)
    else
      match SizeOf(words[offsetIndex])
      case Err(e) => Some(e)
      case Ok(offset) =>
        if offset % WORD != 0 then Some(OffsetNotAligned)
        else if offset / WORD < headCount then Some(OffsetIntoHead)
        else if offset / WORD >= |words| then Some(LengthWordMissing)
        else
          match SizeOf(words[offset / WORD])
          case Err(e) => Some(e)
          case Ok(length) => if length > |words| - offset / WORD - 1 then Some(Truncated) else None
  }

  /** The elements stand in the words from a length word on. */
  predicate FollowLength(words: seq<string>, at: nat, elements: seq<string>) {
    at + 1 + |elements| <= |words| && elements == words[at + 1..at + 1 + |elements|]
  }

  /** The element words of an array that is not refused: they lie behind the head, inside the data. */
  function ElementWords(words: seq<string>, offsetIndex: nat, headCount: nat): (elements: seq<string>)
    requires ArrayFault(words, offsetIndex, headCount).None?
    ensures exists at :: headCount <= at && FollowLength(words, at, elements)
  {
    var at := SizeOf(words[offsetIndex]).value / WORD;
    var length := SizeOf(words[at]).value;
    var elements := words[at + 1..at + 1 + length];
    assert FollowLength(words, at, elements);
    elements
  }

  /** An array of n elements stands at a word of the data: the offset word holds its place in bytes, behind the head,
      and the word there holds n, with n words behind it. */
  predicate StandsAt(words: seq<string>, offsetIndex: nat, headCount: nat, at: nat, n: nat) {
    && offsetIndex < headCount <= |words| && headCount <= at
    && SizeOf(words[offsetIndex]) == Ok(32 * at)
    && at + 1 + n <= |words| && SizeOf(words[at]) == Ok(n)
  }

  /** The elements of an array are read exactly when it stands somewhere in the data, and they are the words behind its
      length. */
  lemma ArrayAcceptedIff(words: seq<string>, offsetIndex: nat, headCount: nat)
    ensures ArrayFault(words, offsetIndex, headCount).None?
            <==> exists at, n :: StandsAt(words, offsetIndex, headCount, at, n)
    ensures forall at, n :: StandsAt(words, offsetIndex, headCount, at, n) ==>
      ElementWords(words, offsetIndex, headCount) == words[at + 1..at + 1 + n]
  {
    hide SizeOf;
    if ArrayFault(words, offsetIndex, headCount).None? {
      var at := SizeOf(words[offsetIndex]).value / WORD;
      assert StandsAt(words, offsetIndex, headCount, at, SizeOf(words[at]).value);
    }
    forall at: nat, n: nat | StandsAt(words, offsetIndex, headCount, at, n)
      ensures ArrayFault(words, offsetIndex, headCount).None?
      ensures ElementWords(words, offsetIndex, headCount) == words[at + 1..at + 1 + n]
    {
      assert 32 * at / WORD == at && 32 * at % WORD == 0;
    }
  }

  /** What the elements read as: their decimals, or the fault of the first that is no word. */
  function Decimals(words: seq<string>): Result<seq<string>, DecodeError> {
    if words == [] then Ok([])
    else
      match Decimals(words[..|words| - 1])
      case Err(e) => Err(e)
      case Ok(values) =>
        match CanonicalWord(words[|words| - 1])
        case Err(e) => Err(e)
        case Ok(hex) => Ok(values + [DecimalText(HexValue(hex))])
  }

  lemma {:induction false} FaultSpreads(words: seq<string>, n: nat)
    requires n <= |words| && Decimals(words[..n]).Err?
    ensures Decimals(words) == Decimals(words[..n])
    decreases |words| - n
  {
    if n == |words| {
      assert words[..n] == words;
    } else {
      assert words[..n + 1][..n] == words[..n];
      FaultSpreads(words, n + 1);
    }
  }

  /** evm_decode_uint_array on any data: never a word outside it, never an offset into the head. */
  method DecodeUintArray(data: string, offsetIndex: nat, headCount: nat) returns (r: Result<seq<string>, DecodeError>)
    ensures |WithoutPrefix(data)| % WORD_DIGITS != 0 ==> r == Err(NotWordAligned)
    ensures |WithoutPrefix(data)| % WORD_DIGITS == 0 ==>
      var words := WordTexts(WithoutPrefix(data));
      && (ArrayFault(words, offsetIndex, headCount).Some? ==> r == Err(ArrayFault(words, offsetIndex, headCount).value))
      && (ArrayFault(words, offsetIndex, headCount).None? ==>
            r == Decimals(ElementWords(words, offsetIndex, headCount)))
  {
    hide WordTexts, SizeOf;
    var split := EvmDataWords(data);
    if split.Err? {
      return Err(split.error);
    }
    var words := split.value;
    if offsetIndex >= |words| {
      return Err(OffsetWordMissing);
    }
    if headCount <= offsetIndex || headCount > |words| {
      return Err(InvalidHead);
    }
    var offset := AbiWordToSize(words[offsetIndex]);
    if offset.Err? {
      return Err(offset.error);
    }
    if offset.value % WORD != 0 {
      return Err(OffsetNotAligned);
    }
    if offset.value / WORD < headCount {
      return Err(OffsetIntoHead);
    }
    var lengthIndex := offset.value / WORD;
    if lengthIndex >= |words| {
      return Err(LengthWordMissing);
    }
    var length := AbiWordToSize(words[lengthIndex]);
    if length.Err? {
      return Err(length.error);
    }
    var available := |words| - lengthIndex - 1;
    if length.value > available {
      return Err(Truncated);
    }
    r := ReadElements(words[lengthIndex + 1..lengthIndex + 1 + length.value]);
  }

  method ReadElements(words: seq<string>) returns (r: Result<seq<string>, DecodeError>)
    ensures r == Decimals(words)
  {
    var values: seq<string> := [];
    for i := 0 to |words|
      invariant Decimals(words[..i]) == Ok(values)
    {
      assert words[..i + 1][..i] == words[..i];
      var value := UintWordToDecimal(words[i]);
      if value.Err? {
        FaultSpreads(words, i + 1);
        return Err(value.error);
      }
      values := values + [value.value];
    }
    assert words[..|words|] == words;
    return Ok(values);
  }

  /** The form that takes the head to end at the offset word. */
  method DecodeUintArrayAt(data: string, offsetIndex: nat) returns (r: Result<seq<string>, DecodeError>)
    requires offsetIndex <= UINT64_MAX
    ensures offsetIndex == UINT64_MAX ==> r == Err(OffsetIndexTooLarge)
    ensures offsetIndex < UINT64_MAX && |WithoutPrefix(data)| % WORD_DIGITS != 0 ==> r == Err(NotWordAligned)
    ensures offsetIndex < UINT64_MAX && |WithoutPrefix(data)| % WORD_DIGITS == 0 ==>
      var words := WordTexts(WithoutPrefix(data));
      && (ArrayFault(words, offsetIndex, offsetIndex + 1).Some? ==>
            r == Err(ArrayFault(words, offsetIndex, offsetIndex + 1).value))
      && (ArrayFault(words, offsetIndex, offsetIndex + 1).None? ==>
            r == Decimals(ElementWords(words, offsetIndex, offsetIndex + 1)))
  {
    if offsetIndex == UINT64_MAX {
      return Err(OffsetIndexTooLarge);
    }
    r := DecodeUintArray(data, offsetIndex, offsetIndex + 1);
  }

  // ----- the encoder's output -----

  lemma NibblesOfSlice(data: seq<byte>, from: nat, to: nat)
    requires from <= to <= |data|
    ensures Nibbles(data)[2 * from..2 * to] == Nibbles(data[from..to])
  {
    hide Nibbles;
    ThreeParts(data, from, to);
    SliceOfThree(data, data[..from], data[from..to], data[to..], 2 * from, 2 * to);
  }

  lemma ThreeParts(data: seq<byte>, from: nat, to: nat)
    requires from <= to <= |data|
    ensures data == data[..from] + (data[from..to] + data[to..])
  {
  }

  lemma SliceOfThree(data: seq<byte>, a: seq<byte>, b: seq<byte>, c: seq<byte>, low: nat, high: nat)
    requires data == a + (b + c) && low == 2 * |a| && high == low + 2 * |b|
    ensures Nibbles(data)[low..high] == Nibbles(b)
  {
    hide Nibbles;
    NibblesJoin(a, b + c);
    NibblesJoin(b, c);
    Middle(Nibbles(a), Nibbles(b), Nibbles(c), low, high);
  }

  lemma Middle(a: seq<nat>, b: seq<nat>, c: seq<nat>, low: nat, high: nat)
    requires low == |a| && high == |a| + |b|
    ensures (a + (b + c))[low..high] == b
  {
  }

  lemma TextOfSlice(d: seq<nat>, from: nat, to: nat)
    requires AreDigits(16, d) && from <= to <= |d|
    ensures DigitsText(d)[from..to] == DigitsText(d[from..to])
  {
    var part := DigitsText(d[from..to]);
    forall i | 0 <= i < to - from ensures DigitsText(d)[from..to][i] == part[i] {
      assert part[i] == HexChar(d[from..to][i]);
    }
  }

  /** Word i of the text is the text of word i. */
  lemma WordTextAt(data: seq<byte>, i: nat)
    requires WORD * i + WORD <= |data|
    ensures var hex := DigitsText(Nibbles(data));
      i < |WordTexts(hex)| && WordTexts(hex)[i] == "0x" + DigitsText(Nibbles(data[WORD * i..WORD * i + WORD]))
  {
    hide Nibbles, DigitsText;
    NibblesOfSlice(data, WORD * i, WORD * i + WORD);
    TextOfSlice(Nibbles(data), WORD_DIGITS * i, WORD_DIGITS * i + WORD_DIGITS);
  }

  lemma WordReads(data: seq<byte>, i: nat, word: seq<byte>)
    requires |word| == WORD && At(data, WORD * i, word)
    ensures var words := WordTexts(DigitsText(Nibbles(data)));
      && i < |words| && CanonicalWord(words[i]).Ok? && HexValue(CanonicalWord(words[i]).value) == Value(256, word)
      && (Value(256, word) <= UINT64_MAX ==> SizeOf(words[i]) == Ok(Value(256, word)))
  {
    hide Value, Nibbles, DigitsText, Pow;
    WordTextAt(data, i);
    WordTextValue(word);
  }

  lemma LengthReads(data: seq<byte>, i: nat, n: nat)
    requires n <= UINT64_MAX && At(data, WORD * i, LengthWord(n))
    ensures var words := WordTexts(DigitsText(Nibbles(data)));
      i < |words| && SizeOf(words[i]) == Ok(n)
  {
    LengthWordIs(n);
    FixedIsValue(256, n, WORD);
    WordReads(data, i, LengthWord(n));
  }

  predicate UintArray(v: AbiValue) {
    v.Array? && forall i :: 0 <= i < |v.elements| ==> v.elements[i].Word? && |v.elements[i].bytes| == WORD
  }

  lemma {:induction false} WordHeads(values: seq<AbiValue>)
    requires forall i :: 0 <= i < |values| ==> values[i].Word? && |values[i].bytes| == WORD
    ensures HeadSize(values) == WORD * |values| && Tails(values) == []
  {
    if values != [] {
      WordHeads(values[1..]);
    }
  }

  /** The decimals of the elements, in order. */
  function ElementTexts(elements: seq<AbiValue>): (texts: seq<string>)
    requires forall i :: 0 <= i < |elements| ==> elements[i].Word?
    ensures |texts| == |elements|
  {
    seq(|elements|, i requires 0 <= i < |elements| => DecimalText(Value(256, elements[i].bytes)))
  }

  lemma {:induction false} DecimalsAre(words: seq<string>, elements: seq<AbiValue>)
    requires |words| == |elements| && forall i :: 0 <= i < |elements| ==> elements[i].Word?
    requires forall i :: 0 <= i < |words| ==>
      CanonicalWord(words[i]).Ok? && HexValue(CanonicalWord(words[i]).value) == Value(256, elements[i].bytes)
    ensures Decimals(words) == Ok(ElementTexts(elements))
  {
    hide WithoutPrefix, DecimalText, Value, IsHex;
    if words != [] {
      var n := |words| - 1;
      DecimalsAre(words[..n], elements[..n]);
      assert ElementTexts(elements) == ElementTexts(elements[..n]) + [DecimalText(Value(256, elements[n].bytes))];
    }
  }

  lemma PrefixIsAligned(values: seq<AbiValue>, k: nat)
    requires k < |values| && AllSized(values)
    ensures HeadOf(values, k) % WORD == 0 && TailOf(values, k) % WORD == 0 && HeadSize(values) % WORD == 0
  {
    hide Encode, IsDynamic, Sized, HeadSize, Tails;
    PartsAreAligned(values[..k]);
    PartsAreAligned(values);
    SumIsAligned(HeadSize(values), |Tails(values[..k])|);
  }

  lemma {:induction false} HeadFits(values: seq<AbiValue>, k: nat)
    requires k < |values| && IsDynamic(values[k])
    ensures HeadOf(values, k) + WORD <= HeadSize(values)
  {
    PrefixParts(values, k);
    if k > 0 {
      HeadFits(values[1..], k - 1);
    }
  }

  /** Where the pieces of an encoded uint array stand. */
  lemma ArrayLayout(values: seq<AbiValue>, k: nat, data: seq<byte>)
    requires k < |values| && AllSized(values) && UintArray(values[k]) && data == EncodeSequence(values)
    ensures var at := TailOf(values, k);
      var elements := values[k].elements;
      && At(data, HeadOf(values, k), LengthWord(at)) && at + WORD + WORD * |elements| <= |data|
      && At(data, at, LengthWord(|elements|))
      && forall j :: 0 <= j < |elements| ==> At(data, at + WORD + WORD * j, elements[j].bytes)
  {
    hide LengthWord, Heads, Tails, HeadSize, Sized;
    var at, elements := TailOf(values, k), values[k].elements;
    assert data[0..|data|] == data;
    SequenceAt(values, data, 0);
    OffsetsPointAtTails(values, k, data, 0, 0, HeadSize(values));
    AtParts(data, at, LengthWord(|elements|), EncodeSequence(elements));
    ElementsLaidOut(elements, data, at + WORD);
  }

  lemma ElementsLaidOut(elements: seq<AbiValue>, data: seq<byte>, base: nat)
    requires forall j :: 0 <= j < |elements| ==> elements[j].Word? && |elements[j].bytes| == WORD
    requires At(data, base, EncodeSequence(elements))
    ensures base + WORD * |elements| <= |data|
    ensures forall j :: 0 <= j < |elements| ==> At(data, base + WORD * j, elements[j].bytes)
  {
    hide LengthWord, Heads, Tails, HeadSize;
    WordHeads(elements);
    HeadsSize(elements, HeadSize(elements));
    SequenceAt(elements, data, base);
    forall j | 0 <= j < |elements| ensures At(data, base + WORD * j, elements[j].bytes) {
      OffsetsPointAtTails(elements, j, data, base, base, HeadSize(elements));
      WordHeads(elements[..j]);
    }
  }

  lemma NoFault(words: seq<string>, offsetIndex: nat, headCount: nat, at: nat, n: nat)
    requires offsetIndex < headCount <= |words| && SizeOf(words[offsetIndex]) == Ok(at) && at % WORD == 0
    requires headCount <= at / WORD < |words| && SizeOf(words[at / WORD]) == Ok(n) && at / WORD + 1 + n <= |words|
    ensures ArrayFault(words, offsetIndex, headCount).None?
    ensures ElementWords(words, offsetIndex, headCount) == words[at / WORD + 1..at / WORD + 1 + n]
  {
    hide SizeOf;
  }

  /** The words behind a length word read as the elements. */
  lemma ElementsRead(data: seq<byte>, at: nat, elements: seq<AbiValue>)
    requires at % WORD == 0 && at + WORD + WORD * |elements| <= |data|
    requires forall j :: 0 <= j < |elements| ==> elements[j].Word? && |elements[j].bytes| == WORD
    requires forall j :: 0 <= j < |elements| ==> At(data, at + WORD + WORD * j, elements[j].bytes)
    ensures var words := WordTexts(DigitsText(Nibbles(data)));
      && at / WORD + 1 + |elements| <= |words|
      && Decimals(words[at / WORD + 1..at / WORD + 1 + |elements|]) == Ok(ElementTexts(elements))
  {
    hide WordTexts, SizeOf, Nibbles, DigitsText, Value, Pow, Decimals, ElementTexts, At, HexValue;
    var words := WordTexts(DigitsText(Nibbles(data)));
    var first, n := at / WORD + 1, |elements|;
    CountWords(data);
    var read := words[first..first + n];
    forall j | 0 <= j < n
      ensures CanonicalWord(read[j]).Ok? && HexValue(CanonicalWord(read[j]).value) == Value(256, elements[j].bytes)
    {
      assert WORD * (first + j) == at + WORD + WORD * j;
      WordReads(data, first + j, elements[j].bytes);
    }
    DecimalsAre(read, elements);
  }

  lemma ArrayIsRead(values: seq<AbiValue>, k: nat, data: seq<byte>)
    requires k < |values| && AllSized(values) && UintArray(values[k]) && data == EncodeSequence(values)
    ensures var words := WordTexts(DigitsText(Nibbles(data)));
      var offsetIndex, headCount := HeadOf(values, k) / WORD, HeadSize(values) / WORD;
      && ArrayFault(words, offsetIndex, headCount).None?
      && Decimals(ElementWords(words, offsetIndex, headCount)) == Ok(ElementTexts(values[k].elements))
  {
    hide LengthWord, Encode, HeadSize, Tails, Heads, WordTexts, CanonicalWord, SizeOf, Nibbles, DigitsText, Value, Pow;
    hide Sized, EncodeSequence, HeadOf, Decimals, ElementTexts, At, ArrayFault, ElementWords, AllSized;
    var words := WordTexts(DigitsText(Nibbles(data)));
    var at, elements := TailOf(values, k), values[k].elements;
    ArrayLayout(values, k, data);
    PrefixIsAligned(values, k);
    HeadFits(values, k);
    SequenceFits(values, k);
    ArrayInWords(data, HeadOf(values, k), HeadSize(values), at, elements);
  }

  /** An array of words laid out in aligned data, with its offset in the heads. */
  lemma ArrayInWords(data: seq<byte>, head: nat, heads: nat, at: nat, elements: seq<AbiValue>)
    requires head % WORD == 0 && heads % WORD == 0 && at % WORD == 0 && head + WORD <= heads <= at
    requires at <= UINT64_MAX && |elements| <= UINT64_MAX
    requires At(data, head, LengthWord(at)) && At(data, at, LengthWord(|elements|))
    requires at + WORD + WORD * |elements| <= |data|
    requires forall j :: 0 <= j < |elements| ==> elements[j].Word? && |elements[j].bytes| == WORD
    requires forall j :: 0 <= j < |elements| ==> At(data, at + WORD + WORD * j, elements[j].bytes)
    ensures var words := WordTexts(DigitsText(Nibbles(data)));
      && ArrayFault(words, head / WORD, heads / WORD).None?
      && Decimals(ElementWords(words, head / WORD, heads / WORD)) == Ok(ElementTexts(elements))
  {
    hide LengthWord, WordTexts, CanonicalWord, SizeOf, Nibbles, DigitsText, Value, Pow;
    hide Decimals, ElementTexts, At, ArrayFault, ElementWords;
    var h, c, p := head / WORD, heads / WORD, at / WORD;
    WordPlaces(head, heads, at, |elements|, |data|);
    LengthReads(data, h, at);
    LengthReads(data, p, |elements|);
    CountWords(data);
    ElementsRead(data, at, elements);
    ReadsFrom(WordTexts(DigitsText(Nibbles(data))), h, c, at, |elements|, Ok(ElementTexts(elements)));
  }

  lemma ReadsFrom(words: seq<string>, offsetIndex: nat, headCount: nat, at: nat, n: nat,
                  read: Result<seq<string>, DecodeError>)
    requires offsetIndex < headCount <= |words| && SizeOf(words[offsetIndex]) == Ok(at) && at % WORD == 0
    requires headCount <= at / WORD < |words| && SizeOf(words[at / WORD]) == Ok(n) && at / WORD + 1 + n <= |words|
    requires Decimals(words[at / WORD + 1..at / WORD + 1 + n]) == read
    ensures ArrayFault(words, offsetIndex, headCount).None?
    ensures Decimals(ElementWords(words, offsetIndex, headCount)) == read
  {
    hide SizeOf, Decimals, ArrayFault, ElementWords;
    NoFault(words, offsetIndex, headCount, at, n);
  }

  lemma WordPlaces(head: nat, heads: nat, at: nat, n: nat, size: nat)
    requires head % WORD == 0 && heads % WORD == 0 && at % WORD == 0 && head + WORD <= heads <= at
    requires at + WORD + WORD * n <= size
    ensures head == WORD * (head / WORD) && at == WORD * (at / WORD)
    ensures head / WORD < heads / WORD <= at / WORD && at / WORD + 1 + n <= size / WORD
  {
  }

  lemma SequenceFits(values: seq<AbiValue>, k: nat)
    requires k < |values| && AllSized(values) && values[k].Array?
    ensures |values[k].elements| <= UINT64_MAX
    ensures HeadSize(values) <= |EncodeSequence(values)| && TailOf(values, k) <= UINT64_MAX
  {
    HeadsSize(values, HeadSize(values));
    TailsGrow(values, k);
    assert Sized(values[k]);
  }

  lemma {:induction false} TailsGrow(values: seq<AbiValue>, k: nat)
    requires k <= |values|
    ensures |Tails(values[..k])| <= |Tails(values)|
  {
    if k == |values| {
      assert values[..k] == values;
    } else if k > 0 {
      PrefixParts(values, k);
      TailsGrow(values[1..], k - 1);
    }
  }

  lemma CountWords(data: seq<byte>)
    ensures |WordTexts(DigitsText(Nibbles(data)))| == |data| / WORD
  {
  }

  lemma WholeHead(values: seq<AbiValue>)
    ensures HeadOf(values, |values|) == HeadSize(values)
  {
    assert values[..|values|] == values;
  }

  /** Any parameter list that holds a uint array: the decoder, given the place of the array's head and the size of
      all heads, reads the elements back in order. */
  method DecodeEncodedArray(values: seq<AbiValue>, k: nat) returns (r: Result<seq<string>, DecodeError>)
    requires k < |values| && AllSized(values) && UintArray(values[k])
    ensures r == Ok(ElementTexts(values[k].elements))
  {
    hide Nibbles, DigitsText, WordTexts, EncodeSequence, ElementTexts, ArrayFault, ElementWords, Decimals, HeadOf;
    hide UintArray, Sized;
    var data := EvmAbiEncode(values);
    var text := ToHex(data);
    var headBytes := HeadBytes(values, k);
    var allHeads := HeadBytes(values, |values|);
    WholeHead(values);
    assert WithoutPrefix(text) == DigitsText(Nibbles(data));
    SequenceIsAligned(values);
    ArrayIsRead(values, k, data);
    r := DecodeUintArray(text, headBytes / WORD, allHeads / WORD);
  }

  /** The size of the first heads. */
  method HeadBytes(values: seq<AbiValue>, k: nat) returns (size: nat)
    requires k <= |values| && AllSized(values)
    ensures size == HeadOf(values, k)
  {
    size := 0;
    for i := 0 to k
      invariant HeadOf(values, k) == size + HeadSize(values[..k][i..])
    {
      assert values[..k][i..][0] == values[i] && values[..k][i..][1..] == values[..k][i + 1..];
      var dynamic := DecideDynamic(values[i]);
      var bytes := AppendEncoding(values[i], []);
      size := size + if dynamic then WORD else |bytes|;
    }
  }
}
