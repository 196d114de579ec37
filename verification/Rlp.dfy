/** Recursive length prefix encoding (src/evm_rlp.cpp), and the decoder that undoes it (Ethereum Yellow Paper,
    Appendix B). */
module Rlp {
  import opened Wrappers
  import opened Arithmetic
  import opened Digits
  import opened HexText

  datatype Item = Text(bytes: seq<byte>) | List(items: seq<Item>)

  // ----- the encoding -----

  /** A length, big-endian and without leading zeros. */
  function LengthBytes(length: nat): (bytes: seq<byte>)
    ensures Value(256, bytes) == length && |bytes| == |Minimal(256, length)|
  {
    MinimalIsShort(256, length);
    Minimal(256, length)
  }

  lemma LengthIsShort(length: nat)
    requires length <= UINT64_MAX
    ensures |LengthBytes(length)| <= 8
    ensures length > 0 ==> |LengthBytes(length)| >= 1
  {
    MinimalFits(256, length, 8);
    PowAdds(256, 4, 4);
    assert Pow(256, 4) == 4_294_967_296;
    MinimalIsShort(256, length);
  }

  function Header(shortBase: nat, longBase: nat, length: nat): (h: seq<byte>)
    requires shortBase + 55 < 256 && longBase + 8 < 256 && length <= UINT64_MAX
    ensures h != []
  {
    if length < 56 then [shortBase + length]
    else
      LengthIsShort(length);
      [longBase + |LengthBytes(length)|] + LengthBytes(length)
  }

  function EncodeBytes(bytes: seq<byte>): (code: seq<byte>)
    requires |bytes| <= UINT64_MAX
    ensures code != []
  {
    if |bytes| == 1 && bytes[0] < 0x80 then bytes else Header(0x80, 0xb7, |bytes|) + bytes
  }

  function EncodePayload(payload: seq<byte>): (code: seq<byte>)
    requires |payload| <= UINT64_MAX
    ensures code != []
  {
    Header(0xc0, 0xf7, |payload|) + payload
  }

  /** Every payload has a length of 64 bits. */
  predicate Fits(item: Item)
    decreases item, 0
  {
    match item
    case Text(bytes) => |bytes| <= UINT64_MAX
    case List(items) => AllFit(items) && |EncodeAll(items)| <= UINT64_MAX
  }

  predicate AllFit(items: seq<Item>)
    decreases items, 0
  {
    forall i :: 0 <= i < |items| ==> Fits(items[i])
  }

  function Encode(item: Item): (code: seq<byte>)
    requires Fits(item)
    ensures code != []
    decreases item, 1
  {
    match item
    case Text(bytes) => EncodeBytes(bytes)
    case List(items) => EncodePayload(EncodeAll(items))
  }

  function EncodeAll(items: seq<Item>): seq<byte>
    requires AllFit(items)
    decreases items, 1
  {
    if items == [] then [] else Encode(items[0]) + EncodeAll(items[1..])
  }

  // ----- the source's byte vectors -----

  method MinimalLengthBytes(length: nat) returns (bytes: seq<byte>)
    ensures bytes == LengthBytes(length)
  {
    bytes := [];
    var rest := length;
    while rest != 0
      invariant Minimal(256, length) == Minimal(256, rest) + bytes
      decreases rest
    {
      bytes := [rest % 256] + bytes;
      rest := rest / 256;
    }
  }

  method WithHeader(shortBase: nat, longBase: nat, payload: seq<byte>) returns (out: seq<byte>)
    requires shortBase + 55 < 256 && longBase + 8 < 256 && |payload| <= UINT64_MAX
    ensures out == Header(shortBase, longBase, |payload|) + payload
  {
    out := [];
    if |payload| < 56 {
      out := out + [shortBase + |payload|];
    } else {
      var length := MinimalLengthBytes(|payload|);
      LengthIsShort(|payload|);
      out := out + [longBase + |length|];
      out := out + length;
    }
    out := out + payload;
  }

  method RlpEncodeBytes(bytes: seq<byte>) returns (out: seq<byte>)
    requires |bytes| <= UINT64_MAX
    ensures out == EncodeBytes(bytes)
  {
    if |bytes| == 1 && bytes[0] < 0x80 {
      return [bytes[0]];
    }
    out := WithHeader(0x80, 0xb7, bytes);
  }

  /** The integer without its leading zero bytes. */
  method RlpEncodeUint(bigEndian: seq<byte>) returns (out: seq<byte>)
    requires |bigEndian| <= UINT64_MAX
    ensures |LengthBytes(Value(256, bigEndian))| <= |bigEndian|
    ensures out == EncodeBytes(LengthBytes(Value(256, bigEndian)))
  {
    var first := 0;
    while first < |bigEndian| && bigEndian[first] == 0
      invariant first <= |bigEndian| && Stripped(bigEndian) == Stripped(bigEndian[first..])
    {
      assert bigEndian[first..][1..] == bigEndian[first + 1..];
      first := first + 1;
    }
    StrippedIsMinimal(256, bigEndian);
    assert bigEndian[first..] == Stripped(bigEndian);
    out := RlpEncodeBytes(bigEndian[first..]);
  }

  method RlpEncodeList(encodedItems: seq<seq<byte>>) returns (out: seq<byte>)
    requires |Join(encodedItems)| <= UINT64_MAX
    ensures out == EncodePayload(Join(encodedItems))
  {
    var payload: seq<byte> := [];
    for i := 0 to |encodedItems|
      invariant payload == Join(encodedItems[..i])
    {
      assert encodedItems[..i + 1][..i] == encodedItems[..i];
      payload := payload + encodedItems[i];
    }
    assert encodedItems[..|encodedItems|] == encodedItems;
    out := WithHeader(0xc0, 0xf7, payload);
  }

  // ----- the decoder -----

  datatype Block = Block(isList: bool, payload: seq<byte>, rest: seq<byte>)

  /** The first item of an input: its kind, its payload and what follows it. Only the canonical form is accepted: the
      shortest header, no leading zeros in a length, and no header in front of a byte below 0x80. */
  function Split(input: seq<byte>): (b: Option<Block>)
    ensures b.Some? ==> |b.value.rest| < |input|
    ensures b.Some? && b.value.isList ==> |b.value.payload| < |input|
  {
    if input == [] then None
    else if input[0] < 0x80 then Some(Block(false, [input[0]], input[1..]))
    else
      var isList := input[0] >= 0xc0;
      var short := if isList then 0xc0 else 0x80;
      var long := short + 55;
      var lengthSize := if input[0] <= long then 0 else input[0] - long;
      if 1 + lengthSize > |input| then None
      else
        var length := if lengthSize == 0 then input[0] - short else Value(256, input[1..1 + lengthSize]);
        var start := 1 + lengthSize;
        if start + length > |input| then None
        else if lengthSize > 0 && (input[1] == 0 || length < 56) then None
        else if !isList && length == 1 && input[start] < 0x80 then None
        else Some(Block(isList, input[start..start + length], input[start + length..]))
  }

  datatype Decoded = Decoded(item: Item, rest: seq<byte>)

  function Decode(input: seq<byte>): (d: Option<Decoded>)
    ensures d.Some? ==> |d.value.rest| < |input|
    decreases |input|, 0
  {
    match Split(input)
    case None => None
    case Some(b) =>
      if !b.isList then Some(Decoded(Text(b.payload), b.rest))
      else
        match DecodeAll(b.payload)
        case None => None
        case Some(items) => Some(Decoded(List(items), b.rest))
  }

  function DecodeAll(input: seq<byte>): Option<seq<Item>>
    decreases |input|, 1
  {
    if input == [] then Some([])
    else
      match Decode(input)
      case None => None
      case Some(first) =>
        match DecodeAll(first.rest)
        case None => None
        case Some(items) => Some([first.item] + items)
  }

  lemma SplitHeader(isList: bool, payload: seq<byte>, suffix: seq<byte>)
    requires |payload| <= UINT64_MAX && (!isList && |payload| == 1 ==> payload[0] >= 0x80)
    ensures var short := if isList then 0xc0 else 0x80;
      Split(Header(short, short + 55, |payload|) + payload + suffix) == Some(Block(isList, payload, suffix))
  {
    var short := if isList then 0xc0 else 0x80;
    var h := Header(short, short + 55, |payload|);
    var input := h + payload + suffix;
    LengthIsShort(|payload|);
    assert input[0] == h[0];
    assert input[1..|h|] == h[1..];
    assert input[|h|..|h| + |payload|] == payload;
    assert input[|h| + |payload|..] == suffix;
    if |payload| >= 56 {
      MinimalIsShort(256, |payload|);
      assert input[1] == h[1];
    }
  }

  /** Decoding an encoded item followed by anything gives the item and what followed. */
  lemma {:induction false} DecodeEncoded(item: Item, suffix: seq<byte>)
    requires Fits(item)
    ensures Decode(Encode(item) + suffix) == Some(Decoded(item, suffix))
    decreases item, 1
  {
    match item
    case Text(bytes) =>
      if |bytes| == 1 && bytes[0] < 0x80 {
        assert (bytes + suffix)[1..] == suffix && [bytes[0]] == bytes;
      } else {
        SplitHeader(false, bytes, suffix);
      }
    case List(items) =>
      SplitHeader(true, EncodeAll(items), suffix);
      DecodeAllEncoded(items);
  }

  lemma {:induction false} DecodeAllEncoded(items: seq<Item>)
    requires AllFit(items)
    ensures DecodeAll(EncodeAll(items)) == Some(items)
    decreases items, 0
  {
    if items != [] {
      DecodeEncoded(items[0], EncodeAll(items[1..]));
      DecodeAllEncoded(items[1..]);
      assert items == [items[0]] + items[1..];
    }
  }

  /** No encoding is the beginning of another, and none is shared. */
  lemma EncodingIsPrefixFree(a: Item, b: Item, x: seq<byte>, y: seq<byte>)
    requires Fits(a) && Fits(b) && Encode(a) + x == Encode(b) + y
    ensures a == b && x == y
  {
    DecodeEncoded(a, x);
    DecodeEncoded(b, y);
  }

  // ----- only encodings are decoded -----

  /** A length that was read from n bytes is written with the same bytes. */
  lemma LengthIsRead(digits: seq<byte>)
    requires digits != [] && digits[0] != 0 && |digits| <= 8
    ensures Value(256, digits) <= UINT64_MAX && LengthBytes(Value(256, digits)) == digits
  {
    MinimalIsUnique(256, digits);
    ValueBound(256, digits);
    PowGrows(256, |digits|, 8);
    PowAdds(256, 4, 4);
    assert Pow(256, 4) == 4_294_967_296;
  }

  lemma LongHeaderIs(input: seq<byte>, short: nat, n: nat, length: nat, payload: seq<byte>, rest: seq<byte>)
    requires short + 55 + 8 < 256 && 0 < n <= 8 && n < |input| && input[0] == short + 55 + n && input[1] != 0
    requires length == Value(256, input[1..1 + n]) && length == |payload| && 56 <= length
    requires input[1 + n..] == payload + rest
    ensures length <= UINT64_MAX && input == Header(short, short + 55, length) + payload + rest
  {
    var digits := input[1..1 + n];
    LengthIsRead(digits);
    hide Value, Minimal;
    assert Header(short, short + 55, length) == [input[0]] + digits;
    assert input == [input[0]] + digits + input[1 + n..];
  }

  /** The header that was read is the one the encoder writes for the payload. */
  lemma HeaderIs(input: seq<byte>)
    requires Split(input).Some? && input[0] >= 0x80
    ensures var b := Split(input).value;
      var short := if b.isList then 0xc0 else 0x80;
      && |b.payload| <= UINT64_MAX
      && input == Header(short, short + 55, |b.payload|) + b.payload + b.rest
  {
    hide Value;
    var b := Split(input).value;
    var short := if b.isList then 0xc0 else 0x80;
    if input[0] <= short + 55 {
      assert |b.payload| == input[0] - short;
      assert input == [input[0]] + b.payload + b.rest;
    } else {
      var n := input[0] - short - 55;
      assert input[1 + n..] == b.payload + b.rest;
      LongHeaderIs(input, short, n, |b.payload|, b.payload, b.rest);
    }
  }

  lemma SplitIsEncoded(input: seq<byte>)
    requires Split(input).Some?
    ensures var b := Split(input).value;
      && |b.payload| <= UINT64_MAX
      && input == (if b.isList then EncodePayload(b.payload) else EncodeBytes(b.payload)) + b.rest
  {
    if input[0] < 0x80 {
      assert input == [input[0]] + input[1..];
    } else {
      HeaderIs(input);
    }
  }

  /** The decoder accepts nothing but encodings: what it read, encoded again, is what it was given. */
  lemma {:induction false} DecodedIsEncoded(input: seq<byte>)
    requires Decode(input).Some?
    ensures var d := Decode(input).value; Fits(d.item) && input == Encode(d.item) + d.rest
    decreases |input|, 0
  {
    SplitIsEncoded(input);
    var b := Split(input).value;
    if b.isList {
      DecodedAllIsEncoded(b.payload);
    }
  }

  lemma {:induction false} DecodedAllIsEncoded(input: seq<byte>)
    requires DecodeAll(input).Some?
    ensures AllFit(DecodeAll(input).value) && input == EncodeAll(DecodeAll(input).value)
    decreases |input|, 1
  {
    if input != [] {
      var first := Decode(input).value;
      DecodedIsEncoded(input);
      DecodedAllIsEncoded(first.rest);
      var items := DecodeAll(first.rest).value;
      assert ([first.item] + items)[1..] == items;
    }
  }

  /** Every item has one encoding, and the canonical reading of an input as that item is decoding it. */
  lemma DecodeIff(item: Item, input: seq<byte>)
    requires Fits(item)
    ensures Decode(input) == Some(Decoded(item, [])) <==> input == Encode(item)
  {
    assert Encode(item) + [] == Encode(item);
    DecodeEncoded(item, []);
    if Decode(input) == Some(Decoded(item, [])) {
      DecodedIsEncoded(input);
    }
  }
}
