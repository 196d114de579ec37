/** Head/tail encoding of nested values (src/evm_abi.cpp), and the type-directed decoder that undoes it (Solidity
    Contract ABI Specification, section "Formal Specification of the Encoding"). */
module Abi {
  import opened Wrappers
  import opened Arithmetic
  import opened Digits
  import opened HexText
  import opened Uint256

  /** EvmAbiValue: a word of 32 bytes, dynamic bytes, a dynamic array or a tuple. */
  datatype AbiValue =
    | Word(bytes: seq<byte>)
    | Bytes(data: seq<byte>)
    | Array(elements: seq<AbiValue>)
    | Tuple(members: seq<AbiValue>)

  predicate IsDynamic(v: AbiValue) {
    match v
    case Word(_) => false
    case Bytes(_) => true
    case Array(_) => true
    case Tuple(members) => exists i :: 0 <= i < |members| && IsDynamic(members[i])
  }

  /** A length or an offset as a word. */
  function LengthWord(n: nat): (word: seq<byte>)
    ensures |word| == WORD
    ensures n < Pow(256, WORD) ==> Value(256, word) == n
  {
    PowPositive(256, WORD);
    var d := Fixed(256, n % Pow(256, WORD), WORD);
    FixedIsValue(256, n % Pow(256, WORD), WORD);
    if n < Pow(256, WORD) then
      DivisionIs(n, Pow(256, WORD), 0, n);
      d
    else d
  }

  function Padding(n: nat): (zeros: seq<byte>)
    ensures |zeros| < WORD && (n + |zeros|) % WORD == 0
  {
    seq(if n % WORD == 0 then 0 else WORD - n % WORD, i => 0)
  }

  function Encode(v: AbiValue): seq<byte>
    decreases v, 0
  {
    match v
    case Word(bytes) => bytes
    case Bytes(data) => LengthWord(|data|) + (data + Padding(|data|))
    case Array(elements) => LengthWord(|elements|) + EncodeSequence(elements)
    case Tuple(members) => EncodeSequence(members)
  }

  /** Static members inline, dynamic members as an offset into the tail that follows all heads. */
  function EncodeSequence(values: seq<AbiValue>): seq<byte>
    decreases values, 2
  {
    Heads(values, HeadSize(values)) + Tails(values)
  }

  function HeadSize(values: seq<AbiValue>): nat
    decreases values, 1
  {
    if values == [] then 0
    else (if IsDynamic(values[0]) then WORD else |Encode(values[0])|) + HeadSize(values[1..])
  }

  function Heads(values: seq<AbiValue>, offset: nat): seq<byte>
    decreases values, 1
  {
    if values == [] then []
    else if IsDynamic(values[0]) then
      LengthWord(offset) + Heads(values[1..], offset + |Encode(values[0])|)
    else Encode(values[0]) + Heads(values[1..], offset)
  }

  function Tails(values: seq<AbiValue>): seq<byte>
    decreases values, 1
  {
    if values == [] then []
    else (if IsDynamic(values[0]) then Encode(values[0]) else []) + Tails(values[1..])
  }

  lemma {:induction false} HeadsSize(values: seq<AbiValue>, offset: nat)
    ensures |Heads(values, offset)| == HeadSize(values)
  {
    if values != [] {
      HeadsSize(values[1..], if IsDynamic(values[0]) then offset + |Encode(values[0])| else offset);
    }
  }

  // ----- the source's output buffer -----

  method DecideDynamic(v: AbiValue) returns (dynamic: bool)
    ensures dynamic == IsDynamic(v)
    decreases v
  {
    match v
    case Word(_) => return false;
    case Bytes(_) => return true;
    case Array(_) => return true;
    case Tuple(members) =>
      for i := 0 to |members|
        invariant forall j :: 0 <= j < i ==> !IsDynamic(members[j])
      {
        var member := DecideDynamic(members[i]);
        if member {
          return true;
        }
      }
      return false;
  }

  /** Counts and lengths fit the host's 64 bits. */
  predicate Sized(v: AbiValue)
    decreases v, 0
  {
    match v
    case Word(bytes) => |bytes| == WORD
    case Bytes(data) => |data| <= UINT64_MAX
    case Array(elements) => |elements| <= UINT64_MAX && AllSized(elements)
    case Tuple(members) => AllSized(members)
  }

  predicate AllSized(values: seq<AbiValue>)
    decreases values, 1
  {
    && (forall i :: 0 <= i < |values| ==> Sized(values[i]))
    && |EncodeSequence(values)| <= UINT64_MAX
  }

  method AppendEncoding(v: AbiValue, out: seq<byte>) returns (r: seq<byte>)
    requires Sized(v)
    ensures r == out + Encode(v)
    decreases v, 0
  {
    match v
    case Word(bytes) =>
      r := out + bytes;
    case Bytes(data) =>
      var length := Uint256Word(|data|);
      LengthWordIs(|data|);
      r := AppendPadded(out + length, data);
      assert r == out + (length + (data + Padding(|data|)));
    case Array(elements) =>
      var length := Uint256Word(|elements|);
      LengthWordIs(|elements|);
      r := AppendSequence(elements, out + length);
      assert r == out + (length + EncodeSequence(elements));
    case Tuple(members) =>
      r := AppendSequence(members, out);
  }

  lemma LengthWordIs(n: nat)
    requires n <= UINT64_MAX
    ensures n < Pow(256, WORD) && LengthWord(n) == Fixed(256, n, WORD)
  {
    Pow64();
    DivisionIs(n, Pow(256, WORD), 0, n);
  }

  method AppendPadded(out: seq<byte>, data: seq<byte>) returns (r: seq<byte>)
    ensures r == out + data + Padding(|data|)
  {
    r := out + data;
    var remainder := |data| % WORD;
    if remainder != 0 {
      r := r + seq(WORD - remainder, i => 0);
    }
    assert r == out + data + Padding(|data|);
  }

  /** append_sequence: encode every member, lay out the heads, then the tails. */
  method AppendSequence(values: seq<AbiValue>, out: seq<byte>) returns (r: seq<byte>)
    requires AllSized(values)
    ensures r == out + EncodeSequence(values)
    decreases values, 1
  {
    var encoded: seq<seq<byte>> := [];
    var headSize: nat := 0;
    for i := 0 to |values|
      invariant |encoded| == i && forall j :: 0 <= j < i ==> encoded[j] == Encode(values[j])
      invariant HeadSize(values) == headSize + HeadSize(values[i..])
    {
      var bytes := AppendEncoding(values[i], []);
      assert bytes == Encode(values[i]);
      assert values[i..][0] == values[i] && values[i..][1..] == values[i + 1..];
      var dynamic := DecideDynamic(values[i]);
      headSize := headSize + if dynamic then WORD else |bytes|;
      encoded := encoded + [bytes];
    }
    assert headSize == HeadSize(values);
    HeadsSize(values, headSize);
    r := AppendHeads(values, encoded, headSize, out);
    r := AppendTails(values, encoded, r);
    assert r == out + (Heads(values, headSize) + Tails(values));
  }

  method AppendHeads(values: seq<AbiValue>, encoded: seq<seq<byte>>, headSize: nat, out: seq<byte>)
    returns (r: seq<byte>)
    requires |encoded| == |values| && forall j :: 0 <= j < |values| ==> encoded[j] == Encode(values[j])
    requires headSize + |Tails(values)| <= UINT64_MAX
    ensures r == out + Heads(values, headSize)
  {
    r := out;
    hide LengthWord, IsDynamic;
    var tailOffset: nat := headSize;
    for i := 0 to |values|
      invariant out + Heads(values, headSize) == r + Heads(values[i..], tailOffset)
      invariant tailOffset + |Tails(values[i..])| == headSize + |Tails(values)|
    {
      assert values[i..][0] == values[i] && values[i..][1..] == values[i + 1..];
      var dynamic := DecideDynamic(values[i]);
      if dynamic {
        var offset := Uint256Word(tailOffset);
        LengthWordIs(tailOffset);
        assert r + (offset + Heads(values[i + 1..], tailOffset + |encoded[i]|))
            == (r + offset) + Heads(values[i + 1..], tailOffset + |encoded[i]|);
        r := r + offset;
        tailOffset := tailOffset + |encoded[i]|;
      } else {
        assert r + (encoded[i] + Heads(values[i + 1..], tailOffset))
            == (r + encoded[i]) + Heads(values[i + 1..], tailOffset);
        r := r + encoded[i];
      }
    }
  }

  method AppendTails(values: seq<AbiValue>, encoded: seq<seq<byte>>, out: seq<byte>) returns (r: seq<byte>)
    requires |encoded| == |values| && forall j :: 0 <= j < |values| ==> encoded[j] == Encode(values[j])
    ensures r == out + Tails(values)
  {
    r := out;
    for i := 0 to |values|
      invariant out + Tails(values) == r + Tails(values[i..])
    {
      assert values[i..][0] == values[i] && values[i..][1..] == values[i + 1..];
      var dynamic := DecideDynamic(values[i]);
      if dynamic {
        assert r + (encoded[i] + Tails(values[i + 1..])) == (r + encoded[i]) + Tails(values[i + 1..]);
        r := r + encoded[i];
      }
    }
  }

  /** evm_abi_encode. */
  method EvmAbiEncode(values: seq<AbiValue>) returns (out: seq<byte>)
    requires AllSized(values)
    ensures out == EncodeSequence(values)
  {
    out := AppendSequence(values, []);
  }

  // ----- lengths and offsets -----

  lemma {:induction false} EncodingIsAligned(v: AbiValue)
    requires Sized(v)
    ensures |Encode(v)| % WORD == 0
    decreases v, 0
  {
    hide LengthWord, EncodeSequence, Heads, Tails, HeadSize;
    match v
    case Word(_) =>
    case Bytes(data) =>
      assert |Encode(v)| == WORD + (|data| + |Padding(|data|)|);
      SumIsAligned(WORD, |data| + |Padding(|data|)|);
    case Array(elements) =>
      SequenceIsAligned(elements);
      SumIsAligned(WORD, |EncodeSequence(elements)|);
    case Tuple(members) => SequenceIsAligned(members);
  }

  lemma SequenceIsAligned(values: seq<AbiValue>)
    requires forall i :: 0 <= i < |values| ==> Sized(values[i])
    ensures |EncodeSequence(values)| % WORD == 0 && HeadSize(values) % WORD == 0
    decreases values, 2
  {
    hide Heads, Tails, HeadSize, Encode, Sized;
    HeadsSize(values, HeadSize(values));
    PartsAreAligned(values);
    SumIsAligned(HeadSize(values), |Tails(values)|);
  }

  lemma SumIsAligned(a: nat, b: nat)
    requires a % WORD == 0 && b % WORD == 0
    ensures (a + b) % WORD == 0
  {
  }

  lemma {:induction false} PartsAreAligned(values: seq<AbiValue>)
    requires forall i :: 0 <= i < |values| ==> Sized(values[i])
    ensures HeadSize(values) % WORD == 0 && |Tails(values)| % WORD == 0
    decreases values, 1
  {
    hide LengthWord, EncodeSequence, Heads, Encode, IsDynamic, Sized;
    if values != [] {
      EncodingIsAligned(values[0]);
      PartsAreAligned(values[1..]);
      SumIsAligned(if IsDynamic(values[0]) then WORD else |Encode(values[0])|, HeadSize(values[1..]));
      SumIsAligned(|Encode(values[0])|, |Tails(values[1..])|);
    }
  }

  /** Where the head of member k stands, and where its tail begins. */
  function HeadOf(values: seq<AbiValue>, k: nat): nat
    requires k <= |values|
  {
    HeadSize(values[..k])
  }

  function TailOf(values: seq<AbiValue>, k: nat): nat
    requires k <= |values|
  {
    HeadSize(values) + |Tails(values[..k])|
  }

  predicate At(data: seq<byte>, at: nat, part: seq<byte>) {
    at + |part| <= |data| && data[at..at + |part|] == part
  }

  lemma AtParts(data: seq<byte>, at: nat, a: seq<byte>, b: seq<byte>)
    requires At(data, at, a + b)
    ensures At(data, at, a) && At(data, at + |a|, b)
  {
    assert (a + b)[..|a|] == a && (a + b)[|a|..] == b;
    assert data[at..at + |a|] == data[at..at + |a + b|][..|a|];
    assert data[at + |a|..at + |a + b|] == data[at..at + |a + b|][|a|..];
  }

  /** The first member of a sequence that is laid out in data, and the layout of the others. */
  lemma FirstMember(values: seq<AbiValue>, data: seq<byte>, head: nat, tail: nat, offset: nat)
    requires values != []
    requires At(data, head, Heads(values, offset)) && At(data, tail, Tails(values))
    ensures IsDynamic(values[0]) ==>
      var size := |Encode(values[0])|;
      && At(data, head, LengthWord(offset)) && At(data, tail, Encode(values[0]))
      && At(data, head + WORD, Heads(values[1..], offset + size)) && At(data, tail + size, Tails(values[1..]))
      && |Tails(values)| == size + |Tails(values[1..])|
    ensures !IsDynamic(values[0]) ==>
      && At(data, head, Encode(values[0])) && At(data, head + |Encode(values[0])|, Heads(values[1..], offset))
      && Tails(values) == Tails(values[1..])
  {
    hide At, Encode, IsDynamic, LengthWord;
    var first, rest := values[0], values[1..];
    if IsDynamic(first) {
      AtParts(data, head, LengthWord(offset), Heads(rest, offset + |Encode(first)|));
      AtParts(data, tail, Encode(first), Tails(rest));
    } else {
      AtParts(data, head, Encode(first), Heads(rest, offset));
      assert [] + Tails(rest) == Tails(rest);
    }
  }

  lemma PrefixParts(values: seq<AbiValue>, k: nat)
    requires k < |values|
    ensures k == 0 ==> HeadOf(values, k) == 0 && Tails(values[..k]) == []
    ensures k > 0 ==>
      && HeadOf(values, k) == (if IsDynamic(values[0]) then WORD else |Encode(values[0])|) + HeadOf(values[1..], k - 1)
      && |Tails(values[..k])| == (if IsDynamic(values[0]) then |Encode(values[0])| else 0)
                                 + |Tails(values[1..][..k - 1])|
  {
    hide Encode, IsDynamic;
    if k > 0 {
      assert values[..k][0] == values[0] && values[..k][1..] == values[1..][..k - 1];
    }
  }

  /** Member k of a sequence that is laid out in data: a static one stands in the heads, a dynamic one stands at the
      offset its head holds. */
  lemma {:induction false} OffsetsPointAtTails(values: seq<AbiValue>, k: nat, data: seq<byte>, head: nat,
                                               base: nat, offset: nat)
    requires k < |values|
    requires At(data, head, Heads(values, offset)) && At(data, base + offset, Tails(values))
    ensures !IsDynamic(values[k]) ==> At(data, head + HeadOf(values, k), Encode(values[k]))
    ensures IsDynamic(values[k]) ==>
      && At(data, head + HeadOf(values, k), LengthWord(offset + |Tails(values[..k])|))
      && At(data, base + offset + |Tails(values[..k])|, Encode(values[k]))
  {
    hide At, Encode, IsDynamic, LengthWord, Heads, HeadSize, Tails;
    var first, rest := values[0], values[1..];
    var size := |Encode(first)|;
    FirstMember(values, data, head, base + offset, offset);
    PrefixParts(values, k);
    if k > 0 {
      assert values[k] == rest[k - 1];
      if IsDynamic(first) {
        OffsetsPointAtTails(rest, k - 1, data, head + WORD, base, offset + size);
      } else {
        OffsetsPointAtTails(rest, k - 1, data, head + size, base, offset);
      }
    }
  }

  /** The heads and the tails of an encoded sequence, at the places the offsets are relative to. */
  lemma SequenceAt(values: seq<AbiValue>, data: seq<byte>, base: nat)
    requires At(data, base, EncodeSequence(values))
    ensures At(data, base, Heads(values, HeadSize(values)))
    ensures At(data, base + HeadSize(values), Tails(values))
  {
    HeadsSize(values, HeadSize(values));
    AtParts(data, base, Heads(values, HeadSize(values)), Tails(values));
  }

  // ----- types -----

  datatype AbiType = WordType | BytesType | ArrayType(element: AbiType) | TupleType(members: seq<AbiType>)

  predicate DynamicType(t: AbiType) {
    match t
    case WordType => false
    case BytesType => true
    case ArrayType(_) => true
    case TupleType(members) => exists i :: 0 <= i < |members| && DynamicType(members[i])
  }

  predicate HasType(v: AbiValue, t: AbiType)
    decreases v
  {
    match t
    case WordType => v.Word? && |v.bytes| == WORD
    case BytesType => v.Bytes?
    case ArrayType(element) =>
      v.Array? && forall i :: 0 <= i < |v.elements| ==> HasType(v.elements[i], element)
    case TupleType(members) =>
      v.Tuple? && |v.members| == |members| && forall i :: 0 <= i < |members| ==> HasType(v.members[i], members[i])
  }

  predicate HaveTypes(values: seq<AbiValue>, types: seq<AbiType>) {
    |values| == |types| && forall i :: 0 <= i < |values| ==> HasType(values[i], types[i])
  }

  lemma {:induction false} TypeTellsDynamic(v: AbiValue, t: AbiType)
    requires HasType(v, t)
    ensures IsDynamic(v) <==> DynamicType(t)
    decreases v
  {
    if t.TupleType? {
      forall i | 0 <= i < |v.members| ensures IsDynamic(v.members[i]) <==> DynamicType(t.members[i]) {
        TypeTellsDynamic(v.members[i], t.members[i]);
      }
    }
  }

  /** The size of every encoded value of a static type. */
  function StaticSize(t: AbiType): nat
    decreases t
  {
    match t
    case TupleType(members) => StaticSizes(members)
    case _ => WORD
  }

  function StaticSizes(types: seq<AbiType>): nat
    decreases types
  {
    if types == [] then 0 else StaticSize(types[0]) + StaticSizes(types[1..])
  }

  lemma {:induction false} TypeTellsSize(v: AbiValue, t: AbiType)
    requires HasType(v, t) && !DynamicType(t)
    ensures |Encode(v)| == StaticSize(t)
    decreases v, 0
  {
    if t.TupleType? {
      TypesTellSize(v.members, t.members);
      HeadsSize(v.members, HeadSize(v.members));
    }
  }

  lemma {:induction false} TypesTellSize(values: seq<AbiValue>, types: seq<AbiType>)
    requires HaveTypes(values, types) && forall i :: 0 <= i < |types| ==> !DynamicType(types[i])
    ensures HeadSize(values) == StaticSizes(types) && Tails(values) == []
    decreases values, 1
  {
    if values != [] {
      TypeTellsDynamic(values[0], types[0]);
      TypeTellsSize(values[0], types[0]);
      TypesTellSize(values[1..], types[1..]);
    }
  }

  // ----- the decoder -----

  function Depth(t: AbiType): nat
    decreases t
  {
    match t
    case WordType => 0
    case BytesType => 0
    case ArrayType(element) => Depth(element) + 1
    case TupleType(members) => Depths(members) + 1
  }

  function Depths(types: seq<AbiType>): (depth: nat)
    ensures forall i :: 0 <= i < |types| ==> Depth(types[i]) <= depth
    decreases types
  {
    if types == [] then 0
    else
      var rest := Depths(types[1..]);
      assert forall i :: 0 < i < |types| ==> types[i] == types[1..][i - 1];
      if rest < Depth(types[0]) then Depth(types[0]) else rest
  }

  function WordAt(data: seq<byte>, at: nat): Option<nat> {
    if at + WORD <= |data| then Some(Value(256, data[at..at + WORD])) else None
  }

  /** Zero bytes fill up the last word of n bytes that end at a position. */
  predicate ZerosFollow(data: seq<byte>, end: nat, n: nat) {
    var missing := if n % 32 == 0 then 0 else 32 - n % 32;
    end + missing <= |data| && forall i :: end <= i < end + missing ==> data[i] == 0
  }

  lemma PaddingIsZeros(data: seq<byte>, end: nat, n: nat)
    requires At(data, end, Padding(n))
    ensures ZerosFollow(data, end, n)
  {
    var zeros := Padding(n);
    assert forall i :: end <= i < end + |zeros| ==> data[i] == data[end..end + |zeros|][i - end];
  }

  /** The value of a type whose encoding begins at a position of the data; bytes must be padded with zeros. */
  function DecodeAt(t: AbiType, data: seq<byte>, at: nat): Option<AbiValue>
    decreases Depth(t), 0, 0
  {
    match t
    case WordType => if at + WORD <= |data| then Some(Word(data[at..at + WORD])) else None
    case BytesType =>
      (match WordAt(data, at)
       case None => None
       case Some(n) =>
         if at + WORD + n <= |data| && ZerosFollow(data, at + WORD + n, n)
         then Some(Bytes(data[at + WORD..at + WORD + n])) else None)
    case ArrayType(element) =>
      (match WordAt(data, at)
       case None => None
       case Some(n) =>
         match DecodeMembers(seq(n, i => element), data, at + WORD, at + WORD, Depth(element))
         case None => None
         case Some(elements) => Some(Array(elements)))
    case TupleType(members) =>
      match DecodeMembers(members, data, at, at, Depths(members))
      case None => None
      case Some(values) => Some(Tuple(values))
  }

  /** The members of a sequence that begins at base, from the head at a position on. */
  function DecodeMembers(types: seq<AbiType>, data: seq<byte>, base: nat, head: nat, ghost depth: nat)
    : Option<seq<AbiValue>>
    requires forall i :: 0 <= i < |types| ==> Depth(types[i]) <= depth
    decreases depth, 1, |types|
  {
    if types == [] then Some([])
    else
      var first := if DynamicType(types[0]) then
                     match WordAt(data, head)
                     case None => None
                     case Some(offset) => DecodeAt(types[0], data, base + offset)
                   else DecodeAt(types[0], data, head);
      var size := if DynamicType(types[0]) then WORD else StaticSize(types[0]);
      match first
      case None => None
      case Some(v) =>
        match DecodeMembers(types[1..], data, base, head + size, depth)
        case None => None
        case Some(rest) => Some([v] + rest)
  }

  lemma WordIsAt(data: seq<byte>, at: nat, n: nat)
    requires n <= UINT64_MAX && At(data, at, LengthWord(n))
    ensures WordAt(data, at) == Some(n)
  {
    LengthWordIs(n);
    FixedIsValue(256, n, WORD);
  }

  lemma BytesAreDecoded(bytes: seq<byte>, data: seq<byte>, at: nat)
    requires |bytes| <= UINT64_MAX && At(data, at, LengthWord(|bytes|) + (bytes + Padding(|bytes|)))
    ensures DecodeAt(BytesType, data, at) == Some(Bytes(bytes))
  {
    hide LengthWord, Padding;
    AtParts(data, at, LengthWord(|bytes|), bytes + Padding(|bytes|));
    AtParts(data, at + WORD, bytes, Padding(|bytes|));
    PaddingIsZeros(data, at + WORD + |bytes|, |bytes|);
    WordIsAt(data, at, |bytes|);
  }

  /** Decoding where an encoding stands gives the encoded value. */
  lemma {:induction false} DecodeEncoded(v: AbiValue, t: AbiType, data: seq<byte>, at: nat)
    requires HasType(v, t) && Sized(v) && At(data, at, Encode(v))
    ensures DecodeAt(t, data, at) == Some(v)
    decreases v, 1
  {
    match t
    case WordType =>
    case BytesType => BytesAreDecoded(v.data, data, at);
    case ArrayType(element) =>
      AtParts(data, at, LengthWord(|v.elements|), EncodeSequence(v.elements));
      WordIsAt(data, at, |v.elements|);
      DecodeSequence(v.elements, seq(|v.elements|, i => element), data, at + WORD, Depth(element));
    case TupleType(members) =>
      DecodeSequence(v.members, members, data, at, Depths(members));
  }

  lemma DecodeSequence(values: seq<AbiValue>, types: seq<AbiType>, data: seq<byte>, base: nat, depth: nat)
    requires HaveTypes(values, types) && AllSized(values) && At(data, base, EncodeSequence(values))
    requires forall i :: 0 <= i < |types| ==> Depth(types[i]) <= depth
    ensures DecodeMembers(types, data, base, base, depth) == Some(values)
    decreases values, 2
  {
    SequenceAt(values, data, base);
    HeadsSize(values, HeadSize(values));
    DecodeHeads(values, types, data, base, base, HeadSize(values), depth);
  }

  lemma {:induction false} DecodeHeads(values: seq<AbiValue>, types: seq<AbiType>, data: seq<byte>, base: nat,
                                       head: nat, offset: nat, depth: nat)
    requires HaveTypes(values, types) && forall i :: 0 <= i < |values| ==> Sized(values[i])
    requires forall i :: 0 <= i < |types| ==> Depth(types[i]) <= depth
    requires offset + |Tails(values)| <= UINT64_MAX
    requires At(data, head, Heads(values, offset)) && At(data, base + offset, Tails(values))
    ensures DecodeMembers(types, data, base, head, depth) == Some(values)
    decreases values, 1
  {
    hide At, Encode, IsDynamic, LengthWord, HasType, Sized, DynamicType, DecodeAt, StaticSize, WordAt, Heads, Tails;
    if values != [] {
      var first, rest := values[0], values[1..];
      TypeTellsDynamic(first, types[0]);
      FirstMember(values, data, head, base + offset, offset);
      assert values == [first] + rest;
      if IsDynamic(first) {
        WordIsAt(data, head, offset);
        DecodeEncoded(first, types[0], data, base + offset);
        DecodeHeads(rest, types[1..], data, base, head + WORD, offset + |Encode(first)|, depth);
      } else {
        TypeTellsSize(first, types[0]);
        DecodeEncoded(first, types[0], data, head);
        DecodeHeads(rest, types[1..], data, base, head + StaticSize(types[0]), offset, depth);
      }
    }
  }

  function Decode(types: seq<AbiType>, data: seq<byte>): Option<seq<AbiValue>> {
    DecodeMembers(types, data, 0, 0, Depths(types))
  }

  /** The decoder recovers every well-typed parameter list from its encoding. */
  lemma RoundTrip(values: seq<AbiValue>, types: seq<AbiType>)
    requires HaveTypes(values, types) && AllSized(values)
    ensures Decode(types, EncodeSequence(values)) == Some(values)
  {
    var data := EncodeSequence(values);
    assert data[0..0 + |data|] == data;
    DecodeSequence(values, types, data, 0, Depths(types));
  }

  /** Equal encodings of one parameter list type are of equal values. */
  lemma EncodingIsInjective(a: seq<AbiValue>, b: seq<AbiValue>, types: seq<AbiType>)
    requires HaveTypes(a, types) && HaveTypes(b, types) && AllSized(a) && AllSized(b)
    requires EncodeSequence(a) == EncodeSequence(b)
    ensures a == b
  {
    RoundTrip(a, types);
    RoundTrip(b, types);
  }
}
