/** Legacy transactions with replay protection (src/evm_transaction.cpp, EIP-155): the bytes that are hashed, and the
    signed transaction. */
module Transaction {
  import opened Wrappers
  import opened Arithmetic
  import opened Digits
  import opened HexText
  import opened Uint256
  import opened Rlp

  const MAX_CHAIN_ID: nat := (UINT64_MAX - 36) / 2

  datatype Legacy = Legacy(nonce: string, gasPrice: string, gasLimit: string, to: string, value: string,
                           data: string, chainId: nat)

  /** What the texts of a transaction stand for. */
  datatype Fields = Fields(nonce: nat, gasPrice: nat, gasLimit: nat, to: seq<byte>, value: nat, data: seq<byte>,
                           chainId: nat)

  datatype TxError = ChainIdOutOfRange | BadHex | BadAddress | BadNumber(error: WordError) | BadSignature

  function UintItem(value: nat): Item {
    Text(LengthBytes(value))
  }

  /** The six fields both encodings share. */
  function UnsignedItems(f: Fields): (items: seq<Item>)
    ensures |items| == 6
  {
    [UintItem(f.nonce), UintItem(f.gasPrice), UintItem(f.gasLimit), Text(f.to), UintItem(f.value), Text(f.data)]
  }

  function PreimageItem(f: Fields): Item {
    List(UnsignedItems(f) + [UintItem(f.chainId), Text([]), Text([])])
  }

  /** v carries the chain id and the recovery id. */
  function RecoveryValue(chainId: nat, recoveryId: nat): nat {
    chainId * 2 + 35 + recoveryId
  }

  function SignedItem(f: Fields, recoveryId: nat, r: nat, s: nat): Item {
    List(UnsignedItems(f) + [UintItem(RecoveryValue(f.chainId, recoveryId)), UintItem(r), UintItem(s)])
  }

  /** An integer is written as the shortest big-endian bytes of its value; zero as no bytes. */
  predicate StandsFor(item: Item, value: nat) {
    && item.Text? && Value(256, item.bytes) == value && (item.bytes != [] ==> item.bytes[0] != 0)
  }

  /** Nonce, gas price, gas limit, recipient, value and data, in this order. */
  predicate HoldsFields(items: seq<Item>, f: Fields) {
    && |items| == 9
    && StandsFor(items[0], f.nonce) && StandsFor(items[1], f.gasPrice) && StandsFor(items[2], f.gasLimit)
    && items[3] == Text(f.to) && StandsFor(items[4], f.value) && items[5] == Text(f.data)
  }

  lemma UintItemStandsFor(value: nat)
    ensures StandsFor(UintItem(value), value)
  {
    MinimalIsShort(256, value);
  }

  /** The hashed bytes are the canonical form of a list of nine: the six fields, the chain id and two empty items. */
  lemma PreimageHolds(f: Fields)
    requires Fits(PreimageItem(f))
    ensures var d := Decode(Encode(PreimageItem(f)));
      && d.Some? && d.value.rest == [] && d.value.item.List?
      && var items := d.value.item.items;
         HoldsFields(items, f) && StandsFor(items[6], f.chainId) && items[7] == Text([]) && items[8] == Text([])
  {
    FieldsStand(f);
    UintItemStandsFor(f.chainId);
    hide StandsFor, Decode, Encode, UintItem;
    DecodeIff(PreimageItem(f), Encode(PreimageItem(f)));
  }

  /** The signed transaction is the canonical form of a list of nine: the six fields, v, which is twice the chain id
      plus 35 plus the recovery id, r and s. */
  lemma SignedHolds(f: Fields, recoveryId: nat, r: nat, s: nat)
    requires Fits(SignedItem(f, recoveryId, r, s))
    ensures var d := Decode(Encode(SignedItem(f, recoveryId, r, s)));
      && d.Some? && d.value.rest == [] && d.value.item.List?
      && var items := d.value.item.items;
         && HoldsFields(items, f) && StandsFor(items[6], 2 * f.chainId + 35 + recoveryId)
         && StandsFor(items[7], r) && StandsFor(items[8], s)
  {
    FieldsStand(f);
    UintItemStandsFor(RecoveryValue(f.chainId, recoveryId));
    UintItemStandsFor(r);
    UintItemStandsFor(s);
    hide StandsFor, Decode, Encode, UintItem;
    DecodeIff(SignedItem(f, recoveryId, r, s), Encode(SignedItem(f, recoveryId, r, s)));
  }

  lemma FieldsStand(f: Fields)
    ensures forall more: seq<Item> :: |more| == 3 ==> HoldsFields(UnsignedItems(f) + more, f)
  {
    UintItemStandsFor(f.nonce);
    UintItemStandsFor(f.gasPrice);
    UintItemStandsFor(f.gasLimit);
    UintItemStandsFor(f.value);
    hide StandsFor, UintItem;
  }

  lemma UintItemIsUnique(a: nat, b: nat)
    requires UintItem(a) == UintItem(b)
    ensures a == b
  {
    assert LengthBytes(a) == LengthBytes(b);
  }

  /** Equal items mean equal fields. */
  lemma UnsignedItemsAreUnique(a: Fields, b: Fields, x: seq<Item>, y: seq<Item>)
    requires UnsignedItems(a) + x == UnsignedItems(b) + y
    ensures a.(chainId := 0) == b.(chainId := 0) && x == y
  {
    var all := UnsignedItems(a) + x;
    assert all[..6] == UnsignedItems(a) && all[..6] == UnsignedItems(b);
    assert all[6..] == x && all[6..] == y;
    UintItemIsUnique(a.nonce, b.nonce) by { assert UnsignedItems(a)[0] == UnsignedItems(b)[0]; }
    UintItemIsUnique(a.gasPrice, b.gasPrice) by { assert UnsignedItems(a)[1] == UnsignedItems(b)[1]; }
    UintItemIsUnique(a.gasLimit, b.gasLimit) by { assert UnsignedItems(a)[2] == UnsignedItems(b)[2]; }
    assert UnsignedItems(a)[3] == UnsignedItems(b)[3] && UnsignedItems(a)[5] == UnsignedItems(b)[5];
    UintItemIsUnique(a.value, b.value) by { assert UnsignedItems(a)[4] == UnsignedItems(b)[4]; }
  }

  /** Two transactions whose hashed bytes are equal are equal in every field, the chain id included. */
  lemma PreimageIsInjective(a: Fields, b: Fields)
    requires Fits(PreimageItem(a)) && Fits(PreimageItem(b)) && Encode(PreimageItem(a)) == Encode(PreimageItem(b))
    ensures a == b
  {
    EncodingIsPrefixFree(PreimageItem(a), PreimageItem(b), [], []);
    var x, y := [UintItem(a.chainId), Text([]), Text([])], [UintItem(b.chainId), Text([]), Text([])];
    assert PreimageItem(a).items == UnsignedItems(a) + x;
    assert PreimageItem(b).items == UnsignedItems(b) + y;
    UnsignedItemsAreUnique(a, b, x, y);
    UintItemIsUnique(a.chainId, b.chainId) by { assert x[0] == y[0]; }
  }

  /** v has 64 bits, and chain id and recovery id can be read off it. */
  lemma RecoveryValueReads(chainId: nat, recoveryId: nat)
    requires chainId <= MAX_CHAIN_ID && recoveryId <= 1
    ensures RecoveryValue(chainId, recoveryId) <= UINT64_MAX
    ensures (RecoveryValue(chainId, recoveryId) - 35) / 2 == chainId
    ensures (RecoveryValue(chainId, recoveryId) - 35) % 2 == recoveryId
  {
  }

  /** The bound on the chain id is the largest for which v never overflows. */
  lemma ChainIdBoundIsTight(chainId: nat)
    ensures chainId <= MAX_CHAIN_ID <==> RecoveryValue(chainId, 1) <= UINT64_MAX
  {
  }

  /** The signed transaction determines the fields, the chain id, the recovery id and the signature. */
  lemma SignedIsInjective(a: Fields, recoveryA: nat, rA: nat, sA: nat, b: Fields, recoveryB: nat, rB: nat, sB: nat)
    requires a.chainId <= MAX_CHAIN_ID && b.chainId <= MAX_CHAIN_ID && recoveryA <= 1 && recoveryB <= 1
    requires Fits(SignedItem(a, recoveryA, rA, sA)) && Fits(SignedItem(b, recoveryB, rB, sB))
    requires Encode(SignedItem(a, recoveryA, rA, sA)) == Encode(SignedItem(b, recoveryB, rB, sB))
    ensures a == b && recoveryA == recoveryB && rA == rB && sA == sB
  {
    EncodingIsPrefixFree(SignedItem(a, recoveryA, rA, sA), SignedItem(b, recoveryB, rB, sB), [], []);
    var vA, vB := RecoveryValue(a.chainId, recoveryA), RecoveryValue(b.chainId, recoveryB);
    var x, y := [UintItem(vA), UintItem(rA), UintItem(sA)], [UintItem(vB), UintItem(rB), UintItem(sB)];
    assert SignedItem(a, recoveryA, rA, sA).items == UnsignedItems(a) + x;
    assert SignedItem(b, recoveryB, rB, sB).items == UnsignedItems(b) + y;
    UnsignedItemsAreUnique(a, b, x, y);
    UintItemIsUnique(vA, vB) by { assert x[0] == y[0]; }
    UintItemIsUnique(rA, rB) by { assert x[1] == y[1]; }
    UintItemIsUnique(sA, sB) by { assert x[2] == y[2]; }
    RecoveryValueReads(a.chainId, recoveryA);
    RecoveryValueReads(b.chainId, recoveryB);
  }

  /** A signed transaction and the bytes that were hashed for it are never the same string. */
  lemma SignedIsNotPreimage(a: Fields, b: Fields, recoveryId: nat, r: nat, s: nat)
    requires r > 0 || s > 0
    requires Fits(PreimageItem(a)) && Fits(SignedItem(b, recoveryId, r, s))
    ensures Encode(PreimageItem(a)) != Encode(SignedItem(b, recoveryId, r, s))
  {
    MinimalIsShort(256, r);
    MinimalIsShort(256, s);
    assert PreimageItem(a).items[7] == Text([]) && PreimageItem(a).items[8] == Text([]);
    assert SignedItem(b, recoveryId, r, s).items[7] == UintItem(r);
    assert SignedItem(b, recoveryId, r, s).items[8] == UintItem(s);
    if Encode(PreimageItem(a)) == Encode(SignedItem(b, recoveryId, r, s)) {
      EncodingIsPrefixFree(PreimageItem(a), SignedItem(b, recoveryId, r, s), [], []);
    }
  }

  // ----- the source's vectors -----

  /** The bytes of one encoded field are those of its item. */
  method EncodeUintField(text: string) returns (r: Result<seq<byte>, TxError>)
    ensures ParsedUint(text).Err? ==> r == Err(BadNumber(ParsedUint(text).error))
    ensures ParsedUint(text).Ok? ==>
      && |LengthBytes(ParsedUint(text).value)| <= WORD
      && r == Ok(EncodeBytes(LengthBytes(ParsedUint(text).value)))
  {
    var word := ParseUint256Word(text);
    if word.Err? {
      return Err(BadNumber(word.error));
    }
    FixedIsValue(256, ParsedUint(text).value, WORD);
    var code := RlpEncodeUint(word.value);
    return Ok(code);
  }

  function HexBytes(text: string): Option<string> {
    var hex := WithoutPrefix(text);
    if |hex| % 2 == 0 && AllHex(hex) then Some(hex) else None
  }

  /** A text has bytes exactly when from_hex reads it, and then the same ones. */
  lemma HexBytesAreRead(text: string, r: Result<seq<byte>, HexError>)
    requires IsFromHex(text, r)
    ensures HexBytes(text).Some? <==> r.Ok?
    ensures r.Ok? ==> TextDigits(HexBytes(text).value) == Nibbles(r.value)
  {
  }

  /** The texts stand for these fields. */
  ghost predicate Reads(tx: Legacy, f: Fields) {
    && ParsedUint(tx.nonce) == Ok(f.nonce) && ParsedUint(tx.gasPrice) == Ok(f.gasPrice)
    && ParsedUint(tx.gasLimit) == Ok(f.gasLimit) && ParsedUint(tx.value) == Ok(f.value)
    && HexBytes(tx.to).Some? && TextDigits(HexBytes(tx.to).value) == Nibbles(f.to)
    && HexBytes(tx.data).Some? && TextDigits(HexBytes(tx.data).value) == Nibbles(f.data)
    && f.chainId == tx.chainId && |f.to| == 20
  }

  lemma ReadsOne(tx: Legacy, a: Fields, b: Fields)
    requires Reads(tx, a) && Reads(tx, b)
    ensures a == b
  {
    NibblesAreUnique(a.to, b.to);
    NibblesAreUnique(a.data, b.data);
  }

  /** Transactions given as texts whose hashed bytes are equal read as the same fields, whatever their notation. */
  lemma OnePreimageReadsAlike(tx: Legacy, ty: Legacy, a: Fields, b: Fields)
    requires Reads(tx, a) && Reads(ty, b) && Fits(PreimageItem(a)) && Fits(PreimageItem(b))
    requires Encode(PreimageItem(a)) == Encode(PreimageItem(b))
    ensures forall f :: Reads(tx, f) <==> Reads(ty, f)
  {
    hide Reads;
    PreimageIsInjective(a, b);
    forall f ensures Reads(tx, f) <==> Reads(ty, f) {
      if Reads(tx, f) {
        ReadsOne(tx, a, f);
      }
      if Reads(ty, f) {
        ReadsOne(ty, b, f);
      }
    }
  }

  /** Why a transaction is refused, in the order of the source's checks. */
  function Fault(tx: Legacy): Option<TxError> {
    if tx.chainId == 0 || tx.chainId > MAX_CHAIN_ID then Some(ChainIdOutOfRange)
    else if HexBytes(tx.to).None? then Some(BadHex)
    else if |HexBytes(tx.to).value| != 40 then Some(BadAddress)
    else if ParsedUint(tx.nonce).Err? then Some(BadNumber(ParsedUint(tx.nonce).error))
    else if ParsedUint(tx.gasPrice).Err? then Some(BadNumber(ParsedUint(tx.gasPrice).error))
    else if ParsedUint(tx.gasLimit).Err? then Some(BadNumber(ParsedUint(tx.gasLimit).error))
    else if ParsedUint(tx.value).Err? then Some(BadNumber(ParsedUint(tx.value).error))
    else if HexBytes(tx.data).None? then Some(BadHex)
    else None
  }

  /** A transaction is refused exactly when its chain id is out of range or its texts stand for no fields. */
  lemma FaultIff(tx: Legacy)
    ensures Fault(tx).None? <==>
      0 < tx.chainId <= MAX_CHAIN_ID && exists f :: Reads(tx, f)
  {
    if Fault(tx).None? {
      var to := BytesOfHex(HexBytes(tx.to).value);
      var data := BytesOfHex(HexBytes(tx.data).value);
      var f := Fields(ParsedUint(tx.nonce).value, ParsedUint(tx.gasPrice).value, ParsedUint(tx.gasLimit).value, to,
                      ParsedUint(tx.value).value, data, tx.chainId);
      assert Reads(tx, f);
    }
    forall f | Reads(tx, f) && 0 < tx.chainId <= MAX_CHAIN_ID ensures Fault(tx).None? {
      assert |HexBytes(tx.to).value| == |Nibbles(f.to)|;
    }
  }

  /** The first number that cannot be read, in the order of the fields. */
  function FirstUnread(texts: seq<string>): Option<WordError> {
    if texts == [] then None
    else if ParsedUint(texts[0]).Err? then Some(ParsedUint(texts[0]).error) else FirstUnread(texts[1..])
  }

  /** The chain id is judged first, then the recipient, its length, the numbers, and the data last. */
  lemma FaultsInOrder(tx: Legacy)
    ensures var chain := 0 < tx.chainId <= MAX_CHAIN_ID;
      var numbers := FirstUnread([tx.nonce, tx.gasPrice, tx.gasLimit, tx.value]);
      && (!chain ==> Fault(tx) == Some(ChainIdOutOfRange))
      && (chain && HexBytes(tx.to).None? ==> Fault(tx) == Some(BadHex))
      && (chain && HexBytes(tx.to).Some? && |HexBytes(tx.to).value| != 40 ==> Fault(tx) == Some(BadAddress))
      && (chain && HexBytes(tx.to).Some? && |HexBytes(tx.to).value| == 40 ==>
            Fault(tx) == if numbers.Some? then Some(BadNumber(numbers.value))
                         else if HexBytes(tx.data).None? then Some(BadHex) else None)
  {
    UnreadFrom(tx.nonce, [tx.gasPrice, tx.gasLimit, tx.value]);
    UnreadFrom(tx.gasPrice, [tx.gasLimit, tx.value]);
    UnreadFrom(tx.gasLimit, [tx.value]);
    UnreadFrom(tx.value, []);
    assert [tx.nonce] + [tx.gasPrice, tx.gasLimit, tx.value] == [tx.nonce, tx.gasPrice, tx.gasLimit, tx.value];
    assert [tx.gasPrice] + [tx.gasLimit, tx.value] == [tx.gasPrice, tx.gasLimit, tx.value];
    assert [tx.gasLimit] + [tx.value] == [tx.gasLimit, tx.value] && [tx.value] + [] == [tx.value];
    hide HexBytes, ParsedUint, FirstUnread;
  }

  lemma UnreadFrom(text: string, rest: seq<string>)
    ensures FirstUnread([text] + rest)
         == if ParsedUint(text).Err? then Some(ParsedUint(text).error) else FirstUnread(rest)
    ensures FirstUnread([]) == None
  {
    assert ([text] + rest)[1..] == rest;
  }

  lemma {:induction false} BytesOfHex(hex: string) returns (bytes: seq<byte>)
    requires AllHex(hex) && |hex| % 2 == 0
    ensures Nibbles(bytes) == TextDigits(hex)
    decreases |hex|
  {
    if hex == "" {
      bytes := [];
    } else {
      var n := |hex| - 2;
      var front := BytesOfHex(hex[..n]);
      bytes := front + [HexDigit(hex[n]) * 16 + HexDigit(hex[n + 1])];
      OneMoreByte(hex, n, front, bytes[|front|]);
      assert hex[..n + 2] == hex;
    }
  }

  /** The codes are those of the items, one by one. */
  predicate Codes(codes: seq<seq<byte>>, items: seq<Item>) {
    |codes| == |items| && forall i :: 0 <= i < |items| ==> Fits(items[i]) && codes[i] == Encode(items[i])
  }

  lemma {:induction false} EncodeOneMore(items: seq<Item>, item: Item)
    requires AllFit(items) && Fits(item)
    ensures AllFit(items + [item]) && EncodeAll(items + [item]) == EncodeAll(items) + Encode(item)
  {
    if items == [] {
      assert items + [item] == [item];
      assert [item][1..] == [];
    } else {
      EncodeOneMore(items[1..], item);
      assert (items + [item])[1..] == items[1..] + [item];
    }
  }

  lemma {:induction false} JoinedCodes(codes: seq<seq<byte>>, items: seq<Item>)
    requires Codes(codes, items)
    ensures AllFit(items) && Join(codes) == EncodeAll(items)
  {
    if items != [] {
      var n := |items| - 1;
      JoinedCodes(codes[..n], items[..n]);
      EncodeOneMore(items[..n], items[n]);
      assert items == items[..n] + [items[n]];
    }
  }

  lemma CodeLength(bytes: seq<byte>)
    requires |bytes| <= UINT64_MAX
    ensures |EncodeBytes(bytes)| <= |bytes| + 9
  {
    LengthIsShort(|bytes|);
  }

  lemma {:induction false} JoinLength(codes: seq<seq<byte>>, bound: nat)
    requires forall i :: 0 <= i < |codes| ==> |codes[i]| <= bound
    ensures |Join(codes)| <= |codes| * bound
  {
    if codes != [] {
      JoinLength(codes[..|codes| - 1], bound);
      assert |codes| * bound == (|codes| - 1) * bound + bound;
    }
  }

  lemma JoinTwo(a: seq<seq<byte>>, b: seq<seq<byte>>)
    ensures Join(a + b) == Join(a) + Join(b)
  {
    if b == [] {
      assert a + b == a;
    } else {
      assert (a + b)[..|a + b| - 1] == a + b[..|b| - 1];
      JoinTwo(a, b[..|b| - 1]);
    }
  }

  /** unsigned_fields. */
  method UnsignedFields(tx: Legacy) returns (r: Result<seq<seq<byte>>, TxError>, ghost f: Fields)
    requires |tx.data| <= UINT64_MAX
    ensures Fault(tx).Some? ==> r == Err(Fault(tx).value)
    ensures Fault(tx).None? ==>
      && Reads(tx, f) && r.Ok? && Codes(r.value, UnsignedItems(f)) && |Join(r.value)| <= UINT64_MAX - 200
  {
    hide ParsedUint, EncodeBytes, LengthBytes, Nibbles, TextDigits, Header, Pow, AllHex, Join;
    f := Fields(0, 0, 0, [], 0, [], tx.chainId);
    if tx.chainId == 0 || tx.chainId > MAX_CHAIN_ID {
      return Err(ChainIdOutOfRange), f;
    }
    var to := FromHex(tx.to);
    if to.Err? {
      return Err(BadHex), f;
    }
    if |to.value| != 20 {
      return Err(BadAddress), f;
    }
    var nonce := EncodeUintField(tx.nonce);
    if nonce.Err? {
      return Err(nonce.error), f;
    }
    var gasPrice := EncodeUintField(tx.gasPrice);
    if gasPrice.Err? {
      return Err(gasPrice.error), f;
    }
    var gasLimit := EncodeUintField(tx.gasLimit);
    if gasLimit.Err? {
      return Err(gasLimit.error), f;
    }
    var address := RlpEncodeBytes(to.value);
    var value := EncodeUintField(tx.value);
    if value.Err? {
      return Err(value.error), f;
    }
    var data := FromHex(tx.data);
    if data.Err? {
      return Err(BadHex), f;
    }
    var payload := RlpEncodeBytes(data.value);
    f := Fields(ParsedUint(tx.nonce).value, ParsedUint(tx.gasPrice).value, ParsedUint(tx.gasLimit).value, to.value,
                ParsedUint(tx.value).value, data.value, tx.chainId);
    r := Ok([nonce.value, gasPrice.value, gasLimit.value, address, value.value, payload]);
    FieldsAreShort(f, r.value);
  }

  lemma FieldsAreShort(f: Fields, codes: seq<seq<byte>>)
    requires Codes(codes, UnsignedItems(f)) && |f.to| == 20 && |f.data| <= UINT64_MAX / 2
    requires |LengthBytes(f.nonce)| <= WORD && |LengthBytes(f.gasPrice)| <= WORD && |LengthBytes(f.gasLimit)| <= WORD
    requires |LengthBytes(f.value)| <= WORD
    ensures |Join(codes)| <= UINT64_MAX - 200
  {
    var items := UnsignedItems(f);
    CodeLength(LengthBytes(f.nonce));
    CodeLength(LengthBytes(f.gasPrice));
    CodeLength(LengthBytes(f.gasLimit));
    CodeLength(f.to);
    CodeLength(LengthBytes(f.value));
    CodeLength(f.data);
    assert codes[0] == Encode(items[0]) && codes[1] == Encode(items[1]) && codes[2] == Encode(items[2]);
    assert codes[3] == Encode(items[3]) && codes[4] == Encode(items[4]) && codes[5] == Encode(items[5]);
    JoinLength(codes[..5], 41);
    assert codes[..6] == codes && codes[..6][..5] == codes[..5];
  }

  /** The list of the fields with three more. */
  method EncodeFields(fields: seq<seq<byte>>, ghost items: seq<Item>, more: seq<seq<byte>>, ghost last: seq<Item>)
    returns (out: seq<byte>)
    requires Codes(fields, items) && Codes(more, last)
    requires |Join(fields)| <= UINT64_MAX - 200 && |Join(more)| <= 200
    ensures Fits(List(items + last)) && out == Encode(List(items + last))
  {
    JoinTwo(fields, more);
    assert Codes(fields + more, items + last);
    JoinedCodes(fields + more, items + last);
    out := RlpEncodeList(fields + more);
  }

  lemma ThreeAreShort(codes: seq<seq<byte>>)
    requires |codes| == 3 && |codes[0]| <= 41 && |codes[1]| <= 41 && |codes[2]| <= 41
    ensures |Join(codes)| <= 200
  {
    JoinLength(codes, 41);
  }

  /** The bytes whose hash is signed. */
  method SigningPreimage(tx: Legacy) returns (r: Result<seq<byte>, TxError>, ghost f: Fields)
    requires |tx.data| <= UINT64_MAX
    ensures Fault(tx).Some? ==> r == Err(Fault(tx).value)
    ensures Fault(tx).None? ==> Reads(tx, f) && Fits(PreimageItem(f)) && r == Ok(Encode(PreimageItem(f)))
  {
    hide Pow, Value, EncodeBytes, UnsignedItems, Join, ParsedUint;
    var fields;
    fields, f := UnsignedFields(tx);
    if fields.Err? {
      return Err(fields.error), f;
    }
    var chainWord := Uint256Word(tx.chainId);
    FixedIsValue(256, tx.chainId, WORD);
    var chain := RlpEncodeUint(chainWord);
    var empty := RlpEncodeUint([]);
    CodeLength(LengthBytes(tx.chainId));
    CodeLength(LengthBytes(0));
    ThreeAreShort([chain, empty, empty]);
    var out := EncodeFields(fields.value, UnsignedItems(f), [chain, empty, empty],
                            [UintItem(f.chainId), Text([]), Text([])]);
    return Ok(out), f;
  }

  /** v, r and s. */
  method SignatureFields(chainId: nat, recoveryId: nat, rBytes: seq<byte>, sBytes: seq<byte>)
    returns (codes: seq<seq<byte>>)
    requires chainId <= MAX_CHAIN_ID && recoveryId <= 1 && |rBytes| == 32 && |sBytes| == 32
    ensures Codes(codes, [UintItem(RecoveryValue(chainId, recoveryId)), UintItem(Value(256, rBytes)),
                          UintItem(Value(256, sBytes))])
    ensures |Join(codes)| <= 200
  {
    hide Pow, Value, EncodeBytes, Join;
    var v := chainId * 2 + 35 + recoveryId;
    RecoveryValueReads(chainId, recoveryId);
    var vWord := Uint256Word(v);
    FixedIsValue(256, v, WORD);
    var vCode := RlpEncodeUint(vWord);
    var rCode := RlpEncodeUint(rBytes);
    var sCode := RlpEncodeUint(sBytes);
    CodeLength(LengthBytes(v));
    CodeLength(LengthBytes(Value(256, rBytes)));
    CodeLength(LengthBytes(Value(256, sBytes)));
    codes := [vCode, rCode, sCode];
    ThreeAreShort(codes);
  }

  /** The signed transaction, from the 65 bytes the signer returned. */
  method SignedBytes(tx: Legacy, signature: seq<byte>) returns (r: Result<seq<byte>, TxError>, ghost f: Fields)
    requires |tx.data| <= UINT64_MAX
    ensures Fault(tx).Some? ==> r == Err(Fault(tx).value)
    ensures Fault(tx).None? && (|signature| != 65 || signature[64] !in {27, 28}) ==> r == Err(BadSignature)
    ensures Fault(tx).None? && |signature| == 65 && signature[64] in {27, 28} ==>
      && Reads(tx, f)
      && var item := SignedItem(f, signature[64] - 27, Value(256, signature[..32]), Value(256, signature[32..64]));
         Fits(item) && r == Ok(Encode(item))
  {
    hide Pow, Value, Fits, Encode, UnsignedItems, Codes, Join, RecoveryValue, UintItem;
    var fields;
    fields, f := UnsignedFields(tx);
    if fields.Err? {
      return Err(fields.error), f;
    }
    if |signature| != 65 || (signature[64] != 27 && signature[64] != 28) {
      return Err(BadSignature), f;
    }
    FaultlessChain(tx);
    var recoveryId := signature[64] - 27;
    var codes := SignatureFields(tx.chainId, recoveryId, signature[..32], signature[32..64]);
    var out := EncodeFields(fields.value, UnsignedItems(f), codes,
                            [UintItem(RecoveryValue(f.chainId, recoveryId)), UintItem(Value(256, signature[..32])),
                             UintItem(Value(256, signature[32..64]))]);
    return Ok(out), f;
  }

  lemma FaultlessChain(tx: Legacy)
    requires Fault(tx).None?
    ensures 0 < tx.chainId <= MAX_CHAIN_ID
  {
  }
}
