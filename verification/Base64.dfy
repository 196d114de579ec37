/** Base64 in both alphabets (src/order_signer_auth.cpp; sections 3.5, 4 and 5 of RFC 4648). */
module Base64 {
  import opened Wrappers
  import opened Arithmetic
  import opened Digits
  import opened HexText

  /** base64_value; None for a character of neither alphabet. */
  function DigitOf(c: char): (digit: Option<nat>)
    ensures digit.Some? ==> digit.value < 64
  {
    if 'A' <= c <= 'Z' then Some(c as nat - 'A' as nat)
    else if 'a' <= c <= 'z' then Some(c as nat - 'a' as nat + 26)
    else if '0' <= c <= '9' then Some(c as nat - '0' as nat + 52)
    else if c == '+' || c == '-' then Some(62)
    else if c == '/' || c == '_' then Some(63)
    else None
  }

  /** The URL-safe alphabet. */
  function CharOf(digit: nat): (c: char)
    requires digit < 64
    ensures DigitOf(c) == Some(digit) && c !in {'+', '/', '='}
  {
    if digit < 26 then ('A' as nat + digit) as char
    else if digit < 52 then ('a' as nat + digit - 26) as char
    else if digit < 62 then ('0' as nat + digit - 52) as char
    else if digit == 62 then '-' else '_'
  }

  const UPPER := "ABCDEFGHIJKLMNOPQRSTUVWXYZ"
  const LOWER := "abcdefghijklmnopqrstuvwxyz"
  const TEN := "0123456789"

  /** The two alphabets of RFC 4648. */
  const STANDARD := UPPER + LOWER + TEN + "+/"
  const URL_SAFE := UPPER + LOWER + TEN + "-_"

  lemma UpperPlaces(i: nat)
    requires i < 26
    ensures UPPER[i] as nat == 'A' as nat + i
  {
  }

  lemma LowerPlaces(i: nat)
    requires i < 26
    ensures LOWER[i] as nat == 'a' as nat + i
  {
  }

  lemma TenPlaces(i: nat)
    requires i < 10
    ensures TEN[i] as nat == '0' as nat + i
  {
  }

  /** The digit of a character is its place in one of the alphabets; the encoder writes the second one. */
  lemma DigitIsPlace(i: nat)
    requires i < 64
    ensures CharOf(i) == URL_SAFE[i] && DigitOf(STANDARD[i]) == Some(i) && DigitOf(URL_SAFE[i]) == Some(i)
  {
    if i < 26 {
      UpperPlaces(i);
      assert STANDARD[i] == UPPER[i] == URL_SAFE[i];
    } else if i < 52 {
      LowerPlaces(i - 26);
      assert STANDARD[i] == LOWER[i - 26] == URL_SAFE[i];
    } else if i < 62 {
      TenPlaces(i - 52);
      assert STANDARD[i] == TEN[i - 52] == URL_SAFE[i];
    } else if i == 62 {
      assert STANDARD[62] == '+' && URL_SAFE[62] == '-';
    } else {
      assert STANDARD[63] == '/' && URL_SAFE[63] == '_';
    }
  }

  lemma OnlyAlphabetsHaveDigits(c: char)
    ensures DigitOf(c).Some? <==> c in STANDARD || c in URL_SAFE
  {
    if DigitOf(c).Some? {
      StandsInAlphabet(c);
    }
    if c in STANDARD {
      var i :| 0 <= i < 64 && STANDARD[i] == c;
      DigitIsPlace(i);
    }
    if c in URL_SAFE {
      var i :| 0 <= i < 64 && URL_SAFE[i] == c;
      DigitIsPlace(i);
    }
  }

  lemma StandsInAlphabet(c: char)
    requires DigitOf(c).Some?
    ensures c == STANDARD[DigitOf(c).value] || c == URL_SAFE[DigitOf(c).value]
  {
    DigitIsPlace(DigitOf(c).value);
    SameDigit(c, CharOf(DigitOf(c).value));
    hide DigitOf, CharOf;
  }

  /** The characters of one digit, but for the two letters of the other alphabet. */
  lemma SameDigit(c: char, d: char)
    requires DigitOf(c).Some? && DigitOf(d) == DigitOf(c) && d !in {'+', '/'}
    ensures c == d || (c == '+' && DigitOf(c) == Some(62)) || (c == '/' && DigitOf(c) == Some(63))
  {
  }

  type sextet = d: nat | d < 64

  // ----- groups of three bytes and four sextets -----

  /** The sextets of a whole group. */
  function GroupSextets(a: nat, b: nat, c: nat): (s: seq<sextet>)
    requires a < 256 && b < 256 && c < 256
    ensures |s| == 4
  {
    [a / 4, a % 4 * 16 + b / 16, b % 16 * 4 + c / 64, c % 64]
  }

  /** The bytes of a whole group. */
  function GroupBytes(x: nat, y: nat, z: nat, w: nat): (bytes: seq<byte>)
    requires x < 64 && y < 64 && z < 64 && w < 64
    ensures |bytes| == 3
  {
    [x * 4 + y / 16, y % 16 * 16 + z / 4, z % 4 * 64 + w]
  }

  function Sextets(data: seq<byte>): (s: seq<sextet>)
    ensures |s| % 4 == (if |data| % 3 == 0 then 0 else |data| % 3 + 1)
  {
    if data == [] then []
    else
      var a: nat := data[0];
      if |data| == 1 then [a / 4, a % 4 * 16]
      else
        var b: nat := data[1];
        if |data| == 2 then [a / 4, a % 4 * 16 + b / 16, b % 16 * 4]
        else
          var c: nat := data[2];
          GroupSextets(a, b, c) + Sextets(data[3..])
  }

  /** The bytes that whole sextets complete, and the bits that are left over. */
  datatype Partial<T> = Partial(done: seq<T>, left: nat)

  function BytesOf(s: seq<sextet>): Partial<byte> {
    if s == [] then Partial([], 0)
    else
      var x: nat := s[0];
      if |s| == 1 then Partial([], x)
      else
        var y: nat := s[1];
        if |s| == 2 then Partial([x * 4 + y / 16], y % 16)
        else
          var z: nat := s[2];
          if |s| == 3 then Partial([x * 4 + y / 16, y % 16 * 16 + z / 4], z % 4)
          else
            var w: nat := s[3];
            var rest := BytesOf(s[4..]);
            Partial(GroupBytes(x, y, z, w) + rest.done, rest.left)
  }

  /** The sextets stand for some bytes: no lone sextet, and no bit set behind the last byte. */
  predicate Whole(s: seq<sextet>) {
    |s| % 4 != 1 && BytesOf(s).left == 0
  }

  /** What the zero bits behind the last byte multiply a value with. */
  function Fill(n: nat): nat {
    if n % 3 == 0 then 1 else if n % 3 == 1 then 16 else 4
  }

  lemma FourSextets(a: nat, b: nat, c: nat)
    requires a < 256 && b < 256 && c < 256
    ensures Value(64, GroupSextets(a, b, c)) == (a * 256 + b) * 256 + c
    ensures Value(256, [a, b, c]) == (a * 256 + b) * 256 + c
  {
    var s: seq<nat> := GroupSextets(a, b, c);
    ValueOfFour(64, s);
    ValueOfThree(256, [a, b, c]);
    FourDigits(a / 4, a % 4, b / 16, b % 16, c / 64, c % 64);
  }

  lemma FourDigits(ah: nat, al: nat, bh: nat, bl: nat, ch: nat, cl: nat)
    ensures ((ah * 64 + (al * 16 + bh)) * 64 + (bl * 4 + ch)) * 64 + cl
         == ((ah * 4 + al) * 256 + (bh * 16 + bl)) * 256 + (ch * 64 + cl)
  {
  }

  lemma ValueOfThree(base: nat, d: seq<nat>)
    requires |d| == 3
    ensures Value(base, d) == (d[0] * base + d[1]) * base + d[2]
  {
    assert d[..2][..1] == d[..1] && d[..1][..0] == [];
    assert Value(base, d[..1]) == d[0];
    assert Value(base, d[..2]) == d[0] * base + d[1];
  }

  lemma ValueOfFour(base: nat, d: seq<nat>)
    requires |d| == 4
    ensures Value(base, d) == ((d[0] * base + d[1]) * base + d[2]) * base + d[3]
  {
    ValueOfThree(base, d[..3]);
  }

  lemma {:induction false} SextetPlaces(data: seq<byte>)
    ensures Pow(64, |Sextets(data)|) == Pow(256, |data|) * Fill(|data|)
  {
    SmallPowers();
    hide Pow;
    if |data| >= 3 {
      SextetPlaces(data[3..]);
      assert |Sextets(data)| == 4 + |Sextets(data[3..])|;
      PowAdds(64, 4, |Sextets(data[3..])|);
      PowAdds(256, 3, |data| - 3);
      FillGoesOn(|data|);
      Grouped(16_777_216, Pow(256, |data| - 3), Fill(|data|));
    }
  }

  lemma Grouped(a: nat, b: nat, c: nat)
    ensures a * (b * c) == a * b * c
  {
  }

  lemma SmallPowers()
    ensures Pow(64, 0) == 1 && Pow(64, 2) == 4_096 && Pow(64, 3) == 262_144 && Pow(64, 4) == 16_777_216
    ensures Pow(256, 0) == 1 && Pow(256, 1) == 256 && Pow(256, 2) == 65_536 && Pow(256, 3) == 16_777_216
  {
    assert Pow(64, 1) == 64;
  }

  /** The sextets are the bits of the bytes, the highest first, with zero bits behind them. */
  lemma {:induction false} SextetsKeepBits(data: seq<byte>)
    ensures Value(64, Sextets(data)) == Value(256, data) * Fill(|data|)
  {
    hide Value, Pow, GroupSextets, Fill;
    if |data| >= 3 {
      var first, rest: seq<nat> := data[..3], data[3..];
      var a: nat, b: nat, c: nat := data[0], data[1], data[2];
      SextetsKeepBits(data[3..]);
      SextetPlaces(data[3..]);
      FourSextets(a, b, c);
      FillGoesOn(|data|);
      assert first == [a, b, c] && first + rest == data;
      ValueJoin(256, first, rest);
      ValueJoin(64, GroupSextets(a, b, c), Sextets(data[3..]));
      SpreadFill((a * 256 + b) * 256 + c, Pow(256, |rest|), Fill(|data|), Value(256, rest));
    } else {
      FewBytes(data);
    }
  }

  lemma FillGoesOn(n: nat)
    requires n >= 3
    ensures Fill(n) == Fill(n - 3)
  {
  }

  lemma SpreadFill(group: nat, place: nat, fill: nat, rest: nat)
    ensures group * (place * fill) + rest * fill == (group * place + rest) * fill
  {
    assert group * (place * fill) == group * place * fill;
  }

  lemma FewBytes(data: seq<byte>)
    requires |data| < 3
    ensures Value(64, Sextets(data)) == Value(256, data) * Fill(|data|)
  {
    hide Sextets, Value;
    if |data| == 0 {
      NoBytes(data);
    } else if |data| == 1 {
      OneByte(data);
    } else {
      TwoBytes(data);
    }
  }

  lemma NoBytes(data: seq<byte>)
    requires |data| == 0
    ensures Value(64, Sextets(data)) == 0 == Value(256, data)
  {
  }

  lemma OneByte(data: seq<byte>)
    requires |data| == 1
    ensures Value(64, Sextets(data)) == Value(256, data) * 16
  {
    var a: nat := data[0];
    ValueOfTwo(64, Sextets(data));
    assert data[..0] == [];
    assert Value(256, data) == a;
    hide Value;
    assert a == 4 * (a / 4) + a % 4;
  }

  lemma TwoBytes(data: seq<byte>)
    requires |data| == 2
    ensures Value(64, Sextets(data)) == Value(256, data) * 4
  {
    var a: nat, b: nat := data[0], data[1];
    var s: seq<nat> := Sextets(data);
    assert s == [a / 4, a % 4 * 16 + b / 16, b % 16 * 4];
    ValueOfThree(64, s);
    ValueOfTwo(256, data);
    hide Value, Sextets;
    assert a == 4 * (a / 4) + a % 4 && b == 16 * (b / 16) + b % 16;
  }

  lemma ValueOfTwo(base: nat, d: seq<nat>)
    requires |d| == 2
    ensures Value(base, d) == d[0] * base + d[1]
  {
    assert d[..1][..0] == [];
    assert Value(base, d[..1]) == d[0];
  }

  lemma {:induction false} BytesRead(data: seq<byte>)
    ensures Whole(Sextets(data)) && BytesOf(Sextets(data)).done == data
  {
    if |data| >= 3 {
      BytesRead(data[3..]);
      GroupIsRead(data[0], data[1], data[2], Sextets(data[3..]));
      assert data == [data[0], data[1], data[2]] + data[3..];
    } else {
      FewAreRead(data);
    }
  }

  lemma GroupIsRead(a: byte, b: byte, c: byte, rest: seq<sextet>)
    ensures var s, tail := GroupSextets(a, b, c) + rest, BytesOf(rest);
      BytesOf(s) == Partial([a, b, c] + tail.done, tail.left)
  {
    var s := GroupSextets(a, b, c) + rest;
    assert s[4..] == rest;
    GroupOfGroup(a, b, c);
  }

  lemma GroupOfGroup(a: byte, b: byte, c: byte)
    ensures var s := GroupSextets(a, b, c); GroupBytes(s[0], s[1], s[2], s[3]) == [a, b, c]
  {
    FourAreThree(a, b, c, a / 4, a % 4, b / 16, b % 16, c / 64, c % 64);
  }

  lemma FourAreThree(a: nat, b: nat, c: nat, ah: nat, al: nat, bh: nat, bl: nat, ch: nat, cl: nat)
    requires a == ah * 4 + al && b == bh * 16 + bl && c == ch * 64 + cl
    requires ah < 64 && al < 4 && bh < 16 && bl < 16 && ch < 4 && cl < 64
    ensures ah * 4 + (al * 16 + bh) / 16 == a
    ensures (al * 16 + bh) % 16 * 16 + (bl * 4 + ch) / 4 == b
    ensures (bl * 4 + ch) % 4 * 64 + cl == c
  {
  }

  lemma FewAreRead(data: seq<byte>)
    requires |data| < 3
    ensures Whole(Sextets(data)) && BytesOf(Sextets(data)).done == data
  {
    if |data| == 2 {
      TwoAreRead(data, data[0], data[1]);
    } else if |data| == 1 {
      OneIsRead(data, data[0]);
    }
  }

  lemma OneIsRead(data: seq<byte>, a: nat)
    requires |data| == 1 && data[0] == a
    ensures Whole(Sextets(data)) && BytesOf(Sextets(data)).done == data
  {
    var x: sextet, y: sextet := a / 4, a % 4 * 16;
    assert Sextets(data) == [x, y];
    hide Sextets;
    FourAreThree(a, 0, 0, a / 4, a % 4, 0, 0, 0, 0);
    assert BytesOf([x, y]).done == [a] && BytesOf([x, y]).left == 0;
  }

  lemma TwoAreRead(data: seq<byte>, a: nat, b: nat)
    requires |data| == 2 && data[0] == a && data[1] == b
    ensures Whole(Sextets(data)) && BytesOf(Sextets(data)).done == data
  {
    var x: sextet, y: sextet, z: sextet := a / 4, a % 4 * 16 + b / 16, b % 16 * 4;
    assert Sextets(data) == [x, y, z];
    hide Sextets;
    FourAreThree(a, b, 0, a / 4, a % 4, b / 16, b % 16, 0, 0);
    assert BytesOf([x, y, z]).done == [a, b] && BytesOf([x, y, z]).left == 0;
  }

  lemma Digits4(x: nat, yh: nat, yl: nat, zh: nat, zl: nat, w: nat)
    requires x < 64 && yh < 4 && yl < 16 && zh < 16 && zl < 4 && w < 64
    ensures (x * 4 + yh) / 4 == x && (x * 4 + yh) % 4 == yh
    ensures (yl * 16 + zh) / 16 == yl && (yl * 16 + zh) % 16 == zh
    ensures (zl * 64 + w) / 64 == zl && (zl * 64 + w) % 64 == w
  {
  }

  lemma GroupReads(x: sextet, y: sextet, z: sextet, w: sextet, rest: seq<byte>)
    ensures Sextets(GroupBytes(x, y, z, w) + rest) == [x, y, z, w] + Sextets(rest)
  {
    var data := GroupBytes(x, y, z, w) + rest;
    assert data[3..] == rest;
    GroupOfBytes(x, y, z, w);
    hide GroupSextets, GroupBytes;
  }

  lemma GroupOfBytes(x: sextet, y: sextet, z: sextet, w: sextet)
    ensures var b := GroupBytes(x, y, z, w); GroupSextets(b[0], b[1], b[2]) == [x, y, z, w]
  {
    Digits4(x, y / 16, y % 16, z / 4, z % 4, w);
  }

  lemma {:induction false} SextetsRead(s: seq<sextet>)
    requires Whole(s)
    ensures Sextets(BytesOf(s).done) == s
  {
    if |s| >= 4 {
      SextetsRead(s[4..]);
      GroupReads(s[0], s[1], s[2], s[3], BytesOf(s[4..]).done);
      assert s == [s[0], s[1], s[2], s[3]] + s[4..];
    } else if |s| == 3 {
      assert s == [s[0], s[1], s[2]];
    } else if |s| == 2 {
      assert s == [s[0], s[1]];
    }
  }

  // ----- the bit accumulator -----

  /** Two to the power of the bit counts that occur. */
  function Place(bits: nat): (p: nat)
    ensures p > 0
  {
    if bits == 0 then 1 else if bits == 2 then 4 else if bits == 4 then 16 else 64
  }

  /** The bits that n sextets leave over. */
  function BitsAfter(n: nat): (bits: nat)
    ensures bits in {0, 2, 4, 6}
  {
    if n % 4 == 0 then 0 else 8 - n % 4 * 2
  }

  /** Six bits more, and eight fewer once there are eight. */
  function NextBits(bits: nat): nat {
    if bits < 2 then bits + 6 else bits - 2
  }

  lemma BitsMove(n: nat)
    ensures BitsAfter(n + 1) == NextBits(BitsAfter(n))
    ensures n >= 4 ==> BitsAfter(n) == BitsAfter(n - 4)
    ensures BitsAfter(0) == 0 && BitsAfter(1) == 6 && BitsAfter(2) == 4 && BitsAfter(3) == 2
  {
  }

  /** What one more sextet makes of the bytes so far and the bits left over. */
  ghost predicate TakesSextet(p: Partial<byte>, bits: nat, digit: sextet, q: Partial<byte>) {
    var value := p.left * 64 + digit;
    && bits in {0, 2, 4, 6} && p.left < Place(bits)
    && (bits < 2 ==> q == Partial(p.done, value))
    && (bits >= 2 ==> 0 <= value / Place(bits - 2) < 256
                      && q == Partial(p.done + [value / Place(bits - 2)], value % Place(bits - 2)))
  }

  lemma FirstSextet(digit: sextet)
    ensures TakesSextet(BytesOf([]), 0, digit, BytesOf([digit]))
  {
  }

  lemma SecondSextet(x: sextet, digit: sextet)
    ensures TakesSextet(BytesOf([x]), 6, digit, BytesOf([x, digit]))
  {
    assert BytesOf([x, digit]) == Partial([x * 4 + digit / 16], digit % 16);
    hide BytesOf;
    Shifted(x, digit, 16);
  }

  /** The bits left over, six more, cut where the next byte ends. */
  lemma Shifted(left: nat, digit: nat, place: nat)
    requires place in {4, 16, 64} && digit < 64
    ensures (left * 64 + digit) / place == left * (64 / place) + digit / place
    ensures (left * 64 + digit) % place == digit % place
  {
  }

  lemma ThirdSextet(x: sextet, y: sextet, digit: sextet)
    ensures TakesSextet(BytesOf([x, y]), 4, digit, BytesOf([x, y, digit]))
  {
    assert BytesOf([x, y]) == Partial([x * 4 + y / 16], y % 16);
    assert BytesOf([x, y, digit]) == Partial([x * 4 + y / 16, y % 16 * 16 + digit / 4], digit % 4);
    hide BytesOf;
    Shifted(y % 16, digit, 4);
  }

  lemma FourthSextet(x: sextet, y: sextet, z: sextet, digit: sextet)
    ensures TakesSextet(BytesOf([x, y, z]), 2, digit, BytesOf([x, y, z, digit]))
  {
    assert BytesOf([x, y, z]) == Partial([x * 4 + y / 16, y % 16 * 16 + z / 4], z % 4);
    assert [x, y, z, digit][4..] == [];
    assert BytesOf([x, y, z, digit]) == Partial([x * 4 + y / 16, y % 16 * 16 + z / 4, z % 4 * 64 + digit], 0);
  }

  lemma SextetInGroup(s: seq<sextet>, digit: sextet)
    requires |s| < 4
    ensures TakesSextet(BytesOf(s), BitsAfter(|s|), digit, BytesOf(s + [digit]))
  {
    hide BytesOf, TakesSextet, BitsAfter;
    BitsMove(0);
    if |s| == 0 {
      FirstSextet(digit);
      assert s == [] && s + [digit] == [digit];
    } else if |s| == 1 {
      SecondSextet(s[0], digit);
      assert s == [s[0]] && s + [digit] == [s[0], digit];
    } else if |s| == 2 {
      ThirdSextet(s[0], s[1], digit);
      assert s == [s[0], s[1]] && s + [digit] == [s[0], s[1], digit];
    } else {
      FourthSextet(s[0], s[1], s[2], digit);
      assert s == [s[0], s[1], s[2]] && s + [digit] == [s[0], s[1], s[2], digit];
    }
  }

  lemma SextetBehind(head: seq<byte>, p: Partial<byte>, bits: nat, digit: sextet, q: Partial<byte>)
    requires TakesSextet(p, bits, digit, q)
    ensures TakesSextet(Partial(head + p.done, p.left), bits, digit, Partial(head + q.done, q.left))
  {
  }

  lemma WholeGroup(s: seq<sextet>)
    requires |s| >= 4
    ensures BytesOf(s).done == GroupBytes(s[0], s[1], s[2], s[3]) + BytesOf(s[4..]).done
    ensures BytesOf(s).left == BytesOf(s[4..]).left
  {
  }

  /** One more sextet: it completes a byte, unless it begins a group. */
  lemma {:induction false} OneMoreSextet(s: seq<sextet>, digit: sextet)
    ensures TakesSextet(BytesOf(s), BitsAfter(|s|), digit, BytesOf(s + [digit]))
    decreases |s|
  {
    hide Place, BytesOf, TakesSextet, GroupBytes, BitsAfter;
    if |s| < 4 {
      SextetInGroup(s, digit);
    } else {
      OneMoreSextet(s[4..], digit);
      SextetInRest(s, digit);
    }
  }

  lemma SextetInRest(s: seq<sextet>, digit: sextet)
    requires |s| >= 4
    requires TakesSextet(BytesOf(s[4..]), BitsAfter(|s[4..]|), digit, BytesOf(s[4..] + [digit]))
    ensures TakesSextet(BytesOf(s), BitsAfter(|s|), digit, BytesOf(s + [digit]))
  {
    hide Place, BytesOf, TakesSextet, GroupBytes, BitsAfter;
    var rest, longer := s[4..], s + [digit];
    WholeGroup(s);
    WholeGroup(longer);
    assert longer[4..] == rest + [digit];
    var head := GroupBytes(s[0], s[1], s[2], s[3]);
    SextetBehind(head, BytesOf(rest), BitsAfter(|rest|), digit, BytesOf(rest + [digit]));
    BitsMove(|s|);
    assert BytesOf(s) == Partial(head + BytesOf(rest).done, BytesOf(rest).left);
    assert BytesOf(longer) == Partial(head + BytesOf(rest + [digit]).done, BytesOf(rest + [digit]).left);
  }

  lemma SextetFits(p: Partial<byte>, bits: nat, digit: sextet, q: Partial<byte>)
    requires TakesSextet(p, bits, digit, q)
    ensures bits in {0, 2, 4, 6} && p.left < Place(bits)
  {
  }

  lemma SextetIsTakenOnce(p: Partial<byte>, bits: nat, digit: sextet, q: Partial<byte>, r: Partial<byte>)
    requires TakesSextet(p, bits, digit, q) && TakesSextet(p, bits, digit, r)
    ensures q == r
  {
  }

  // ----- decoding -----

  /** The characters before the first padding character. */
  function Body(text: string): (body: string)
    ensures |body| <= |text| && body == text[..|body|] && '=' !in body
    ensures |body| < |text| ==> text[|body|] == '='
  {
    if text == "" || text[0] == '=' then "" else [text[0]] + Body(text[1..])
  }

  predicate AllDigits(body: string) {
    forall i :: 0 <= i < |body| ==> DigitOf(body[i]).Some?
  }

  function BodySextets(body: string): (s: seq<sextet>)
    requires AllDigits(body)
    ensures |s| == |body|
  {
    seq(|body|, i requires 0 <= i < |body| => DigitOf(body[i]).value)
  }

  function ExpectedPadding(n: nat): nat {
    if n % 4 == 0 then 0 else 4 - n % 4
  }

  /** Digits of either alphabet, then either the full padding or none, and no stray bits. */
  predicate Accepted(text: string) {
    var body := Body(text);
    var padding := |text| - |body|;
    && AllDigits(body)
    && (forall i :: |body| <= i < |text| ==> text[i] == '=')
    && (padding == 0 || padding == ExpectedPadding(|body|))
    && Whole(BodySextets(body))
  }

  lemma {:induction false} BodyIs(text: string, n: nat)
    requires n <= |text| && '=' !in text[..n] && (n < |text| ==> text[n] == '=')
    ensures Body(text) == text[..n]
  {
    if n > 0 {
      assert text[..n] == [text[0]] + text[1..][..n - 1];
      BodyIs(text[1..], n - 1);
    }
  }

  lemma {:induction false} BodyReaches(text: string, n: nat)
    requires n < |text| && '=' !in text[..n] && text[n] != '='
    ensures |Body(text)| > n && Body(text)[n] == text[n]
  {
    if n > 0 {
      assert text[..n] == [text[0]] + text[1..][..n - 1];
      BodyReaches(text[1..], n - 1);
    }
  }

  /** Shift six bits into the accumulator, and take a byte out of it when it holds one. */
  method PushDigit(before: seq<byte>, accumulator: nat, count: nat, digit: sextet)
    returns (result: seq<byte>, value: nat, bits: nat)
    requires count in {0, 2, 4, 6} && accumulator < Place(count)
    ensures TakesSextet(Partial(before, accumulator), count, digit, Partial(result, value))
    ensures bits == NextBits(count)
  {
    result, value, bits := before, accumulator * 64 + digit, count + 6;
    if bits >= 8 {
      bits := bits - 8;
      ByteFills(value, bits);
      hide Place;
      result := result + [value / Place(bits) % 256];
      value := if bits == 0 then 0 else value % Place(bits);
    }
  }

  lemma ByteFills(value: nat, bits: nat)
    requires bits in {0, 2, 4} && value < Place(bits + 2) * 64
    ensures value / Place(bits) < 256 && value / Place(bits) % 256 == value / Place(bits)
    ensures bits == 0 ==> value % Place(bits) == 0
  {
  }

  method Base64Decode(text: string) returns (r: Option<seq<byte>>)
    ensures r.Some? <==> Accepted(text)
    ensures r.Some? ==> r.value == BytesOf(BodySextets(Body(text))).done
  {
    hide Place, BytesOf, Body, DigitOf, BodySextets, Accepted, AllDigits, TakesSextet, BitsAfter;
    BitsMove(0);
    var result: seq<byte> := [];
    var value: nat, bits: nat, dataCharacters: nat, padding: nat := 0, 0, 0, 0;
    var sawPadding := false;
    NothingRead(text[..0]);
    for i := 0 to |text|
      invariant dataCharacters <= i && padding == i - dataCharacters && padding <= 2
      invariant sawPadding <==> padding > 0
      invariant '=' !in text[..dataCharacters] && AllDigits(text[..dataCharacters])
      invariant forall j :: dataCharacters <= j < i ==> text[j] == '='
      invariant BytesOf(BodySextets(text[..dataCharacters])) == Partial(result, value)
      invariant bits == BitsAfter(dataCharacters)
    {
      if text[i] == '=' {
        sawPadding := true;
        padding := padding + 1;
        if padding > 2 {
          TooMuchPadding(text, dataCharacters, i);
          return None;
        }
      } else {
        var digit := DigitOf(text[i]);
        if sawPadding || digit.None? {
          Refused(text, dataCharacters, i);
          return None;
        }
        Extended(text, i);
        ghost var s := BodySextets(text[..i]);
        OneMoreSextet(s, digit.value);
        ghost var before := Partial(result, value);
        SextetFits(before, bits, digit.value, BytesOf(s + [digit.value]));
        BitsMove(i);
        result, value, bits := PushDigit(result, value, bits, digit.value);
        SextetIsTakenOnce(before, BitsAfter(i), digit.value, BytesOf(s + [digit.value]), Partial(result, value));
        dataCharacters := dataCharacters + 1;
      }
    }
    AcceptedIff(text, dataCharacters, result, value);
    var remainder := dataCharacters % 4;
    var expectedPadding := if remainder == 0 then 0 else 4 - remainder;
    if remainder == 1
       || (padding != 0 && (padding != expectedPadding || (dataCharacters + padding) % 4 != 0))
       || value != 0
    {
      return None;
    }
    return Some(result);
  }

  /** What the final checks decide. */
  lemma AcceptedIff(text: string, n: nat, result: seq<byte>, value: nat)
    requires n <= |text| && '=' !in text[..n] && AllDigits(text[..n])
    requires forall j :: n <= j < |text| ==> text[j] == '='
    requires BytesOf(BodySextets(text[..n])) == Partial(result, value)
    ensures Body(text) == text[..n]
    ensures Accepted(text) <==> n % 4 != 1 && (|text| - n == 0 || |text| - n == ExpectedPadding(n)) && value == 0
  {
    hide BytesOf;
    BodyIs(text, n);
  }

  lemma TooMuchPadding(text: string, n: nat, i: nat)
    requires n <= i < |text| && '=' !in text[..n] && i + 1 - n > 2
    requires forall j :: n <= j <= i ==> text[j] == '='
    ensures !Accepted(text)
  {
    hide BytesOf;
    BodyIs(text, n);
    assert |text| - n > 2;
    LoneSextet(n);
  }

  /** Three padding characters would belong to a lone sextet. */
  lemma LoneSextet(n: nat)
    ensures ExpectedPadding(n) > 2 <==> n % 4 == 1
  {
  }

  lemma NothingRead(text: string)
    requires text == ""
    ensures AllDigits(text) && BytesOf(BodySextets(text)) == Partial([], 0)
  {
  }

  lemma Extended(text: string, i: nat)
    requires i < |text| && AllDigits(text[..i]) && DigitOf(text[i]).Some?
    ensures AllDigits(text[..i + 1])
    ensures BodySextets(text[..i + 1]) == BodySextets(text[..i]) + [DigitOf(text[i]).value]
  {
    assert forall j :: 0 <= j < i ==> text[..i + 1][j] == text[..i][j];
  }

  lemma Refused(text: string, n: nat, i: nat)
    requires n <= i < |text| && '=' !in text[..n] && text[i] != '='
    requires forall j :: n <= j < i ==> text[j] == '='
    requires n < i || DigitOf(text[i]).None?
    ensures !Accepted(text)
  {
    if n < i {
      BodyIs(text, n);
    } else {
      BodyReaches(text, n);
    }
  }

  // ----- encoding -----

  /** The sextets that whole bytes complete, and the bits that are left over. */
  function SextetsOf(data: seq<byte>): Partial<sextet> {
    if data == [] then Partial([], 0)
    else
      var a: nat := data[0];
      if |data| == 1 then Partial([a / 4], a % 4)
      else
        var b: nat := data[1];
        if |data| == 2 then Partial([a / 4, a % 4 * 16 + b / 16], b % 16)
        else
          var c: nat := data[2];
          var rest := SextetsOf(data[3..]);
          Partial(GroupSextets(a, b, c) + rest.done, rest.left)
  }

  function BitsOfBytes(n: nat): (bits: nat)
    ensures bits in {0, 2, 4}
  {
    n % 3 * 2
  }

  function NextBitsOfBytes(bits: nat): nat {
    if bits < 4 then bits + 2 else bits - 4
  }

  lemma BitsOfBytesMove(n: nat)
    ensures BitsOfBytes(n + 1) == NextBitsOfBytes(BitsOfBytes(n))
    ensures n >= 3 ==> BitsOfBytes(n) == BitsOfBytes(n - 3)
    ensures BitsOfBytes(0) == 0 && BitsOfBytes(1) == 2 && BitsOfBytes(2) == 4
  {
  }

  /** What one more byte makes of the sextets so far and the bits left over. */
  ghost predicate TakesByte(p: Partial<sextet>, bits: nat, next: byte, q: Partial<sextet>) {
    var value := p.left * 256 + next;
    && bits in {0, 2, 4} && p.left < Place(bits)
    && 0 <= value / Place(bits + 2) < 64
    && (bits < 4 ==> q == Partial(p.done + [value / Place(bits + 2)], value % Place(bits + 2)))
    && (bits == 4 ==> value / 64 < 64 && q == Partial(p.done + [value / 64, value % 64], 0))
  }

  lemma FirstByte(next: byte)
    ensures TakesByte(SextetsOf([]), 0, next, SextetsOf([next]))
  {
  }

  lemma SecondByte(a: byte, next: byte)
    ensures TakesByte(SextetsOf([a]), 2, next, SextetsOf([a, next]))
  {
    assert SextetsOf([a, next]) == Partial([a / 4, a % 4 * 16 + next / 16], next % 16);
  }

  lemma ThirdByte(a: byte, b: byte, next: byte)
    ensures TakesByte(SextetsOf([a, b]), 4, next, SextetsOf([a, b, next]))
  {
    assert SextetsOf([a, b]) == Partial([a / 4, a % 4 * 16 + b / 16], b % 16);
    assert [a, b, next][3..] == [];
    assert SextetsOf([a, b, next]) == Partial([a / 4, a % 4 * 16 + b / 16, b % 16 * 4 + next / 64, next % 64], 0);
  }

  lemma ByteInGroup(data: seq<byte>, next: byte)
    requires |data| < 3
    ensures TakesByte(SextetsOf(data), BitsOfBytes(|data|), next, SextetsOf(data + [next]))
  {
    hide SextetsOf, TakesByte, BitsOfBytes;
    BitsOfBytesMove(0);
    if |data| == 0 {
      FirstByte(next);
      assert data == [] && data + [next] == [next];
    } else if |data| == 1 {
      SecondByte(data[0], next);
      assert data == [data[0]] && data + [next] == [data[0], next];
    } else {
      ThirdByte(data[0], data[1], next);
      assert data == [data[0], data[1]] && data + [next] == [data[0], data[1], next];
    }
  }

  lemma ByteBehind(head: seq<sextet>, p: Partial<sextet>, bits: nat, next: byte, q: Partial<sextet>)
    requires TakesByte(p, bits, next, q)
    ensures TakesByte(Partial(head + p.done, p.left), bits, next, Partial(head + q.done, q.left))
  {
  }

  lemma WholeTriple(data: seq<byte>)
    requires |data| >= 3
    ensures SextetsOf(data).done == GroupSextets(data[0], data[1], data[2]) + SextetsOf(data[3..]).done
    ensures SextetsOf(data).left == SextetsOf(data[3..]).left
    ensures Sextets(data) == GroupSextets(data[0], data[1], data[2]) + Sextets(data[3..])
  {
    hide GroupSextets;
  }

  /** One more byte completes one sextet, or two when it ends a group. */
  lemma {:induction false} OneMoreByte(data: seq<byte>, next: byte)
    ensures TakesByte(SextetsOf(data), BitsOfBytes(|data|), next, SextetsOf(data + [next]))
    decreases |data|
  {
    hide Place, SextetsOf, Sextets, TakesByte, GroupSextets, BitsOfBytes;
    if |data| < 3 {
      ByteInGroup(data, next);
    } else {
      var rest, longer := data[3..], data + [next];
      OneMoreByte(rest, next);
      WholeTriple(data);
      WholeTriple(longer);
      assert longer[3..] == rest + [next];
      var head := GroupSextets(data[0], data[1], data[2]);
      ByteBehind(head, SextetsOf(rest), BitsOfBytes(|rest|), next, SextetsOf(rest + [next]));
      BitsOfBytesMove(|data|);
      assert SextetsOf(data) == Partial(head + SextetsOf(rest).done, SextetsOf(rest).left);
      assert SextetsOf(longer) == Partial(head + SextetsOf(rest + [next]).done, SextetsOf(rest + [next]).left);
    }
  }

  lemma ByteFits(p: Partial<sextet>, bits: nat, next: byte, q: Partial<sextet>)
    requires TakesByte(p, bits, next, q)
    ensures bits in {0, 2, 4} && p.left < Place(bits)
  {
  }

  lemma ByteIsTakenOnce(p: Partial<sextet>, bits: nat, next: byte, q: Partial<sextet>, r: Partial<sextet>)
    requires TakesByte(p, bits, next, q) && TakesByte(p, bits, next, r)
    ensures q == r
  {
  }

  /** The bits left over at the end fill one more sextet. */
  ghost predicate FillsUp(p: Partial<sextet>, bits: nat, s: seq<sextet>) {
    && bits in {0, 2, 4} && p.left * Place(6 - bits) < 64
    && s == p.done + (if bits > 0 then [p.left * Place(6 - bits)] else [])
  }

  lemma LastOfNone()
    ensures FillsUp(SextetsOf([]), 0, Sextets([]))
  {
  }

  lemma LastOfOne(a: byte)
    ensures FillsUp(SextetsOf([a]), 2, Sextets([a]))
  {
    assert Sextets([a]) == [a / 4] + [a % 4 * 16];
  }

  lemma LastOfTwo(a: byte, b: byte)
    ensures FillsUp(SextetsOf([a, b]), 4, Sextets([a, b]))
  {
    assert Sextets([a, b]) == [a / 4, a % 4 * 16 + b / 16] + [b % 16 * 4];
  }

  lemma LastInGroup(data: seq<byte>)
    requires |data| < 3
    ensures FillsUp(SextetsOf(data), BitsOfBytes(|data|), Sextets(data))
  {
    hide SextetsOf, Sextets, FillsUp, BitsOfBytes;
    BitsOfBytesMove(0);
    if |data| == 0 {
      LastOfNone();
      assert data == [];
    } else if |data| == 1 {
      assert data == [data[0]];
      LastOfOne(data[0]);
    } else {
      assert data == [data[0], data[1]];
      LastOfTwo(data[0], data[1]);
    }
  }

  lemma {:induction false} LastSextet(data: seq<byte>)
    ensures FillsUp(SextetsOf(data), BitsOfBytes(|data|), Sextets(data))
    decreases |data|
  {
    hide Place, SextetsOf, Sextets, GroupSextets, BitsOfBytes;
    if |data| < 3 {
      LastInGroup(data);
    } else {
      LastSextet(data[3..]);
      WholeTriple(data);
      BitsOfBytesMove(|data|);
    }
  }

  function Letters(s: seq<sextet>): (text: string)
    ensures |text| == |s| && '=' !in text && AllDigits(text) && BodySextets(text) == s
  {
    seq(|s|, i requires 0 <= i < |s| => CharOf(s[i]))
  }

  function Padding64(n: nat): (padding: string)
    ensures |padding| == ExpectedPadding(n) && forall i :: 0 <= i < |padding| ==> padding[i] == '='
  {
    seq(ExpectedPadding(n), i => '=')
  }

  /** The URL-safe letters of the sextets, filled up to whole groups. */
  function EncodedText(s: seq<sextet>): string {
    Letters(s) + Padding64(|s|)
  }

  method Base64UrlEncode(data: seq<byte>) returns (text: string)
    ensures text == EncodedText(Sextets(data))
  {
    hide Place, SextetsOf, Sextets, CharOf, TakesByte, Letters, FillsUp, BitsOfBytes;
    BitsOfBytesMove(0);
    text := "";
    var value: nat, bits: nat := 0, 0;
    ghost var done: seq<sextet> := [];
    NothingWritten(data[..0]);
    for i := 0 to |data|
      invariant bits == BitsOfBytes(i) && SextetsOf(data[..i]) == Partial(done, value) && text == Letters(done)
    {
      OneMoreByte(data[..i], data[i]);
      assert data[..i + 1] == data[..i] + [data[i]];
      ghost var before := Partial(done, value);
      ByteFits(before, bits, data[i], SextetsOf(data[..i + 1]));
      BitsOfBytesMove(i);
      text, value, bits, done := PushByte(text, value, bits, data[i], done);
      ByteIsTakenOnce(before, BitsOfBytes(i), data[i], SextetsOf(data[..i + 1]), Partial(done, value));
    }
    assert data[..|data|] == data;
    LastSextet(data);
    text := PushRest(text, value, bits, done, Sextets(data));
    text := FillUp(text);
  }

  /** The bits left over, filled up with zeros. */
  method PushRest(before: string, value: nat, bits: nat, ghost done: seq<sextet>, ghost s: seq<sextet>)
    returns (text: string)
    requires before == Letters(done) && FillsUp(Partial(done, value), bits, s)
    ensures text == Letters(s)
  {
    text := before;
    if bits > 0 {
      text := text + [CharOf(value * Place(6 - bits) % 64)];
    }
  }

  method FillUp(letters: string) returns (text: string)
    ensures text == letters + Padding64(|letters|)
  {
    text := letters;
    while |text| % 4 != 0
      invariant letters <= text && |text| - |letters| <= ExpectedPadding(|letters|)
      invariant forall j :: |letters| <= j < |text| ==> text[j] == '='
      decreases ExpectedPadding(|letters|) + |letters| - |text|
    {
      text := text + ['='];
    }
    assert text == letters + Padding64(|letters|);
  }

  lemma NothingWritten(data: seq<byte>)
    requires data == []
    ensures SextetsOf(data) == Partial([], 0) && Letters([]) == ""
  {
  }

  /** The sextets of an accumulator of 8, 10 or 12 bits. */
  lemma Emits(whole: nat, count: nat)
    requires count in {0, 2, 4} && whole < Place(count) * 256
    ensures whole / Place(count + 2) < 64 && whole / Place(count + 2) % 64 == whole / Place(count + 2)
    ensures whole % Place(6) / Place(0) % 64 == whole % 64 && Place(6) == 64
  {
  }

  lemma Taken(done: seq<sextet>, accumulator: nat, count: nat, next: byte, now: seq<sextet>, value: nat)
    requires count in {0, 2, 4} && accumulator < Place(count)
    requires var whole := accumulator * 256 + next;
      if count == 4 then whole / 64 < 64 && now == done + [whole / 64, whole % 64] && value == 0
      else now == done + [whole / Place(count + 2)] && value == whole % Place(count + 2)
    ensures TakesByte(Partial(done, accumulator), count, next, Partial(now, value))
  {
    Emits(accumulator * 256 + next, count);
  }

  /** Shift eight bits into the accumulator, and write sextets while it holds one. */
  method PushByte(before: string, accumulator: nat, count: nat, next: byte, ghost done: seq<sextet>)
    returns (text: string, value: nat, bits: nat, ghost now: seq<sextet>)
    requires before == Letters(done) && count in {0, 2, 4} && accumulator < Place(count)
    ensures text == Letters(now) && bits == NextBitsOfBytes(count)
    ensures TakesByte(Partial(done, accumulator), count, next, Partial(now, value))
  {
    text, value, bits, now := before, accumulator * 256 + next, count + 8, done;
    ghost var whole := value;
    Emits(whole, count);
    hide Place, TakesByte;
    while bits >= 6
      invariant text == Letters(now)
      invariant bits == count + 8 ==> value == whole && now == done
      invariant bits == count + 8 || bits == count + 2 || (count == 4 && bits == 0)
      invariant bits == count + 2 ==> now == done + [whole / Place(count + 2)] && value == whole % Place(count + 2)
      invariant count == 4 && bits == 0 ==> now == done + [whole / 64, whole % 64] && value == 0
      decreases bits
    {
      bits := bits - 6;
      var digit: sextet := value / Place(bits) % 64;
      text, now := AppendLetter(text, digit, now);
      value := if bits == 0 then 0 else value % Place(bits);
    }
    Taken(done, accumulator, count, next, now, value);
  }

  method AppendLetter(before: string, digit: sextet, ghost done: seq<sextet>)
    returns (text: string, ghost now: seq<sextet>)
    requires before == Letters(done)
    ensures now == done + [digit] && text == Letters(now)
  {
    text, now := before + [CharOf(digit)], done + [digit];
  }

  // ----- round trips -----

  /** Decoding the encoding of any bytes gives the bytes. */
  lemma EncodingDecodes(data: seq<byte>)
    ensures Accepted(EncodedText(Sextets(data)))
    ensures BytesOf(BodySextets(Body(EncodedText(Sextets(data))))).done == data
  {
    var s := Sextets(data);
    var text := EncodedText(s);
    assert text[..|s|] == Letters(s);
    BodyIs(text, |s|);
    BytesRead(data);
  }

  /** The text in the URL-safe alphabet, with its padding filled up. */
  function Normal(text: string): string
    requires AllDigits(Body(text))
  {
    EncodedText(BodySextets(Body(text)))
  }

  /** Normal form changes only the two letters of the other alphabet, and adds only missing padding. */
  lemma NormalKeepsLetters(text: string)
    requires Accepted(text)
    ensures |text| <= |Normal(text)| && (|text| > |Body(text)| ==> |text| == |Normal(text)|)
    ensures forall i :: 0 <= i < |text| ==>
      Normal(text)[i] == if text[i] == '+' then '-' else if text[i] == '/' then '_' else text[i]
    ensures forall i :: |text| <= i < |Normal(text)| ==> Normal(text)[i] == '='
  {
    var body := Body(text);
    var s := BodySextets(body);
    forall i | 0 <= i < |body|
      ensures Letters(s)[i] == if body[i] == '+' then '-' else if body[i] == '/' then '_' else body[i]
    {
      SameLetter(body[i]);
    }
    forall i | 0 <= i < |text|
      ensures Normal(text)[i] == if text[i] == '+' then '-' else if text[i] == '/' then '_' else text[i]
    {
      if i < |body| {
        assert text[i] == body[i];
      }
    }
  }

  lemma SameLetter(c: char)
    requires DigitOf(c).Some?
    ensures CharOf(DigitOf(c).value) == if c == '+' then '-' else if c == '/' then '_' else c
  {
  }

  /** Every accepted text is the encoding of what it decodes to, up to the alphabet and missing padding. */
  lemma DecodingEncodes(text: string)
    requires Accepted(text)
    ensures EncodedText(Sextets(BytesOf(BodySextets(Body(text))).done)) == Normal(text)
  {
    SextetsRead(BodySextets(Body(text)));
  }

  /** Two accepted texts of the same bytes differ only in alphabet and padding. */
  lemma SameBytesSameNormal(a: string, b: string)
    requires Accepted(a) && Accepted(b)
    requires BytesOf(BodySextets(Body(a))).done == BytesOf(BodySextets(Body(b))).done
    ensures Normal(a) == Normal(b)
  {
    DecodingEncodes(a);
    DecodingEncodes(b);
  }
}
