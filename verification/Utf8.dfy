/**
 * The UTF-8 of Unicode.cpp: the one to six byte form of section 2 of RFC 2279, without
 * surrogates and without U+FFFE and U+FFFF.
 */
module Utf8 {
  import opened Bytes

  const INVALID := 0xffff
  const REPLACEMENT := 0xfffd

  predicate Surrogate(c: int) {
    0xd800 <= c <= 0xdfff
  }

  predicate Noncharacter(c: int) {
    c == 0xfffe || c == 0xffff
  }

  /** What toUTF8 encodes as it is. */
  predicate Encodable(c: int) {
    0 <= c < 0x80000000 && !Surrogate(c)
  }

  /** What fromUTF8 accepts. */
  predicate ValidCode(c: int) {
    Encodable(c) && !Noncharacter(c)
  }

  predicate AllValid(cs: seq<int>) {
    forall i :: 0 <= i < |cs| ==> ValidCode(cs[i])
  }

  // ---------------------------------------------------------------- encoding

  function Encode(c: int): (r: seq<byte>)
    requires Encodable(c)
    ensures 1 <= |r| <= 6
  {
    if c < 0x80 then [c]
    else if c < 0x800 then [c / 0x40 + 0xc0, c % 0x40 + 0x80]
    else if c < 0x10000 then [c / 0x1000 + 0xe0, c / 0x40 % 0x40 + 0x80, c % 0x40 + 0x80]
    else if c < 0x200000 then
      [c / 0x40000 + 0xf0, c / 0x1000 % 0x40 + 0x80, c / 0x40 % 0x40 + 0x80, c % 0x40 + 0x80]
    else if c < 0x4000000 then
      [c / 0x1000000 + 0xf8, c / 0x40000 % 0x40 + 0x80, c / 0x1000 % 0x40 + 0x80, c / 0x40 % 0x40 + 0x80,
       c % 0x40 + 0x80]
    else
      [c / 0x40000000 + 0xfc, c / 0x1000000 % 0x40 + 0x80, c / 0x40000 % 0x40 + 0x80, c / 0x1000 % 0x40 + 0x80,
       c / 0x40 % 0x40 + 0x80, c % 0x40 + 0x80]
  }

  function EncodeAll(cs: seq<int>): (r: seq<byte>)
    requires forall i :: 0 <= i < |cs| ==> Encodable(cs[i])
  {
    if cs == [] then [] else Encode(cs[0]) + EncodeAll(cs[1..])
  }

  // ---------------------------------------------------------------- decoding

  /** The length that a first byte announces; zero if it cannot be a first byte. */
  function LeadSize(b: byte): (k: nat)
    ensures k <= 6
  {
    if b < 0x80 then 1
    else if b < 0xc0 then 0
    else if b < 0xe0 then 2
    else if b < 0xf0 then 3
    else if b < 0xf8 then 4
    else if b < 0xfc then 5
    else if b < 0xfe then 6
    else 0
  }

  predicate Continuation(b: byte) {
    0x80 <= b < 0xc0
  }

  /** The six bits that a continuation byte carries. */
  function Tail(b: byte): (d: int)
    ensures Digit(d)
    ensures Continuation(b) ==> d == b - 0x80
  {
    b % 0x40
  }

  predicate Digit(d: int) {
    0 <= d < 0x40
  }

  /** The number that a sequence of `k` bytes stands for. */
  function Value(s: seq<byte>, k: nat): int
    requires 1 <= k <= 6 && k <= |s|
  {
    var b0: int := s[0];
    if k == 1 then b0
    else
      var b1 := Tail(s[1]);
      if k == 2 then b0 % 0x20 * 0x40 + b1
      else
        var b2 := Tail(s[2]);
        if k == 3 then b0 % 0x10 * 0x1000 + b1 * 0x40 + b2
        else
          var b3 := Tail(s[3]);
          if k == 4 then b0 % 0x8 * 0x40000 + b1 * 0x1000 + b2 * 0x40 + b3
          else
            var b4 := Tail(s[4]);
            if k == 5 then b0 % 0x4 * 0x1000000 + b1 * 0x40000 + b2 * 0x1000 + b3 * 0x40 + b4
            else
              var b5 := Tail(s[5]);
              b0 % 0x2 * 0x40000000 + b1 * 0x1000000 + b2 * 0x40000 + b3 * 0x1000 + b4 * 0x40 + b5
  }

  /** Where the sequence stops: at the first byte that does not continue it. */
  function Extent(s: seq<byte>, k: nat): (n: nat)
    requires 1 <= k <= 6 && k <= |s|
    ensures 1 <= n <= k
    ensures forall i :: 1 <= i < n ==> Continuation(s[i])
    ensures n < k ==> !Continuation(s[n])
  {
    var n6 := if k >= 6 && !Continuation(s[5]) then 5 else k;
    var n5 := if k >= 5 && !Continuation(s[4]) then 4 else n6;
    var n4 := if k >= 4 && !Continuation(s[3]) then 3 else n5;
    var n3 := if k >= 3 && !Continuation(s[2]) then 2 else n4;
    if k >= 2 && !Continuation(s[1]) then 1 else n3
  }

  function MinChar(k: nat): int
    requires 1 <= k <= 6
  {
    if k == 1 then 0
    else if k == 2 then 0x80
    else if k == 3 then 0x800
    else if k == 4 then 0x10000
    else if k == 5 then 0x200000
    else 0x4000000
  }

  datatype Step = Step(code: int, used: nat)

  /** One step of the decoder: a code or INVALID, and how many bytes it takes. */
  function FromUTF8(s: seq<byte>): (r: Step)
    requires s != []
    ensures 1 <= r.used <= |s|
  {
    var k := LeadSize(s[0]);
    if k == 0 then Step(INVALID, 1)
    else if k > |s| then Step(INVALID, |s|)
    else if Extent(s, k) < k then Step(INVALID, Extent(s, k))
    else
      var c := Value(s, k);
      if c < MinChar(k) || Surrogate(c) || Noncharacter(c) then Step(INVALID, k) else Step(c, k)
  }

  // ---------------------------------------------------------------- one code

  /** The digits of a number in base 64. */
  lemma Digits(c: int)
    requires 0 <= c
    ensures c == c / 0x40 * 0x40 + c % 0x40
    ensures c / 0x40 == c / 0x1000 * 0x40 + c / 0x40 % 0x40
    ensures c / 0x1000 == c / 0x40000 * 0x40 + c / 0x1000 % 0x40
    ensures c / 0x40000 == c / 0x1000000 * 0x40 + c / 0x40000 % 0x40
    ensures c / 0x1000000 == c / 0x40000000 * 0x40 + c / 0x1000000 % 0x40
  {
    assert c / 0x40 / 0x40 == c / 0x1000;
    assert c / 0x1000 / 0x40 == c / 0x40000;
    assert c / 0x40000 / 0x40 == c / 0x1000000;
    assert c / 0x1000000 / 0x40 == c / 0x40000000;
  }

  /** The encoding of a code has the length, the form and the value that the decoder expects. */
  ghost predicate Shaped(c: int)
    requires Encodable(c)
  {
    var e := Encode(c);
    && LeadSize(e[0]) == |e|
    && (forall i :: 1 <= i < |e| ==> Continuation(e[i]))
    && Value(e, |e|) == c && MinChar(|e|) <= c
  }

  lemma Value4(l: int, d1: int, d2: int, d3: int)
    requires 0 <= l < 8 && Digit(d1) && Digit(d2) && Digit(d3)
    ensures Value([l + 0xf0, d1 + 0x80, d2 + 0x80, d3 + 0x80], 4) == l * 0x40000 + d1 * 0x1000 + d2 * 0x40 + d3
  {
    hide Tail;
  }

  lemma Value5(l: int, d1: int, d2: int, d3: int, d4: int)
    requires 0 <= l < 4 && Digit(d1) && Digit(d2) && Digit(d3) && Digit(d4)
    ensures Value([l + 0xf8, d1 + 0x80, d2 + 0x80, d3 + 0x80, d4 + 0x80], 5)
            == l * 0x1000000 + d1 * 0x40000 + d2 * 0x1000 + d3 * 0x40 + d4
  {
    hide Tail;
  }

  lemma Value6(l: int, d1: int, d2: int, d3: int, d4: int, d5: int)
    requires 0 <= l < 2 && Digit(d1) && Digit(d2) && Digit(d3) && Digit(d4) && Digit(d5)
    ensures Value([l + 0xfc, d1 + 0x80, d2 + 0x80, d3 + 0x80, d4 + 0x80, d5 + 0x80], 6)
            == l * 0x40000000 + d1 * 0x1000000 + d2 * 0x40000 + d3 * 0x1000 + d4 * 0x40 + d5
  {
    hide Tail;
  }

  lemma Shaped2(c: int)
    requires Encodable(c) && c < 0x800
    ensures Shaped(c)
  {
    hide Tail;
  }

  lemma Shaped3(c: int)
    requires Encodable(c) && 0x800 <= c < 0x10000
    ensures Shaped(c)
  {
    hide Tail;
    Digits(c);
  }

  lemma Shaped4(c: int)
    requires Encodable(c) && 0x10000 <= c < 0x200000
    ensures Shaped(c)
  {
    hide Value;
    Digits(c);
    Value4(c / 0x40000, c / 0x1000 % 0x40, c / 0x40 % 0x40, c % 0x40);
  }

  lemma Shaped5(c: int)
    requires Encodable(c) && 0x200000 <= c < 0x4000000
    ensures Shaped(c)
  {
    hide Value;
    Digits(c);
    Value5(c / 0x1000000, c / 0x40000 % 0x40, c / 0x1000 % 0x40, c / 0x40 % 0x40, c % 0x40);
  }

  lemma Shaped6(c: int)
    requires Encodable(c) && 0x4000000 <= c
    ensures Shaped(c)
  {
    hide Value;
    Digits(c);
    Value6(c / 0x40000000, c / 0x1000000 % 0x40, c / 0x40000 % 0x40, c / 0x1000 % 0x40, c / 0x40 % 0x40, c % 0x40);
  }

  lemma EncodeShape(c: int)
    requires Encodable(c)
    ensures Shaped(c)
  {
    hide Shaped;
    if c < 0x800 { Shaped2(c); }
    else if c < 0x10000 { Shaped3(c); }
    else if c < 0x200000 { Shaped4(c); }
    else if c < 0x4000000 { Shaped5(c); }
    else { Shaped6(c); }
  }

  /** The first byte without its length mark. */
  function Mark(k: nat): int
    requires 1 <= k <= 6
  {
    [0, 0xc0, 0xe0, 0xf0, 0xf8, 0xfc][k - 1]
  }

  /** Six bits at a time, the most significant first. */
  function Big(top: int, tail: seq<byte>): int
    decreases |tail|
  {
    if tail == [] then top
    else
      var last: int := tail[|tail| - 1];
      Big(top, tail[..|tail| - 1]) * 0x40 + (last - 0x80)
  }

  lemma BigStep(top: int, tail: seq<byte>, next: int)
    requires 0x80 <= next < 0x100
    ensures Big(top, tail + [next]) == Big(top, tail) * 0x40 + (next - 0x80)
  {
    assert (tail + [next])[..|tail|] == tail;
  }

  lemma BigTwo(top: int, d1: int, d2: int)
    requires Digit(d1) && Digit(d2)
    ensures Big(top, []) == top && Big(top, [d1 + 0x80]) == top * 0x40 + d1
    ensures Big(top, [d1 + 0x80, d2 + 0x80]) == (top * 0x40 + d1) * 0x40 + d2
  {
    hide Big;
    assert Big(top, []) == top by { BigNone(top); }
    BigStep(top, [], d1 + 0x80);
    assert [] + [d1 + 0x80] == [d1 + 0x80];
    BigStep(top, [d1 + 0x80], d2 + 0x80);
    assert [d1 + 0x80] + [d2 + 0x80] == [d1 + 0x80, d2 + 0x80];
  }

  lemma BigNone(top: int)
    ensures Big(top, []) == top
  {
  }

  lemma BigFive(top: int, d1: int, d2: int, d3: int, d4: int, d5: int)
    requires Digit(d1) && Digit(d2) && Digit(d3) && Digit(d4) && Digit(d5)
    ensures var n3 := ((top * 0x40 + d1) * 0x40 + d2) * 0x40 + d3;
            var three := [d1 + 0x80, d2 + 0x80, d3 + 0x80];
            && Big(top, three) == n3
            && Big(top, three + [d4 + 0x80]) == n3 * 0x40 + d4
            && Big(top, three + [d4 + 0x80] + [d5 + 0x80]) == (n3 * 0x40 + d4) * 0x40 + d5
  {
    hide Big;
    BigTwo(top, d1, d2);
    BigStep(top, [d1 + 0x80, d2 + 0x80], d3 + 0x80);
    var three := [d1 + 0x80, d2 + 0x80, d3 + 0x80];
    assert [d1 + 0x80, d2 + 0x80] + [d3 + 0x80] == three;
    BigStep(top, three, d4 + 0x80);
    BigStep(top, three + [d4 + 0x80], d5 + 0x80);
  }

  /** The shortest length that has room, its mark, and the bits of the code with the highest first. */
  lemma EncodeIsBigEndian(c: int)
    requires Encodable(c)
    ensures var e := Encode(c);
            && |e| == (if c < 0x80 then 1 else if c < 0x800 then 2 else if c < 0x10000 then 3
                       else if c < 0x200000 then 4 else if c < 0x4000000 then 5 else 6)
            && Mark(|e|) <= e[0] && Big(e[0] as int - Mark(|e|), e[1..]) == c
  {
    hide Big;
    Digits(c);
    var e := Encode(c);
    if c < 0x80 {
      BigNone(c);
      assert e[1..] == [];
    } else if c < 0x10000 {
      var d1, d2 := c / 0x40 % 0x40, c % 0x40;
      BigTwo(if c < 0x800 then c / 0x40 else c / 0x1000, if c < 0x800 then d2 else d1, d2);
      assert e[1..] == if c < 0x800 then [d2 + 0x80] else [d1 + 0x80, d2 + 0x80];
    } else {
      BigLonger(c);
    }
  }

  lemma BigLonger(c: int)
    requires Encodable(c) && 0x10000 <= c
    ensures var e := Encode(c);
            Mark(|e|) <= e[0] && Big(e[0] as int - Mark(|e|), e[1..]) == c
  {
    hide Big;
    Digits(c);
    var e := Encode(c);
    var x5, x4, x3, x2, x1 :=
      c / 0x1000000 % 0x40, c / 0x40000 % 0x40, c / 0x1000 % 0x40, c / 0x40 % 0x40, c % 0x40;
    if c < 0x200000 {
      BigFive(c / 0x40000, x3, x2, x1, 0, 0);
      assert e[1..] == [x3 + 0x80, x2 + 0x80, x1 + 0x80];
    } else if c < 0x4000000 {
      BigFive(c / 0x1000000, x4, x3, x2, x1, 0);
      assert e[1..] == [x4 + 0x80, x3 + 0x80, x2 + 0x80] + [x1 + 0x80];
    } else {
      BigFive(c / 0x40000000, x5, x4, x3, x2, x1);
      assert e[1..] == [x5 + 0x80, x4 + 0x80, x3 + 0x80] + [x2 + 0x80] + [x1 + 0x80];
    }
  }

  lemma ValueOfPrefix(s: seq<byte>, t: seq<byte>, k: nat)
    requires 1 <= k <= 6 && k <= |s|
    ensures Value(s + t, k) == Value(s, k)
  {
  }

  /** Decoding undoes encoding, whatever follows. */
  lemma DecodeEncode(c: int, rest: seq<byte>)
    requires Encodable(c)
    ensures FromUTF8(Encode(c) + rest) == Step(if Noncharacter(c) then INVALID else c, |Encode(c)|)
  {
    hide Encode, Value, LeadSize, MinChar;
    EncodeShape(c);
    var e := Encode(c);
    var s := e + rest;
    assert s[0] == e[0] && LeadSize(s[0]) == |e|;
    assert forall i :: 1 <= i < |e| ==> s[i] == e[i];
    assert Extent(s, |e|) == |e|;
    ValueOfPrefix(e, rest, |e|);
  }

  /** Taking one base 64 digit off. */
  lemma Horner(a: int, d: int)
    requires 0 <= a && Digit(d)
    ensures (a * 0x40 + d) / 0x40 == a && (a * 0x40 + d) % 0x40 == d
  {
  }

  lemma Undigits(l: int, d1: int, d2: int, d3: int, d4: int, d5: int)
    requires 0 <= l && Digit(d1) && Digit(d2) && Digit(d3) && Digit(d4) && Digit(d5)
    ensures var c := l * 0x40000000 + d1 * 0x1000000 + d2 * 0x40000 + d3 * 0x1000 + d4 * 0x40 + d5;
            && c % 0x40 == d5 && c / 0x40 % 0x40 == d4 && c / 0x1000 % 0x40 == d3 && c / 0x40000 % 0x40 == d2
            && c / 0x1000000 % 0x40 == d1 && c / 0x40000000 == l
            && c / 0x1000000 == l * 0x40 + d1
            && c / 0x40000 == (l * 0x40 + d1) * 0x40 + d2
            && c / 0x1000 == ((l * 0x40 + d1) * 0x40 + d2) * 0x40 + d3
            && c / 0x40 == (((l * 0x40 + d1) * 0x40 + d2) * 0x40 + d3) * 0x40 + d4
  {
    var c := l * 0x40000000 + d1 * 0x1000000 + d2 * 0x40000 + d3 * 0x1000 + d4 * 0x40 + d5;
    var c1 := l * 0x1000000 + d1 * 0x40000 + d2 * 0x1000 + d3 * 0x40 + d4;
    var c2 := l * 0x40000 + d1 * 0x1000 + d2 * 0x40 + d3;
    var c3 := l * 0x1000 + d1 * 0x40 + d2;
    var c4 := l * 0x40 + d1;
    assert c == c1 * 0x40 + d5;
    Horner(c1, d5);
    Horner(c2, d4);
    Horner(c3, d3);
    Horner(c4, d2);
    Horner(l, d1);
    Digits(c);
  }

  /** The bytes of an accepted sequence are those of the encoding of its value. */
  ghost predicate Encoded(s: seq<byte>, k: nat)
    requires 1 <= k <= 6 && k <= |s|
  {
    var c := Value(s, k);
    Encodable(c) ==> s[..k] == Encode(c)
  }

  ghost predicate Sequence(s: seq<byte>, k: nat) {
    && 1 <= k <= 6 && k <= |s|
    && LeadSize(s[0]) == k
    && (forall i :: 1 <= i < k ==> Continuation(s[i]))
    && MinChar(k) <= Value(s, k)
  }

  lemma Encoded2(s: seq<byte>, k: nat)
    requires Sequence(s, k) && k <= 2
    ensures Value(s, k) < 0x800 && Encoded(s, k)
  {
  }

  lemma Encoded3(s: seq<byte>)
    requires Sequence(s, 3)
    ensures Value(s, 3) < 0x10000 && Encoded(s, 3)
  {
    var b0: int, d1: int, d2: int := s[0] - 0xe0, s[1] - 0x80, s[2] - 0x80;
    assert Value(s, 3) == b0 * 0x1000 + d1 * 0x40 + d2;
    Undigits(0, 0, 0, b0, d1, d2);
  }

  lemma Encoded4(s: seq<byte>)
    requires Sequence(s, 4)
    ensures Value(s, 4) < 0x200000 && Encoded(s, 4)
  {
    var l: int, d1: int, d2: int, d3: int := s[0] - 0xf0, s[1] - 0x80, s[2] - 0x80, s[3] - 0x80;
    assert s[..4] == [l + 0xf0, d1 + 0x80, d2 + 0x80, d3 + 0x80];
    assert Value(s, 4) == l * 0x40000 + d1 * 0x1000 + d2 * 0x40 + d3 by { Value4(l, d1, d2, d3); }
    Undigits(0, 0, l, d1, d2, d3);
  }

  lemma Encoded5(s: seq<byte>)
    requires Sequence(s, 5)
    ensures Value(s, 5) < 0x4000000 && Encoded(s, 5)
  {
    hide Value;
    var l: int, d1: int, d2: int, d3: int, d4: int := s[0] - 0xf8, s[1] - 0x80, s[2] - 0x80, s[3] - 0x80, s[4] - 0x80;
    assert s[..5] == [l + 0xf8, d1 + 0x80, d2 + 0x80, d3 + 0x80, d4 + 0x80];
    ValueOfPrefix(s[..5], s[5..], 5);
    assert s[..5] + s[5..] == s;
    Value5(l, d1, d2, d3, d4);
    Undigits(0, l, d1, d2, d3, d4);
  }

  lemma Encoded6(s: seq<byte>)
    requires Sequence(s, 6)
    ensures Value(s, 6) < 0x80000000 && Encoded(s, 6)
  {
    hide Value;
    var l: int, d1: int, d2: int, d3: int, d4: int, d5: int :=
      s[0] - 0xfc, s[1] - 0x80, s[2] - 0x80, s[3] - 0x80, s[4] - 0x80, s[5] - 0x80;
    assert s[..6] == [l + 0xfc, d1 + 0x80, d2 + 0x80, d3 + 0x80, d4 + 0x80, d5 + 0x80];
    ValueOfPrefix(s[..6], s[6..], 6);
    assert s[..6] + s[6..] == s;
    Value6(l, d1, d2, d3, d4, d5);
    Undigits(l, d1, d2, d3, d4, d5);
  }

  /** Encoding undoes decoding: an accepted step has read exactly the encoding of its code. */
  lemma EncodeDecode(s: seq<byte>)
    requires s != [] && FromUTF8(s).code != INVALID
    ensures var r := FromUTF8(s);
            ValidCode(r.code) && r.used == |Encode(r.code)| && s[..r.used] == Encode(r.code)
  {
    hide Encode, Value, LeadSize, MinChar;
    var k := LeadSize(s[0]);
    assert Sequence(s, k);
    if k <= 2 { Encoded2(s, k); }
    else if k == 3 { Encoded3(s); }
    else if k == 4 { Encoded4(s); }
    else if k == 5 { Encoded5(s); }
    else { Encoded6(s); }
    NonNegative(s, k);
  }

  lemma NonNegative(s: seq<byte>, k: nat)
    requires Sequence(s, k)
    ensures 0 <= Value(s, k)
  {
  }

  // ---------------------------------------------------------------- malformed pieces

  /** The first `n` bytes after the first one continue a sequence, and the next does not. */
  ghost predicate BreaksOff(s: seq<byte>, n: nat) {
    && 1 <= n < |s| && (forall i :: 1 <= i < n ==> 0x80 <= s[i] <= 0xbf)
    && !(0x80 <= s[n] <= 0xbf)
  }

  /** How many bytes the first one asks for, by ranges. */
  ghost predicate Wants(b: byte, k: nat) {
    match k
    case 2 => 0xc0 <= b <= 0xdf
    case 3 => 0xe0 <= b <= 0xef
    case 4 => 0xf0 <= b <= 0xf7
    case 5 => 0xf8 <= b <= 0xfb
    case 6 => 0xfc <= b <= 0xfd
    case _ => false
  }

  /** A byte that cannot begin a sequence. */
  predicate Stray(b: byte) {
    0x80 <= b <= 0xbf || b == 0xfe || b == 0xff
  }

  /** A byte on its own: taken alone, as itself or as malformed. */
  lemma SingleTaken(s: seq<byte>)
    requires s != []
    ensures s[0] < 0x80 ==> FromUTF8(s) == Step(s[0], 1)
    ensures Stray(s[0]) ==> FromUTF8(s) == Step(INVALID, 1)
  {
  }

  /** A sequence that wants more bytes than there are takes them all. */
  lemma ShortTaken(s: seq<byte>, k: nat)
    requires s != [] && Wants(s[0], k) && k > |s|
    ensures FromUTF8(s) == Step(INVALID, |s|)
  {
  }

  /** A sequence that breaks off takes the bytes before the one that does not belong. */
  lemma BrokenTaken(s: seq<byte>, k: nat, n: nat)
    requires s != [] && Wants(s[0], k) && k <= |s| && n < k && BreaksOff(s, n)
    ensures FromUTF8(s) == Step(INVALID, n)
  {
    hide Value;
    assert LeadSize(s[0]) == k;
    hide LeadSize;
    var e := Extent(s, k);
    assert e < n ==> !Continuation(s[e]);
    assert e == n;
  }

  /** A complete sequence takes all its bytes, be its code accepted or not. */
  lemma WholeTaken(s: seq<byte>, k: nat)
    requires s != [] && Wants(s[0], k) && k <= |s| && forall i :: 1 <= i < k ==> 0x80 <= s[i] <= 0xbf
    ensures FromUTF8(s).used == k
  {
    hide Value;
    assert LeadSize(s[0]) == k;
    hide LeadSize;
    var e := Extent(s, k);
    assert e == k;
  }

  // ---------------------------------------------------------------- whole strings

  /** The codes that the decoder yields, INVALID for each malformed piece. */
  function Decoded(s: seq<byte>): (cs: seq<int>)
    decreases |s|
  {
    if s == [] then [] else [FromUTF8(s).code] + Decoded(s[FromUTF8(s).used..])
  }

  /** What the decoder makes of encoded codes, noncharacters included. */
  function Heard(cs: seq<int>): (r: seq<int>)
    ensures |r| == |cs|
    ensures forall i :: 0 <= i < |cs| ==> r[i] == if Noncharacter(cs[i]) then INVALID else cs[i]
  {
    if cs == [] then [] else [if Noncharacter(cs[0]) then INVALID else cs[0]] + Heard(cs[1..])
  }

  /** The decoder takes encoded codes apart as they were put together. */
  lemma {:induction false} DecodedOfEncoded(cs: seq<int>)
    requires forall i :: 0 <= i < |cs| ==> Encodable(cs[i])
    ensures Decoded(EncodeAll(cs)) == Heard(cs)
  {
    if cs != [] {
      var s := EncodeAll(cs);
      DecodeEncode(cs[0], EncodeAll(cs[1..]));
      hide Encode;
      assert s[|Encode(cs[0])|..] == EncodeAll(cs[1..]);
      DecodedOfEncoded(cs[1..]);
    }
  }

  /** If nothing in a string is malformed, it is the encoding of what it is decoded to. */
  lemma {:induction false} EncodedOfDecoded(s: seq<byte>)
    requires INVALID !in Decoded(s)
    ensures Restored(s)
    decreases |s|
  {
    hide Decoded, Restored, FromUTF8;
    if s == [] {
      NothingDecoded();
    } else {
      FromUTF8Advances(s);
      DecodedStep(s);
      InPrepend(FromUTF8(s).code, Decoded(s[FromUTF8(s).used..]));
      EncodedOfDecoded(s[FromUTF8(s).used..]);
      RestoredStep(s);
    }
  }

  /** The string is the encoding of what it is decoded to. */
  ghost predicate Restored(s: seq<byte>) {
    AllValid(Decoded(s)) && EncodeAll(Decoded(s)) == s
  }

  lemma RestoredStep(s: seq<byte>)
    requires s != [] && FromUTF8(s).code != INVALID
    requires Restored(s[FromUTF8(s).used..])
    ensures Restored(s)
  {
    hide Encode, FromUTF8, EncodeAll, AllValid, ValidCode, Decoded;
    FromUTF8Advances(s);
    DecodedStep(s);
    EncodeDecode(s);
    var r := FromUTF8(s);
    EncodePrepend(r.code, Decoded(s[r.used..]));
    assert s == s[..r.used] + s[r.used..];
  }

  lemma NothingDecoded()
    ensures Restored([])
  {
    assert EncodeAll([]) == [];
  }

  /** After a stray byte the decoder goes on with the next one: nothing else is lost. */
  lemma StrayIsAlone(b: byte, cs: seq<int>)
    requires Stray(b) && AllValid(cs)
    ensures Decoded([b] + EncodeAll(cs)) == [INVALID] + cs
  {
    hide FromUTF8, EncodeAll;
    var s := [b] + EncodeAll(cs);
    SingleTaken(s);
    DecodedStep(s);
    assert s[1..] == EncodeAll(cs);
    DecodedOfEncoded(cs);
    assert Heard(cs) == cs;
  }

  /**
   * A sequence that breaks off is given up where it does, and the decoder goes on from there, if
   * there are as many bytes as its first one asks for.
   */
  lemma BrokenIsAlone(broken: seq<byte>, k: nat, cs: seq<int>)
    requires broken != [] && Wants(broken[0], k) && |broken| < k
    requires forall i :: 1 <= i < |broken| ==> 0x80 <= broken[i] <= 0xbf
    requires AllValid(cs) && cs != [] && k <= |broken| + |EncodeAll(cs)|
    ensures Decoded(broken + EncodeAll(cs)) == [INVALID] + cs
  {
    hide FromUTF8, EncodeAll, Decoded;
    var rest := EncodeAll(cs);
    var s, n := broken + rest, |broken|;
    EncodedStart(cs);
    BreaksOffThere(broken, rest);
    BrokenTaken(s, k, n);
    DecodedStep(s);
    assert s[n..] == rest;
    DecodedOfEncoded(cs);
    assert Heard(cs) == cs;
  }

  lemma BreaksOffThere(broken: seq<byte>, rest: seq<byte>)
    requires broken != [] && (forall i :: 1 <= i < |broken| ==> 0x80 <= broken[i] <= 0xbf)
    requires rest != [] && !(0x80 <= rest[0] <= 0xbf)
    ensures BreaksOff(broken + rest, |broken|)
  {
    var s, n := broken + rest, |broken|;
    assert s[n] == rest[0];
    assert forall i :: 1 <= i < n ==> s[i] == broken[i];
  }

  lemma EncodedStart(cs: seq<int>)
    requires AllValid(cs) && cs != []
    ensures EncodeAll(cs) != [] && !(0x80 <= EncodeAll(cs)[0] <= 0xbf)
  {
    hide Encode;
    EncodeShape(cs[0]);
    assert EncodeAll(cs)[0] == Encode(cs[0])[0];
  }

  lemma DecodedStep(s: seq<byte>)
    requires s != []
    ensures Decoded(s) == [FromUTF8(s).code] + Decoded(s[FromUTF8(s).used..])
  {
    hide FromUTF8;
  }

  lemma InPrepend(c: int, cs: seq<int>)
    ensures INVALID in [c] + cs <==> INVALID == c || INVALID in cs
  {
  }

  lemma EncodePrepend(c: int, cs: seq<int>)
    requires ValidCode(c) && AllValid(cs)
    ensures AllValid([c] + cs) && EncodeAll([c] + cs) == Encode(c) + EncodeAll(cs)
  {
    assert ([c] + cs)[1..] == cs;
  }

  /** The decomposition of a string into encoded codes is unique. */
  lemma UniqueDecomposition(cs: seq<int>, ds: seq<int>)
    requires AllValid(cs) && AllValid(ds) && EncodeAll(cs) == EncodeAll(ds)
    ensures cs == ds
  {
    DecodedOfEncoded(cs);
    DecodedOfEncoded(ds);
    assert Heard(cs) == cs && Heard(ds) == ds;
  }

  /** isUTF8 accepts exactly the concatenations of encodings of valid codes. */
  method IsUTF8(s: seq<byte>) returns (ok: bool)
    ensures ok <==> exists cs :: AllValid(cs) && EncodeAll(cs) == s
    ensures ok ==> AllValid(Decoded(s)) && EncodeAll(Decoded(s)) == s
  {
    hide FromUTF8, EncodeAll;
    var data := s;
    while data != []
      invariant INVALID in Decoded(s) <==> INVALID in Decoded(data)
      decreases |data|
    {
      var r := FromUTF8(data);
      FromUTF8Advances(data);
      if r.code == INVALID {
        assert INVALID in Decoded(data);
        Refuted(s);
        return false;
      }
      data := data[r.used..];
    }
    EncodedOfDecoded(s);
    assert Restored(s);
    ok := true;
  }

  lemma FromUTF8Advances(s: seq<byte>)
    requires s != []
    ensures 1 <= FromUTF8(s).used <= |s|
  {
  }

  lemma Refuted(s: seq<byte>)
    requires INVALID in Decoded(s)
    ensures !exists cs :: AllValid(cs) && EncodeAll(cs) == s
  {
    forall cs | AllValid(cs) && EncodeAll(cs) == s ensures false {
      DecodedOfEncoded(cs);
    }
  }
}
