/**
 * Decimal numbers as byte strings: std::to_string, and reading them back with an input stream
 * as string::stringToSizeType and DragInformation::stringToNum do.
 */
module Decimal {
  import opened Bytes

  predicate IsDigit(b: byte) {
    48 <= b <= 57
  }

  predicate IsSpace(b: byte) {
    9 <= b <= 13 || b == 32
  }

  predicate AllDigits(s: seq<byte>) {
    forall i :: 0 <= i < |s| ==> IsDigit(s[i])
  }

  function ToString(n: nat): (r: seq<byte>)
    ensures r != [] && AllDigits(r)
  {
    if n < 10 then
      var b: byte := 48 + n;
      [b]
    else
      var b: byte := 48 + n % 10;
      ToString(n / 10) + [b]
  }

  function Value(s: seq<byte>): nat
    requires AllDigits(s)
  {
    if s == [] then 0
    else
      var last: int := s[|s| - 1];
      10 * Value(s[..|s| - 1]) + (last - 48)
  }

  /** Printing a number and evaluating its digits is the identity. */
  lemma {:induction false} ValueOfToString(n: nat)
    ensures Value(ToString(n)) == n
  {
    var s := ToString(n);
    if n >= 10 {
      assert s[..|s| - 1] == ToString(n / 10);
      ValueOfToString(n / 10);
    } else {
      assert s[..0] == [];
    }
  }

  /** A digit more stands for ten times as much: the most significant digit comes first. */
  lemma AppendDigit(s: seq<byte>, n: nat, b: byte)
    requires AllDigits(s) && IsDigit(b)
    ensures AllDigits(s + [b]) && Value(s + [b]) == 10 * Value(s) + (b - 48)
    ensures ToString(b - 48) == [b]
    ensures n > 0 ==> ToString(10 * n + (b - 48)) == ToString(n) + [b]
  {
    assert (s + [b])[..|s|] == s;
    var m := 10 * n + (b - 48);
    assert m / 10 == n && m % 10 == b - 48;
  }

  function SkipSpace(s: seq<byte>): (r: seq<byte>)
    ensures |r| <= |s|
  {
    if s != [] && IsSpace(s[0]) then SkipSpace(s[1..]) else s
  }

  /** The number of digits that a string begins with. */
  function DigitRun(s: seq<byte>): (k: nat)
    ensures k <= |s| && AllDigits(s[..k])
    ensures k < |s| ==> !IsDigit(s[k])
  {
    if s == [] || !IsDigit(s[0]) then 0
    else
      var k := DigitRun(s[1..]);
      assert s[..k + 1] == [s[0]] + s[1..][..k];
      k + 1
  }

  /** What reading an unsigned 64-bit number from a stream takes: the number and what is left. */
  datatype Extracted = Failed | Extracted(value: nat, rest: seq<byte>)

  /** Leading white space and a sign are allowed; a negative number wraps around. */
  function Extract(s: seq<byte>): Extracted {
    var t := SkipSpace(s);
    var negative := t != [] && t[0] == 45;
    var u := if t != [] && (t[0] == 45 || t[0] == 43) then t[1..] else t;
    var k := DigitRun(u);
    if k == 0 || Value(u[..k]) >= TWO_TO_THE_64 then Failed
    else Extracted(if negative then (TWO_TO_THE_64 - Value(u[..k])) % TWO_TO_THE_64 else Value(u[..k]), u[k..])
  }

  /** stringToSizeType: zero unless the whole string is a number. */
  function StringToSize(s: seq<byte>): (r: nat) {
    match Extract(s)
    case Failed => 0
    case Extracted(value, rest) => if SkipSpace(rest) != [] then 0 else value
  }

  /** stringToNum: the number at the beginning, whatever follows; a NUL ends the string. */
  function StringToNum(s: seq<byte>): (r: nat) {
    match Extract(UpToNul(s))
    case Failed => 0
    case Extracted(value, _) => value
  }

  function UpToNul(s: seq<byte>): seq<byte> {
    if s == [] || s[0] == 0 then [] else [s[0]] + UpToNul(s[1..])
  }

  lemma {:induction false} DigitRunOfDigits(s: seq<byte>)
    requires AllDigits(s)
    ensures DigitRun(s) == |s|
  {
    if s != [] {
      DigitRunOfDigits(s[1..]);
    }
  }

  lemma {:induction false} NoNulInDigits(s: seq<byte>)
    requires AllDigits(s)
    ensures UpToNul(s) == s
  {
    if s != [] {
      NoNulInDigits(s[1..]);
    }
  }

  lemma {:induction false} SpacesSkipped(spaces: seq<byte>, s: seq<byte>)
    requires (forall i :: 0 <= i < |spaces| ==> IsSpace(spaces[i])) && (s == [] || !IsSpace(s[0]))
    ensures SkipSpace(spaces + s) == s
  {
    if spaces == [] {
      assert spaces + s == s;
    } else {
      SpacesSkipped(spaces[1..], s);
      assert (spaces + s)[1..] == spaces[1..] + s;
    }
  }

  lemma {:induction false} DigitRunIs(digits: seq<byte>, rest: seq<byte>)
    requires AllDigits(digits) && (rest == [] || !IsDigit(rest[0]))
    ensures DigitRun(digits + rest) == |digits|
  {
    if digits == [] {
      assert digits + rest == rest;
    } else {
      DigitRunIs(digits[1..], rest);
      assert (digits + rest)[1..] == digits[1..] + rest;
    }
  }

  /** What an input stream reads: white space, a number of 64 bits, and what follows it is left. */
  lemma ExtractIs(spaces: seq<byte>, digits: seq<byte>, rest: seq<byte>)
    requires forall i :: 0 <= i < |spaces| ==> IsSpace(spaces[i])
    requires digits != [] && AllDigits(digits) && (rest == [] || !IsDigit(rest[0]))
    ensures Extract(spaces + digits + rest)
            == if Value(digits) < TWO_TO_THE_64 then Extracted(Value(digits), rest) else Failed
  {
    var u := digits + rest;
    assert spaces + digits + rest == spaces + u;
    assert u[0] == digits[0] && IsDigit(digits[0]);
    SpacesSkipped(spaces, u);
    DigitRunIs(digits, rest);
    assert u[..|digits|] == digits && u[|digits|..] == rest;
  }

  /** A sign may stand in front; a negative number wraps around at 64 bits. */
  lemma ExtractSigned(sign: byte, digits: seq<byte>, rest: seq<byte>)
    requires sign == '+' as int || sign == '-' as int
    requires digits != [] && AllDigits(digits) && (rest == [] || !IsDigit(rest[0])) && Value(digits) < TWO_TO_THE_64
    ensures Extract([sign] + digits + rest)
            == Extracted(if sign == '+' as int || Value(digits) == 0 then Value(digits)
                         else TWO_TO_THE_64 - Value(digits), rest)
  {
    hide SkipSpace, DigitRun, Value, AllDigits;
    SignedParts(sign, digits, rest);
    DigitRunIs(digits, rest);
    Wraps(Value(digits));
  }

  lemma SignedParts(sign: byte, digits: seq<byte>, rest: seq<byte>)
    requires sign == 43 || sign == 45
    ensures var s, u := [sign] + digits + rest, digits + rest;
            && SkipSpace(s) == s && s != [] && s[0] == sign && s[1..] == u
            && u[..|digits|] == digits && u[|digits|..] == rest
  {
  }

  lemma Wraps(n: nat)
    requires n < TWO_TO_THE_64
    ensures (TWO_TO_THE_64 - n) % TWO_TO_THE_64 == if n == 0 then 0 else TWO_TO_THE_64 - n
  {
  }

  /** A size may be followed by white space only; a number by anything. */
  lemma WhatMayFollow(digits: seq<byte>, x: byte, rest: seq<byte>)
    requires digits != [] && AllDigits(digits) && Value(digits) < TWO_TO_THE_64 && !IsDigit(x)
    ensures !IsSpace(x) ==> StringToSize(digits + [x] + rest) == 0
    ensures IsSpace(x) ==> StringToSize(digits + [x]) == Value(digits)
    ensures StringToNum(digits + [x] + rest) == Value(digits)
  {
    var tail := [x] + rest;
    assert [] + digits + tail == digits + [x] + rest && [] + digits + [x] == digits + [x];
    ExtractIs([], digits, tail);
    ExtractIs([], digits, [x]);
    assert SkipSpace([x]) == if IsSpace(x) then [] else [x];
    NumberBeforeNul(digits, tail);
  }

  lemma {:induction false} UpToNulPlus(digits: seq<byte>, rest: seq<byte>)
    requires AllDigits(digits)
    ensures UpToNul(digits + rest) == digits + UpToNul(rest)
  {
    if digits == [] {
      assert digits + rest == rest && digits + UpToNul(rest) == UpToNul(rest);
    } else {
      UpToNulPlus(digits[1..], rest);
      assert IsDigit(digits[0]);
      assert (digits + rest)[1..] == digits[1..] + rest;
    }
  }

  lemma NumberBeforeNul(digits: seq<byte>, tail: seq<byte>)
    requires digits != [] && AllDigits(digits) && Value(digits) < TWO_TO_THE_64 && tail != [] && !IsDigit(tail[0])
    ensures StringToNum(digits + tail) == Value(digits)
  {
    UpToNulPlus(digits, tail);
    var rest := UpToNul(tail);
    assert rest == [] || rest[0] == tail[0];
    ExtractIs([], digits, rest);
    assert [] + digits + rest == digits + rest;
  }

  /** The characters that count as white space and as digits. */
  lemma CharacterClasses(b: byte)
    ensures IsDigit(b) <==> '0' as int <= b <= '9' as int
    ensures IsSpace(b) <==>
              b == ' ' as int || b == '\t' as int || b == '\n' as int || b == 11 || b == 12 || b == '\r' as int
  {
  }

  /** A string of digits is read as its value, or fails if that needs more than 64 bits. */
  lemma ExtractDigits(s: seq<byte>)
    requires s != [] && AllDigits(s)
    ensures Extract(s) == if Value(s) < TWO_TO_THE_64 then Extracted(Value(s), []) else Failed
    ensures StringToSize(s) == if Value(s) < TWO_TO_THE_64 then Value(s) else 0
    ensures StringToNum(s) == StringToSize(s)
  {
    DigitRunOfDigits(s);
    NoNulInDigits(s);
    assert IsDigit(s[0]);
    assert SkipSpace(s) == s && s[..|s|] == s && s[|s|..] == [];
  }

  /** Printing a size and parsing it is the identity on 64-bit numbers. */
  lemma SizeRoundTrip(n: nat)
    requires n < TWO_TO_THE_64
    ensures StringToSize(ToString(n)) == n && StringToNum(ToString(n)) == n
  {
    ValueOfToString(n);
    ExtractDigits(ToString(n));
  }
}
