/**
 * The conversions of Unicode.cpp between UTF-8 and UTF-16 (sections 2.1 and 2.2 of RFC 2781)
 * and UCS-4.  Wide strings are sequences of 16-bit or 32-bit units in host order; the byte
 * order mark and byte swapping are those of the reader.
 */
module Utf16 {
  import opened Bytes
  import opened Utf8

  type Unit = u: int | 0 <= u < 0x10000

  predicate High(u: Unit) {
    0xd800 <= u <= 0xdbff
  }

  predicate Low(u: Unit) {
    0xdc00 <= u <= 0xdfff
  }

  /** No surrogate stands alone. */
  predicate WellFormed(u: seq<Unit>) {
    u == [] ||
    if !Surrogate(u[0]) then WellFormed(u[1..])
    else |u| >= 2 && High(u[0]) && Low(u[1]) && WellFormed(u[2..])
  }

  predicate IsScalar(c: int) {
    0 <= c < 0x110000 && !Surrogate(c)
  }

  type Scalar = c: int | 0 <= c < 0x110000 && !(0xd800 <= c <= 0xdfff)

  function Units(c: Scalar): (r: seq<Unit>)
    ensures 1 <= |r| <= 2
  {
    if c < 0x10000 then
      var u: Unit := c;
      [u]
    else
      var h: Unit, l: Unit := (c - 0x10000) / 0x400 + 0xd800, (c - 0x10000) % 0x400 + 0xdc00;
      [h, l]
  }

  function AllUnits(cs: seq<Scalar>): (r: seq<Unit>) {
    if cs == [] then [] else Units(cs[0]) + AllUnits(cs[1..])
  }

  /** What UTF-16 cannot express becomes the replacement character. */
  function ToScalar(c: int): Scalar {
    if c == INVALID || !IsScalar(c) then REPLACEMENT else c
  }

  function ToScalars(cs: seq<int>): (r: seq<Scalar>)
    ensures |r| == |cs|
    ensures forall i :: 0 <= i < |cs| ==> r[i] == ToScalar(cs[i])
  {
    if cs == [] then [] else [ToScalar(cs[0])] + ToScalars(cs[1..])
  }

  /** The decoder yields INVALID and valid codes, nothing else. */
  lemma StepIsValid(s: seq<byte>)
    requires s != []
    ensures FromUTF8(s).code == INVALID || ValidCode(FromUTF8(s).code)
    ensures 1 <= FromUTF8(s).used <= |s|
  {
    if FromUTF8(s).code != INVALID {
      EncodeDecode(s);
    }
  }

  /** Surrogate pairs are well-formed, and so is everything made of scalars. */
  lemma {:induction false} UnitsWellFormed(cs: seq<Scalar>)
    ensures WellFormed(AllUnits(cs))
  {
    if cs != [] {
      var u, rest := Units(cs[0]), AllUnits(cs[1..]);
      UnitsWellFormed(cs[1..]);
      assert (u + rest)[|u|..] == rest;
    }
  }

  ghost predicate Exceeds(cs: seq<int>) {
    cs != [] && (cs[0] >= 0x110000 || Exceeds(cs[1..]))
  }

  /**
   * UTF8ToUTF16: for every byte string, malformed or not, the result is well-formed.  The error
   * flag reports codes above the UTF-16 range only, not malformed input.
   */
  method UTF8ToUTF16(src: seq<byte>) returns (dst: seq<Unit>, errors: bool)
    ensures dst == AllUnits(ToScalars(Decoded(src))) && WellFormed(dst)
    ensures errors <==> Exceeds(Decoded(src))
  {
    hide FromUTF8, WellFormed, AllUnits, Units, ToScalars, Decoded, Exceeds;
    NoStep();
    dst, errors := [], false;
    var data := src;
    ghost var whole := AllUnits(ToScalars(Decoded(src)));
    while data != []
      invariant whole == dst + AllUnits(ToScalars(Decoded(data)))
      invariant Exceeds(Decoded(src)) <==> errors || Exceeds(Decoded(data))
      decreases |data|
    {
      StepIsValid(data);
      var r := FromUTF8(data);
      var c := r.code;
      if c == INVALID {
        c := REPLACEMENT;
      } else if c >= 0x110000 {
        errors := true;
        c := REPLACEMENT;
      }
      assert c == ToScalar(r.code);
      OneStep(dst, data, r);
      dst := AppendUnits(dst, c);
      data := data[r.used..];
    }
    UnitsWellFormed(ToScalars(Decoded(src)));
  }

  /** One code as one unit or as a surrogate pair. */
  method AppendUnits(dst0: seq<Unit>, c0: Scalar) returns (dst: seq<Unit>)
    ensures dst == dst0 + Units(c0)
  {
    var c: int := c0;
    if c < 0x10000 {
      dst := dst0 + [c];
    } else {
      c := c - 0x10000;
      dst := dst0 + [c / 0x400 + 0xd800] + [c % 0x400 + 0xdc00];
    }
  }

  lemma NoStep()
    ensures AllUnits(ToScalars(Decoded([]))) == [] && !Exceeds(Decoded([]))
  {
  }

  lemma OneStep(dst: seq<Unit>, s: seq<byte>, r: Step)
    requires s != [] && r == FromUTF8(s)
    ensures dst + AllUnits(ToScalars(Decoded(s)))
            == dst + Units(ToScalar(r.code)) + AllUnits(ToScalars(Decoded(s[r.used..])))
    ensures Exceeds(Decoded(s)) <==> r.code >= 0x110000 || Exceeds(Decoded(s[r.used..]))
  {
    hide FromUTF8;
    FromUTF8Advances(s);
    var cs := Decoded(s);
    assert cs[0] == r.code && cs[1..] == Decoded(s[r.used..]);
    assert ToScalars(cs)[1..] == ToScalars(cs[1..]);
  }

  /** A stray byte becomes one replacement character, and what follows it is kept. */
  lemma StrayIsReplaced(b: byte, cs: seq<Scalar>)
    requires Stray(b) && AllValid(cs)
    ensures AllUnits(ToScalars(Decoded([b] + EncodeAll(cs)))) == [0xfffd] + AllUnits(cs)
  {
    hide EncodeAll, Decoded;
    StrayIsAlone(b, cs);
    var codes := [INVALID] + cs;
    assert ToScalars(codes) == [REPLACEMENT] + cs;
    assert ([REPLACEMENT] + cs)[1..] == cs;
    assert Units(REPLACEMENT) == [0xfffd];
  }

  // ---------------------------------------------------------------- back to UTF-8

  function SwapBytes(u: Unit): Unit {
    u % 0x100 * 0x100 + u / 0x100
  }

  function SwapAll(u: seq<Unit>): (r: seq<Unit>)
    ensures |r| == |u|
    ensures forall i :: 0 <= i < |u| ==> r[i] == SwapBytes(u[i])
  {
    if u == [] then [] else [SwapBytes(u[0])] + SwapAll(u[1..])
  }

  /** The units after a byte order mark, in the order that it announces. */
  function Unmarked(u: seq<Unit>): seq<Unit> {
    if u == [] then []
    else if u[0] == 0xfeff then u[1..]
    else if u[0] == 0xfffe then SwapAll(u[1..])
    else u
  }

  function Pair(h: Unit, l: Unit): Scalar
    requires High(h) && Low(l)
  {
    (h - 0xd800) * 0x400 + (l - 0xdc00) + 0x10000
  }

  /** How the units are read: the next code and the number of units it takes. */
  function ReadUnits(u: seq<Unit>): (r: (Scalar, nat))
    requires u != []
    ensures 1 <= r.1 <= |u|
  {
    if !Surrogate(u[0]) then (u[0], 1)
    else if |u| == 1 then (REPLACEMENT, 1)
    else if High(u[0]) then if Low(u[1]) then (Pair(u[0], u[1]), 2) else (REPLACEMENT, 2)
    else (REPLACEMENT, 1)
  }

  function Scalars(u: seq<Unit>): seq<Scalar>
    decreases |u|
  {
    if u == [] then [] else [ReadUnits(u).0] + Scalars(u[ReadUnits(u).1..])
  }

  /** A code above the first plane, as RFC 2781 takes it apart: ten bits high, ten bits low. */
  lemma PairOfBits(c: Scalar)
    ensures c < 0x10000 ==> Units(c) == [c]
    ensures c >= 0x10000 ==>
              && |Units(c)| == 2 && High(Units(c)[0]) && Low(Units(c)[1])
              && c == 0x10000 + (Units(c)[0] - 0xd800) as int * 0x400 + (Units(c)[1] - 0xdc00)
  {
  }

  /** Swapping exchanges the two bytes of a unit. */
  lemma SwapExchanges(hi: byte, lo: byte)
    ensures SwapBytes(hi as int * 0x100 + lo) == lo as int * 0x100 + hi
  {
    var u := hi as int * 0x100 + lo;
    assert u / 0x100 == hi && u % 0x100 == lo;
  }

  /** Units in the other byte order, after a mark in that order, are read as they were meant. */
  lemma {:induction false} SwappedIsRead(u: seq<Unit>)
    ensures Unmarked([0xfffe] + SwapAll(u)) == u
  {
    var v := [0xfffe] + SwapAll(u);
    assert v[1..] == SwapAll(u);
    forall i | 0 <= i < |u| ensures SwapAll(SwapAll(u))[i] == u[i] {
      SwapExchanges(u[i] / 0x100, u[i] % 0x100);
      SwapExchanges(u[i] % 0x100, u[i] / 0x100);
    }
    assert SwapAll(SwapAll(u)) == u;
  }

  /**
   * Where reading goes on after a surrogate that stands alone: a low one is replaced alone, a
   * high one takes the unit after it along, and a last one is replaced.
   */
  lemma LoneSurrogates(h: Unit, l: Unit, x: Unit, cs: seq<Scalar>)
    requires High(h) && Low(l) && !Low(x)
    ensures cs != [] ==> Scalars([l] + AllUnits(cs)) == [REPLACEMENT] + cs
    ensures Scalars([h, x] + AllUnits(cs)) == [REPLACEMENT] + cs
    ensures Scalars([h]) == [REPLACEMENT] && Scalars([l]) == [REPLACEMENT]
  {
    ScalarsOfUnits(cs);
    var a, b := [l] + AllUnits(cs), [h, x] + AllUnits(cs);
    assert a[1..] == AllUnits(cs) && b[2..] == AllUnits(cs);
    assert cs != [] ==> AllUnits(cs) != [];
    assert [h][1..] == [] && [l][1..] == [];
  }

  lemma PairUndoesUnits(c: Scalar)
    requires c >= 0x10000
    ensures High(Units(c)[0]) && Low(Units(c)[1]) && Pair(Units(c)[0], Units(c)[1]) == c
  {
  }

  /** Reading undoes writing. */
  lemma {:induction false} ScalarsOfUnits(cs: seq<Scalar>)
    ensures Scalars(AllUnits(cs)) == cs
  {
    if cs != [] {
      var u, rest := Units(cs[0]), AllUnits(cs[1..]);
      ScalarsOfUnits(cs[1..]);
      if cs[0] >= 0x10000 {
        PairUndoesUnits(cs[0]);
      }
      assert ReadUnits(u + rest) == (cs[0], |u|);
      assert (u + rest)[|u|..] == rest;
    }
  }

  /** The body of the conversion loop: the bytes for the units at `i`, and how many it takes. */
  method ReadOne(src: seq<Unit>, i: nat, swapped: bool, ghost rest: seq<Unit>)
    returns (bytes: seq<byte>, bad: bool, n: nat)
    requires i < |src| && |rest| == |src| - i
    requires forall k :: 0 <= k < |rest| ==> rest[k] == if swapped then SwapBytes(src[i + k]) else src[i + k]
    ensures n == ReadUnits(rest).1 && bytes == Encode(ReadUnits(rest).0)
    ensures bad <==> Surrogate(rest[0]) && !(n == 2 && Low(rest[1]))
  {
    hide Encode, SwapBytes;
    var c: int := if swapped then SwapBytes(src[i]) else src[i];
    assert c == rest[0];
    bad, n := false, 1;
    if !Surrogate(c) {
      bytes := Encode(c);
    } else if i == |src| - 1 {
      bad := true;
      bytes := Encode(REPLACEMENT);
    } else if c <= 0xdbff {
      n := 2;
      var c2: int := if swapped then SwapBytes(src[i + 1]) else src[i + 1];
      assert c2 == rest[1];
      if c2 < 0xdc00 || c2 > 0xdfff {
        bad := true;
        bytes := Encode(REPLACEMENT);
      } else {
        bytes := Encode((c - 0xd800) * 0x400 + (c2 - 0xdc00) + 0x10000);
      }
    } else {
      bad := true;
      bytes := Encode(REPLACEMENT);
    }
  }

  /** UTF16ToUTF8: the error flag is set exactly when a surrogate stands alone. */
  method UTF16ToUTF8(src: seq<Unit>) returns (dst: seq<byte>, errors: bool)
    ensures dst == EncodeAll(Scalars(Unmarked(src)))
    ensures errors <==> !WellFormed(Unmarked(src))
  {
    hide Encode, EncodeAll, Scalars, ReadUnits, WellFormed, SwapBytes, SwapAll, Low;
    ghost var units := Unmarked(src);
    dst, errors := [], false;
    var swapped := false;
    var i := 0;
    if |src| >= 1 {
      if src[0] == 0xfeff {
        i := 1;
      } else if src[0] == 0xfffe {
        swapped := true;
        i := 1;
      }
    }
    SwapAllAt(src[i..]);
    ghost var rest := units;
    while i < |src|
      invariant 0 <= i <= |src| && |rest| == |src| - i
      invariant forall k :: 0 <= k < |rest| ==> rest[k] == if swapped then SwapBytes(src[i + k]) else src[i + k]
      invariant EncodeAll(Scalars(units)) == dst + EncodeAll(Scalars(rest))
      invariant WellFormed(units) <==> !errors && WellFormed(rest)
    {
      ReadStep(rest);
      var bytes, bad, n := ReadOne(src, i, swapped, rest);
      errors := errors || bad;
      dst := dst + bytes;
      i := i + n;
      rest := rest[n..];
    }
    ReadNothing();
  }

  lemma ReadNothing()
    ensures EncodeAll(Scalars([])) == [] && WellFormed([])
  {
  }

  lemma SwapAllAt(u: seq<Unit>)
    ensures |SwapAll(u)| == |u| && forall k :: 0 <= k < |u| ==> SwapAll(u)[k] == SwapBytes(u[k])
  {
  }

  lemma ReadStep(u: seq<Unit>)
    requires u != []
    ensures var (c, n) := ReadUnits(u);
            && n <= |u|
            && EncodeAll(Scalars(u)) == Encode(c) + EncodeAll(Scalars(u[n..]))
            && (WellFormed(u) <==> (Surrogate(u[0]) ==> n == 2 && Low(u[1])) && WellFormed(u[n..]))
  {
    hide Encode;
    var (c, n) := ReadUnits(u);
    assert Scalars(u)[1..] == Scalars(u[n..]);
  }

  // ---------------------------------------------------------------- there and back

  /** The codes of an accepted string that UTF-16 carries unchanged, and what a leading mark does. */
  ghost predicate Carried(cs: seq<int>) {
    (forall i :: 0 <= i < |cs| ==> cs[i] < 0x110000) && (cs != [] ==> cs[0] != 0xfeff)
  }

  /**
   * To UTF-16 and back is the identity on an accepted string exactly if all its codes are in the
   * UTF-16 range and it does not begin with a byte order mark.
   */
  lemma ThereAndBack(cs: seq<int>)
    requires AllValid(cs)
    ensures var wide := AllUnits(ToScalars(Decoded(EncodeAll(cs))));
            EncodeAll(Scalars(Unmarked(wide))) == EncodeAll(cs) <==> Carried(cs)
  {
    hide Encode, EncodeAll, FromUTF8, Scalars, AllUnits, Unmarked;
    DecodedOfEncoded(cs);
    assert Heard(cs) == cs;
    var scalars := ToScalars(cs);
    var read := Scalars(Unmarked(AllUnits(scalars)));
    UnmarkedUnits(scalars);
    ScalarsValid(read);
    assert Carried(cs) ==> scalars == cs;
    if EncodeAll(read) == EncodeAll(cs) {
      UniqueDecomposition(cs, read);
      assert forall i :: 0 <= i < |cs| ==> scalars[i] == cs[i];
    }
  }

  /** Written scalars start with a mark only if the first scalar is one. */
  lemma UnmarkedUnits(cs: seq<Scalar>)
    requires forall i :: 0 <= i < |cs| ==> !Noncharacter(cs[i])
    ensures Scalars(Unmarked(AllUnits(cs))) == if cs != [] && cs[0] == 0xfeff then cs[1..] else cs
  {
    var u := AllUnits(cs);
    ScalarsOfUnits(cs);
    if cs != [] {
      assert u[0] == Units(cs[0])[0];
      if cs[0] == 0xfeff {
        assert u[1..] == AllUnits(cs[1..]);
        ScalarsOfUnits(cs[1..]);
      }
    }
  }

  lemma ScalarsValid(cs: seq<Scalar>)
    requires forall i :: 0 <= i < |cs| ==> !Noncharacter(cs[i])
    ensures AllValid(cs)
  {
  }

  /** From any UTF-16, the result is accepted UTF-8 unless U+FFFE or U+FFFF occurs in it. */
  method BackIsAccepted(u: seq<Unit>) returns (ok: bool)
    ensures ok <==> forall c :: c in Scalars(Unmarked(u)) ==> !Noncharacter(c)
  {
    hide Encode, EncodeAll, FromUTF8, Scalars, Unmarked, WellFormed;
    var s, _ := UTF16ToUTF8(u);
    ok := IsUTF8(s);
    ghost var cs := Scalars(Unmarked(u));
    DecodedOfEncoded(cs);
    if forall c :: c in cs ==> !Noncharacter(c) {
      ScalarsValid(cs);
      assert AllValid(cs) && EncodeAll(cs) == s;
    }
  }

  // ---------------------------------------------------------------- UCS-4

  type Word = w: int | 0 <= w < TWO_TO_THE_32

  function Word32(c: int): Word {
    if c == INVALID || !Encodable(c) then REPLACEMENT else c
  }

  function Words(cs: seq<int>): (r: seq<Word>)
    ensures |r| == |cs|
    ensures forall i :: 0 <= i < |cs| ==> r[i] == Word32(cs[i])
  {
    if cs == [] then [] else [Word32(cs[0])] + Words(cs[1..])
  }

  method UTF8ToUCS4(src: seq<byte>) returns (dst: seq<Word>)
    ensures dst == Words(Decoded(src))
  {
    hide FromUTF8, Decoded, Words;
    dst := [];
    var data := src;
    WordNothing();
    while data != []
      invariant Words(Decoded(src)) == dst + Words(Decoded(data))
      decreases |data|
    {
      StepIsValid(data);
      WordStep(data);
      var r := FromUTF8(data);
      dst := dst + [if r.code == INVALID then REPLACEMENT else r.code];
      data := data[r.used..];
    }
  }

  lemma WordNothing()
    ensures Words(Decoded([])) == []
  {
  }

  lemma WordStep(s: seq<byte>)
    requires s != []
    ensures Words(Decoded(s)) == [Word32(FromUTF8(s).code)] + Words(Decoded(s[FromUTF8(s).used..]))
  {
    hide FromUTF8;
    FromUTF8Advances(s);
    assert Decoded(s)[1..] == Decoded(s[FromUTF8(s).used..]);
  }

  function SwapWord(w: Word): Word {
    w % 0x100 * 0x1000000 + w / 0x100 % 0x100 * 0x10000 + w / 0x10000 % 0x100 * 0x100 + w / 0x1000000
  }

  /** Swapping turns the four bytes of a word round. */
  lemma SwapTurnsRound(b: seq<byte>)
    requires |b| == 4
    ensures SwapWord(FromBE32(b)) == FromBE32([b[3], b[2], b[1], b[0]])
  {
    var b0: int, b1: int, b2: int, b3: int := b[0], b[1], b[2], b[3];
    var w := FromBE32(b);
    assert w == b0 * 0x1000000 + b1 * 0x10000 + b2 * 0x100 + b3;
    assert w / 0x100 == b0 * 0x10000 + b1 * 0x100 + b2 && w % 0x100 == b3;
    assert w / 0x10000 == b0 * 0x100 + b1 && w / 0x100 % 0x100 == b2;
    assert w / 0x1000000 == b0 && w / 0x10000 % 0x100 == b1;
  }

  /** What toUTF8 makes of a word: what it cannot encode becomes the replacement character. */
  function Encoded32(w: Word): (r: seq<byte>) {
    if Encodable(w) then Encode(w) else Encode(REPLACEMENT)
  }

  function EncodedWords(ws: seq<Word>): (r: seq<byte>) {
    if ws == [] then [] else Encoded32(ws[0]) + EncodedWords(ws[1..])
  }

  function SwapWords(ws: seq<Word>): (r: seq<Word>)
    ensures |r| == |ws| && forall i :: 0 <= i < |ws| ==> r[i] == SwapWord(ws[i])
  {
    if ws == [] then [] else [SwapWord(ws[0])] + SwapWords(ws[1..])
  }

  function UnmarkedWords(ws: seq<Word>): seq<Word> {
    if ws == [] then []
    else if ws[0] == 0xfeff then ws[1..]
    else if ws[0] == 0xfffe then SwapWords(ws[1..])
    else ws
  }

  method UCS4ToUTF8(src: seq<Word>) returns (dst: seq<byte>, errors: bool)
    ensures dst == EncodedWords(UnmarkedWords(src))
    ensures errors <==> exists i :: 0 <= i < |UnmarkedWords(src)| && !Encodable(UnmarkedWords(src)[i])
  {
    hide Encode, SwapWord, SwapWords, EncodedWords;
    ghost var words := UnmarkedWords(src);
    dst, errors := [], false;
    var swapped := false;
    var i := 0;
    if |src| >= 1 {
      if src[0] == 0xfeff {
        i := 1;
      } else if src[0] == 0xfffe {
        swapped := true;
        i := 1;
      }
    }
    SwapWordsAt(src[i..]);
    ghost var start := i;
    assert words[0..] == words;
    while i < |src|
      invariant start <= i <= |src| && |words| == |src| - start
      invariant forall k :: start <= k < |src| ==> words[k - start] == if swapped then SwapWord(src[k]) else src[k]
      invariant EncodedWords(words) == dst + EncodedWords(words[i - start..])
      invariant errors <==> exists k :: 0 <= k < i - start && !Encodable(words[k])
    {
      EncodedWordsStep(words[i - start..]);
      var c: int := if swapped then SwapWord(src[i]) else src[i];
      assert c == words[i - start] && words[i - start..][1..] == words[i + 1 - start..];
      if !Encodable(c) {
        errors := true;
        c := REPLACEMENT;
      }
      dst := dst + Encode(c);
      i := i + 1;
    }
    assert words[i - start..] == [];
    EncodedNoWords();
  }

  lemma SwapWordsAt(ws: seq<Word>)
    ensures |SwapWords(ws)| == |ws| && forall k :: 0 <= k < |ws| ==> SwapWords(ws)[k] == SwapWord(ws[k])
  {
  }

  /** A word that is no code becomes the replacement character, byte by byte. */
  lemma SurrogateWordIsReplaced(w: Word)
    requires 0xd800 <= w <= 0xdfff || w >= 0x80000000
    ensures EncodedWords([w]) == [0xef, 0xbf, 0xbd]
  {
    assert [w][1..] == [];
    assert Encode(0xfffd) == [0xef, 0xbf, 0xbd];
  }

  /** A stray byte becomes one replacement character. */
  lemma StrayIsReplaced32(b: byte, cs: seq<Word>)
    requires Stray(b) && AllValid(cs)
    ensures Words(Decoded([b] + EncodeAll(cs))) == [0xfffd] + cs
  {
    hide EncodeAll, Decoded;
    StrayIsAlone(b, cs);
  }

  lemma EncodedNoWords()
    ensures EncodedWords([]) == []
  {
  }

  lemma EncodedWordsStep(ws: seq<Word>)
    requires ws != []
    ensures EncodedWords(ws) == Encoded32(ws[0]) + EncodedWords(ws[1..])
  {
  }

  lemma {:induction false} EncodedWordsOfCodes(cs: seq<Word>)
    requires AllValid(cs)
    ensures EncodedWords(cs) == EncodeAll(cs)
  {
    hide Encode;
    if cs != [] {
      EncodedWordsOfCodes(cs[1..]);
    }
  }

  /** To UCS-4 and back is the identity on an accepted string unless it begins with a byte order mark. */
  lemma ThereAndBack32(cs: seq<int>)
    requires AllValid(cs)
    ensures EncodedWords(UnmarkedWords(Words(Decoded(EncodeAll(cs))))) == EncodeAll(cs)
            <==> !(cs != [] && cs[0] == 0xfeff)
  {
    hide Encode, EncodeAll, FromUTF8, EncodedWords;
    DecodedOfEncoded(cs);
    assert Heard(cs) == cs;
    var ws := Words(cs);
    assert ws == cs;
    var read := UnmarkedWords(ws);
    assert AllValid(read);
    EncodedWordsOfCodes(read);
    if EncodeAll(read) == EncodeAll(cs) {
      UniqueDecomposition(cs, read);
    }
  }
}
