/**
 * Byte strings shared by the wire formats: the four byte big-endian integers of the packet
 * header and of the clipboard format, and concatenation of pieces.
 */
module Bytes {

  type byte = b: int | 0 <= b < 256

  const TWO_TO_THE_32 := 0x1_0000_0000
  const TWO_TO_THE_64 := 0x1_0000_0000_0000_0000

  function ToBE32(n: int): (r: seq<byte>)
    requires 0 <= n < TWO_TO_THE_32
    ensures |r| == 4
  {
    [n / 0x1000000, n / 0x10000 % 256, n / 0x100 % 256, n % 256]
  }

  function FromBE32(b: seq<byte>): (r: int)
    requires |b| == 4
    ensures 0 <= r < TWO_TO_THE_32
  {
    var b0: int, b1: int, b2: int, b3: int := b[0], b[1], b[2], b[3];
    b0 * 0x1000000 + b1 * 0x10000 + b2 * 0x100 + b3
  }

  /** Writing a 32-bit number and reading it back is the identity. */
  lemma BE32RoundTrip(n: int)
    requires 0 <= n < TWO_TO_THE_32
    ensures FromBE32(ToBE32(n)) == n
  {
    assert n / 0x10000 == n / 0x1000000 * 256 + n / 0x10000 % 256;
    assert n / 0x100 == n / 0x10000 * 256 + n / 0x100 % 256;
    assert n == n / 0x100 * 256 + n % 256;
  }

  /** Reading four bytes and writing them back is the identity, so the header is unambiguous. */
  lemma BE32Injective(b: seq<byte>)
    requires |b| == 4
    ensures ToBE32(FromBE32(b)) == b
  {
    var n := FromBE32(b);
    var b0: int, b1: int, b2: int, b3: int := b[0], b[1], b[2], b[3];
    assert n / 0x100 == b0 * 0x10000 + b1 * 0x100 + b2 && n % 256 == b3;
    assert n / 0x10000 == b0 * 0x100 + b1 && n / 0x100 % 256 == b2;
  }

  /** The most significant byte comes first: one more byte is appended and the first dropped. */
  lemma BE32Shift(n: int, b: byte)
    requires 0 <= n < 0x100_0000
    ensures ToBE32(n * 256 + b) == ToBE32(n)[1..] + [b]
    ensures ToBE32(b) == [0, 0, 0, b]
  {
    var m := n * 256 + b;
    assert m / 256 == n && m % 256 == b;
    assert m / 0x1000000 == n / 0x10000 && m / 0x10000 == n / 0x100 && m / 0x100 == n;
    assert n / 0x10000 % 256 == n / 0x10000;
  }

  function Concat<T>(pieces: seq<seq<T>>): (r: seq<T>)
  {
    if pieces == [] then [] else pieces[0] + Concat(pieces[1..])
  }

  lemma ConcatNone<T>()
    ensures Concat<T>([]) == []
  {
  }

  lemma {:induction false} ConcatAppend<T>(pieces: seq<seq<T>>, last: seq<T>)
    ensures Concat(pieces + [last]) == Concat(pieces) + last
  {
    if pieces == [] {
      assert pieces + [last] == [last];
      assert Concat([last]) == last + Concat<T>([]);
    } else {
      ConcatAppend(pieces[1..], last);
      assert (pieces + [last])[1..] == pieces[1..] + [last];
    }
  }

  lemma ConcatPrepend<T>(first: seq<T>, pieces: seq<seq<T>>)
    ensures Concat([first] + pieces) == first + Concat(pieces)
  {
    assert ([first] + pieces)[1..] == pieces;
  }

  lemma {:induction false} ConcatPlus<T>(a: seq<seq<T>>, b: seq<seq<T>>)
    ensures Concat(a + b) == Concat(a) + Concat(b)
  {
    if a == [] {
      assert a + b == b;
    } else {
      ConcatPlus(a[1..], b);
      var first, rest, tail := a[0], Concat(a[1..]), Concat(b);
      assert a + b == [a[0]] + (a[1..] + b);
      ConcatPrepend(first, a[1..] + b);
      hide Concat;
      assert first + (rest + tail) == first + rest + tail;
    }
  }

  lemma {:induction false} ConcatPrefix<T>(a: seq<seq<T>>, k: nat)
    requires k <= |a|
    ensures Concat(a[..k]) <= Concat(a)
  {
    ConcatPlus(a[..k], a[k..]);
    assert a[..k] + a[k..] == a;
  }
}
