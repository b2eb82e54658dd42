/** Clipboard, its marshalling by IClipboard, and its transport in chunks. */
module Clipboards {
  import opened Bytes
  import opened Chunks
  import opened Decimal

  const NUM_FORMATS := 7

  /** What a string's data ends with; it may be read. */
  const NUL: byte := 0

  /** The known formats that a clipboard holds, with their data. */
  type Formats = map<nat, seq<byte>>

  datatype Entry = Entry(format: nat, data: seq<byte>)

  // ---------------------------------------------------------------- the marshalled form

  ghost predicate Fits(e: Entry) {
    e.format < TWO_TO_THE_32 && |e.data| < TWO_TO_THE_32
  }

  ghost predicate Packable(entries: seq<Entry>) {
    |entries| < TWO_TO_THE_32 && forall i :: 0 <= i < |entries| ==> Fits(entries[i])
  }

  ghost function PackEntry(e: Entry): seq<byte>
    requires Fits(e)
  {
    ToBE32(e.format) + ToBE32(|e.data|) + e.data
  }

  ghost function PackAll(entries: seq<Entry>): seq<byte>
    requires Packable(entries)
  {
    if entries == [] then [] else PackAll(entries[..|entries| - 1]) + PackEntry(entries[|entries| - 1])
  }

  ghost function Pack(entries: seq<Entry>): seq<byte>
    requires Packable(entries)
  {
    ToBE32(|entries|) + PackAll(entries)
  }

  /** What a clipboard holds after reading the entries in order; unknown formats are skipped. */
  ghost function Loaded(entries: seq<Entry>): Formats {
    if entries == [] then map[]
    else
      var e := entries[|entries| - 1];
      var before := Loaded(entries[..|entries| - 1]);
      if e.format < NUM_FORMATS then before[e.format := e.data] else before
  }

  /** The entries of a clipboard in the order of their formats, below `n`. */
  ghost function EntriesBelow(m: Formats, n: nat): seq<Entry> {
    if n == 0 then []
    else EntriesBelow(m, n - 1) + if n - 1 in m then [Entry(n - 1, m[n - 1])] else []
  }

  ghost predicate Marshallable(m: Formats) {
    forall f :: f in m ==> f < NUM_FORMATS && |m[f]| < TWO_TO_THE_32
  }

  lemma {:induction false} EntriesBelowPackable(m: Formats, n: nat)
    requires Marshallable(m)
    ensures |EntriesBelow(m, n)| <= n
    ensures n <= NUM_FORMATS ==> Packable(EntriesBelow(m, n))
  {
    if n > 0 {
      EntriesBelowPackable(m, n - 1);
    }
  }

  /** Loading the entries of a clipboard gives that clipboard. */
  lemma {:induction false} LoadedOfEntries(m: Formats, n: nat)
    requires Marshallable(m) && n <= NUM_FORMATS
    ensures Loaded(EntriesBelow(m, n)) == map f | f in m && f < n :: m[f]
  {
    if n > 0 {
      LoadedOfEntries(m, n - 1);
      var before := EntriesBelow(m, n - 1);
      if n - 1 in m {
        assert EntriesBelow(m, n)[..|before|] == before;
      } else {
        assert EntriesBelow(m, n) == before;
      }
    }
  }

  /** An entry of an unknown format is skipped wherever it stands. */
  lemma {:induction false} UnknownIsSkipped(before: seq<Entry>, unknown: Entry, after: seq<Entry>)
    requires unknown.format >= NUM_FORMATS
    ensures Loaded(before + [unknown] + after) == Loaded(before + after)
  {
    if after == [] {
      assert before + [unknown] + after == before + [unknown] && before + after == before;
      assert (before + [unknown])[..|before|] == before;
    } else {
      var init := after[..|after| - 1];
      UnknownIsSkipped(before, unknown, init);
      var x, y := before + [unknown] + after, before + after;
      assert x[..|x| - 1] == before + [unknown] + init && y[..|y| - 1] == before + init;
    }
  }

  lemma PackAllAppend(entries: seq<Entry>, last: Entry)
    requires Packable(entries) && Fits(last) && |entries| + 1 < TWO_TO_THE_32
    ensures Packable(entries + [last]) && PackAll(entries + [last]) == PackAll(entries) + PackEntry(last)
  {
    hide PackEntry, Fits;
    var all := entries + [last];
    assert all[..|all| - 1] == entries && all[|all| - 1] == last;
  }

  lemma {:induction false} PackAllHead(e: Entry, rest: seq<Entry>)
    requires Fits(e) && Packable(rest) && |rest| + 1 < TWO_TO_THE_32
    ensures Packable([e] + rest) && PackAll([e] + rest) == PackEntry(e) + PackAll(rest)
  {
    hide PackEntry, Fits, PackAll;
    LoadNothing();
    if rest == [] {
      assert [e] + rest == [] + [e];
      PackAllAppend([], e);
    } else {
      var init, last := rest[..|rest| - 1], rest[|rest| - 1];
      PackAllHead(e, init);
      assert rest == init + [last] && [e] + rest == [e] + init + [last];
      PackAllAppend(init, last);
      PackAllAppend([e] + init, last);
    }
  }

  /** A marshalled clipboard byte by byte: the count, the format, the length, the data. */
  lemma MarshalledBytes()
    ensures Packable([Entry(3, [65, 66])]) && Pack([Entry(3, [65, 66])]) == [0, 0, 0, 1, 0, 0, 0, 3, 0, 0, 0, 2, 65, 66]
  {
    var e := Entry(3, [65, 66]);
    LoadNothing();
    PackAllAppend([], e);
    assert [] + [e] == [e];
    BE32Shift(0, 1);
    BE32Shift(0, 2);
    BE32Shift(0, 3);
    hide PackAll;
    assert PackEntry(e) == [0, 0, 0, 3] + [0, 0, 0, 2] + [65, 66];
  }

  // ---------------------------------------------------------------- the walk of the reading loop

  function FormatOf(rest: seq<byte>): (format: nat)
    requires 8 <= |rest|
    ensures format < TWO_TO_THE_32
  {
    FromBE32(rest[..4])
  }

  function SizeOf(rest: seq<byte>): (size: nat)
    requires 8 <= |rest|
    ensures size < TWO_TO_THE_32
  {
    FromBE32(rest[4..8])
  }

  /** The loop over `n` entries, with `rest` still before it, never steps past the end. */
  ghost predicate StaysInside(rest: seq<byte>, n: nat) {
    n == 0 || (8 <= |rest| && 8 + SizeOf(rest) <= |rest| && StaysInside(rest[8 + SizeOf(rest)..], n - 1))
  }

  /** The entries that it comes upon. */
  ghost function EntriesIn(rest: seq<byte>, n: nat): (entries: seq<Entry>)
    requires StaysInside(rest, n)
    ensures |entries| == n
  {
    if n == 0 then []
    else
      var end := 8 + SizeOf(rest);
      [Entry(FormatOf(rest), rest[8..end])] + EntriesIn(rest[end..], n - 1)
  }

  /** Unmarshalling never steps past the end of the bytes. */
  ghost predicate Readable(bytes: seq<byte>) {
    4 <= |bytes| && StaysInside(bytes[4..], FromBE32(bytes[..4]))
  }

  ghost function EntriesOf(bytes: seq<byte>): seq<Entry>
    requires Readable(bytes)
  {
    EntriesIn(bytes[4..], FromBE32(bytes[..4]))
  }

  lemma HeadIsEntry(e: Entry, s: seq<byte>)
    requires Fits(e) && PackEntry(e) <= s
    ensures |PackEntry(e)| == 8 + |e.data| <= |s|
    ensures FormatOf(s) == e.format && SizeOf(s) == |e.data| && s[8..8 + |e.data|] == e.data
  {
    hide ToBE32, FromBE32;
    BE32RoundTrip(e.format);
    BE32RoundTrip(|e.data|);
    var f, n := ToBE32(e.format), ToBE32(|e.data|);
    assert PackEntry(e) == f + (n + e.data);
    assert s[..|PackEntry(e)|] == f + (n + e.data);
    assert s[..4] == f && s[4..8] == n;
    assert s[8..8 + |e.data|] == s[..|PackEntry(e)|][8..];
  }

  /** Data that begins with marshalled entries is walked through them. */
  lemma {:induction false} WalkOfPacked(entries: seq<Entry>, s: seq<byte>)
    requires Packable(entries) && PackAll(entries) <= s
    ensures StaysInside(s, |entries|) && EntriesIn(s, |entries|) == entries
  {
    if entries != [] {
      hide PackAll, PackEntry, FormatOf, SizeOf;
      var e, rest := entries[0], entries[1..];
      assert entries == [e] + rest;
      PackAllHead(e, rest);
      assert PackEntry(e) <= s;
      HeadIsEntry(e, s);
      var end := 8 + |e.data|;
      assert s[..end] == PackEntry(e);
      assert PackAll(rest) <= s[end..] by { Suffix(s, PackEntry(e), PackAll(rest)); }
      WalkOfPacked(rest, s[end..]);
    }
  }

  lemma Suffix<T>(s: seq<T>, a: seq<T>, b: seq<T>)
    requires a + b <= s
    ensures |a| <= |s| && b <= s[|a|..]
  {
    assert s[..|a| + |b|] == a + b;
    assert s[|a|..][..|b|] == s[..|a| + |b|][|a|..] == b;
  }

  lemma HeadPacks(s: seq<byte>)
    requires 8 <= |s| && 8 + SizeOf(s) <= |s|
    ensures var e := Entry(FormatOf(s), s[8..8 + SizeOf(s)]);
            Fits(e) && s == PackEntry(e) + s[8 + SizeOf(s)..]
  {
    hide ToBE32, FromBE32;
    BE32Injective(s[..4]);
    BE32Injective(s[4..8]);
    assert s == s[..4] + s[4..8] + s[8..8 + SizeOf(s)] + s[8 + SizeOf(s)..];
  }

  /** Data that can be walked begins with the marshalled form of the entries met. */
  lemma {:induction false} PackedOfWalk(s: seq<byte>, n: nat)
    requires StaysInside(s, n) && n < TWO_TO_THE_32
    ensures Packable(EntriesIn(s, n)) && PackAll(EntriesIn(s, n)) <= s
  {
    if n > 0 {
      hide PackAll, PackEntry, FormatOf, SizeOf, Packable;
      var end := 8 + SizeOf(s);
      var e, rest := Entry(FormatOf(s), s[8..end]), EntriesIn(s[end..], n - 1);
      PackedOfWalk(s[end..], n - 1);
      InRange(s);
      HeadPacks(s);
      PackAllHead(e, rest);
      Prepend(PackEntry(e), PackAll(rest), s[end..]);
    } else {
      LoadNothing();
    }
  }

  lemma Prepend<T>(a: seq<T>, b: seq<T>, s: seq<T>)
    requires b <= s
    ensures a + b <= a + s
  {
  }

  lemma InRange(s: seq<byte>)
    requires 8 <= |s|
    ensures FormatOf(s) < TWO_TO_THE_32 && SizeOf(s) < TWO_TO_THE_32
  {
  }

  /**
   * The loop stays inside the data if and only if that begins with a marshalled form, and then
   * the entries met are those marshalled.
   */
  lemma ReadableIff(bytes: seq<byte>)
    ensures Readable(bytes) <==> exists entries :: Packable(entries) && Pack(entries) <= bytes
    ensures forall entries :: Packable(entries) && Pack(entries) <= bytes ==> EntriesOf(bytes) == entries
  {
    forall entries | Packable(entries) && Pack(entries) <= bytes
      ensures Readable(bytes) && EntriesOf(bytes) == entries
    {
      PackedIsReadable(entries, bytes);
    }
    if Readable(bytes) {
      var n := FromBE32(bytes[..4]);
      PackedOfWalk(bytes[4..], n);
      BE32Injective(bytes[..4]);
      var entries := EntriesOf(bytes);
      assert bytes == bytes[..4] + bytes[4..];
      assert Packable(entries) && Pack(entries) <= bytes;
    }
  }

  lemma PackedIsReadable(entries: seq<Entry>, bytes: seq<byte>)
    requires Packable(entries) && Pack(entries) <= bytes
    ensures Readable(bytes) && EntriesOf(bytes) == entries
  {
    hide PackAll, ToBE32, FromBE32;
    var header := ToBE32(|entries|);
    BE32RoundTrip(|entries|);
    Suffix(bytes, header, PackAll(entries));
    assert bytes[..4] == header;
    WalkOfPacked(entries, bytes[4..]);
  }

  /** A count of one and nothing after it: reading the entry leaves the data and its NUL. */
  lemma CutOffCount()
    ensures !Readable([0, 0, 0, 1] + [NUL])
  {
    var s := [0, 0, 0, 1] + [NUL];
    assert s[..4] == [0, 0, 0, 1];
    assert FromBE32(s[..4]) == 1;
  }

  /** An entry that claims two bytes more than there are. */
  lemma OverlongEntry()
    ensures !Readable([0, 0, 0, 1, 0, 0, 0, 0, 0, 0, 0, 3, 65] + [NUL])
  {
    var s: seq<byte> := [0, 0, 0, 1, 0, 0, 0, 0, 0, 0, 0, 3, 65, 0];
    assert [0, 0, 0, 1, 0, 0, 0, 0, 0, 0, 0, 3, 65] + [NUL] == s;
    assert s[..4] == [0, 0, 0, 1] && s[4..][4..8] == [0, 0, 0, 3];
    assert FromBE32(s[..4]) == 1 && SizeOf(s[4..]) == 3;
  }

  /** One that claims a byte more than there are gets the NUL for it. */
  lemma EntryWithNul()
    ensures Readable([0, 0, 0, 1, 0, 0, 0, 0, 0, 0, 0, 2, 65] + [NUL])
    ensures EntriesOf([0, 0, 0, 1, 0, 0, 0, 0, 0, 0, 0, 2, 65] + [NUL]) == [Entry(0, [65, NUL])]
  {
    var s: seq<byte> := [0, 0, 0, 1, 0, 0, 0, 0, 0, 0, 0, 2, 65, 0];
    assert [0, 0, 0, 1, 0, 0, 0, 0, 0, 0, 0, 2, 65] + [NUL] == s;
    assert s[..4] == [0, 0, 0, 1] && s[4..][..4] == [0, 0, 0, 0] && s[4..][4..8] == [0, 0, 0, 2];
    assert FromBE32(s[..4]) == 1 && FormatOf(s[4..]) == 0 && SizeOf(s[4..]) == 2;
    assert s[4..][8..10] == [65, NUL];
    assert StaysInside(s[4..][10..], 0);
  }

  // ---------------------------------------------------------------- the clipboard

  class Clipboard {
    var isOpen: bool
    var time: nat
    var owner: bool
    var timeOwned: nat
    const added: array<bool>
    const data: array<seq<byte>>

    ghost predicate Valid() {
      added.Length == NUM_FORMATS && data.Length == NUM_FORMATS
    }

    ghost function Contents(): Formats
      requires Valid()
      reads added, data
    {
      map f: nat | 0 <= f < NUM_FORMATS && added[f] :: data[f]
    }

    constructor ()
      ensures Valid() && Contents() == map[] && !isOpen && owner && timeOwned == 0
      ensures fresh(added) && fresh(data)
    {
      isOpen, time, owner, timeOwned := false, 0, false, 0;
      added := new bool[NUM_FORMATS](_ => false);
      data := new seq<byte>[NUM_FORMATS](_ => []);
      new;
      Open(0);
      Clear();
      Close();
    }

    method Clear()
      requires Valid() && isOpen
      modifies this`timeOwned, this`owner, added, data
      ensures Valid() && Contents() == map[] && owner && timeOwned == time
    {
      var i := 0;
      while i < NUM_FORMATS
        invariant 0 <= i <= NUM_FORMATS
        invariant forall k :: 0 <= k < i ==> !added[k]
      {
        data[i] := [];
        added[i] := false;
        i := i + 1;
      }
      timeOwned := time;
      owner := true;
    }

    method Add(format: nat, bytes: seq<byte>)
      requires Valid() && isOpen && owner && format < NUM_FORMATS
      modifies added, data
      ensures Valid() && Contents() == old(Contents())[format := bytes]
    {
      data[format] := bytes;
      added[format] := true;
    }

    method Open(t: nat)
      requires !isOpen
      modifies this`isOpen, this`time
      ensures isOpen && time == t
    {
      isOpen := true;
      time := t;
    }

    method Close()
      requires isOpen
      modifies this`isOpen
      ensures !isOpen
    {
      isOpen := false;
    }
  }

  lemma LoadNothing()
    ensures Packable([]) && PackAll([]) == [] && Loaded([]) == map[]
  {
  }

  lemma LoadedNext(done: seq<Entry>, e: Entry)
    ensures Loaded(done + [e])
            == if e.format < NUM_FORMATS then Loaded(done)[e.format := e.data] else Loaded(done)
  {
    assert (done + [e])[..|done|] == done;
  }

  lemma WalkStep(done: seq<Entry>, rest: seq<byte>, n: nat)
    requires n > 0
    ensures StaysInside(rest, n)
            <==> 8 <= |rest| && 8 + SizeOf(rest) <= |rest| && StaysInside(rest[8 + SizeOf(rest)..], n - 1)
    ensures StaysInside(rest, n) ==>
              var end := 8 + SizeOf(rest);
              done + EntriesIn(rest, n) == done + [Entry(FormatOf(rest), rest[8..end])] + EntriesIn(rest[end..], n - 1)
  {
  }

  /**
   * Restores a clipboard from its marshalled form.  `inside` is false if the loop steps past the
   * NUL after the data, where what the program does is undefined.
   */
  method Unmarshall(c: Clipboard, data: seq<byte>, time: nat) returns (inside: bool)
    requires c.Valid() && !c.isOpen
    modifies c, c.added, c.data
    ensures c.Valid() && inside == Readable(data + [NUL])
    ensures inside ==> !c.isOpen && c.timeOwned == time && c.Contents() == Loaded(EntriesOf(data + [NUL]))
  {
    var bytes := data + [NUL];
    hide Loaded, FromBE32, StaysInside, EntriesIn, FormatOf, SizeOf;
    c.Open(time);
    c.Clear();
    LoadNothing();
    if |bytes| < 4 {
      return false;
    }
    var numFormats: nat := FromBE32(bytes[..4]);
    var index := 4;
    var i := 0;
    ghost var done := [];
    NoWalk(bytes[4..]);
    while i < numFormats
      invariant 0 <= i <= numFormats && 4 <= index <= |bytes|
      invariant c.Valid() && c.isOpen && c.owner && c.timeOwned == time && c.Contents() == Loaded(done)
      invariant Readable(bytes) <==> StaysInside(bytes[index..], numFormats - i)
      invariant Readable(bytes) ==> EntriesOf(bytes) == done + EntriesIn(bytes[index..], numFormats - i)
    {
      var rest := bytes[index..];
      WalkStep(done, rest, numFormats - i);
      if |rest| < 8 {
        return false;
      }
      var format, size := FormatOf(rest), SizeOf(rest);
      if |rest| < 8 + size {
        return false;
      }
      LoadedNext(done, Entry(format, rest[8..8 + size]));
      if format < NUM_FORMATS {
        c.Add(format, rest[8..8 + size]);
      }
      done := done + [Entry(format, rest[8..8 + size])];
      assert rest[8 + size..] == bytes[index + 8 + size..];
      index := index + 8 + size;
      i := i + 1;
    }
    NoWalk(bytes[index..]);
    assert done + [] == done;
    c.Close();
    inside := true;
  }

  lemma NoWalk(rest: seq<byte>)
    ensures StaysInside(rest, 0) && EntriesIn(rest, 0) == []
  {
  }

  /** The first pass over the formats: how many there are, and their data. */
  method CollectFormats(c: Clipboard, formatData: array<seq<byte>>, ghost m: Formats) returns (numFormats: nat)
    requires c.Valid() && c.isOpen && m == c.Contents()
    requires formatData.Length == NUM_FORMATS && formatData != c.data
    modifies formatData
    ensures numFormats == |EntriesBelow(m, NUM_FORMATS)|
    ensures forall f :: f in m ==> formatData[f] == m[f]
  {
    numFormats := 0;
    var format := 0;
    while format < NUM_FORMATS
      invariant 0 <= format <= NUM_FORMATS && numFormats == |EntriesBelow(m, format)|
      invariant c.Contents() == m
      invariant forall f :: 0 <= f < format && f in m ==> formatData[f] == m[f]
    {
      if c.added[format] {
        numFormats := numFormats + 1;
        formatData[format] := c.data[format];
      }
      format := format + 1;
    }
  }

  /** The second pass: each format that there is, after the count. */
  method WriteFormats(c: Clipboard, formatData: array<seq<byte>>, header: seq<byte>, ghost m: Formats)
    returns (bytes: seq<byte>)
    requires c.Valid() && c.isOpen && m == c.Contents() && Marshallable(m)
    requires formatData.Length == NUM_FORMATS && forall f :: f in m ==> formatData[f] == m[f]
    ensures Packable(EntriesBelow(m, NUM_FORMATS)) && bytes == header + PackAll(EntriesBelow(m, NUM_FORMATS))
  {
    hide PackAll, Packable, ToBE32;
    LoadNothing();
    bytes := header;
    var format := 0;
    while format < NUM_FORMATS
      invariant 0 <= format <= NUM_FORMATS && Packable(EntriesBelow(m, format))
      invariant bytes == header + PackAll(EntriesBelow(m, format))
    {
      MarshallNext(m, format);
      assert c.added[format] <==> format in m;
      if c.added[format] {
        bytes := bytes + ToBE32(format);
        bytes := bytes + ToBE32(|formatData[format]|);
        bytes := bytes + formatData[format];
      }
      format := format + 1;
    }
  }

  /** The marshalled form of a clipboard: a count, then each format that it has in order. */
  method Marshall(c: Clipboard) returns (bytes: seq<byte>)
    requires c.Valid() && !c.isOpen && Marshallable(c.Contents())
    modifies c`isOpen, c`time
    ensures !c.isOpen && c.Contents() == old(c.Contents())
    ensures Packable(EntriesBelow(c.Contents(), NUM_FORMATS)) && bytes == Pack(EntriesBelow(c.Contents(), NUM_FORMATS))
  {
    hide PackAll, Packable, ToBE32, EntriesBelow;
    c.Open(0);
    ghost var m := c.Contents();
    var formatData := new seq<byte>[NUM_FORMATS](_ => []);
    EntriesBelowPackable(m, NUM_FORMATS);
    var numFormats := CollectFormats(c, formatData, m);
    bytes := WriteFormats(c, formatData, ToBE32(numFormats), m);
    c.Close();
  }

  lemma MarshallNext(m: Formats, n: nat)
    requires Marshallable(m) && n < NUM_FORMATS
    ensures Packable(EntriesBelow(m, n)) && Packable(EntriesBelow(m, n + 1))
    ensures PackAll(EntriesBelow(m, n + 1)) == PackAll(EntriesBelow(m, n)) +
            if n in m then ToBE32(n) + ToBE32(|m[n]|) + m[n] else []
  {
    EntriesBelowPackable(m, n);
    EntriesBelowPackable(m, n + 1);
    var before, after := EntriesBelow(m, n), EntriesBelow(m, n + 1);
    if n in m {
      assert after[..|after| - 1] == before;
    } else {
      assert after == before;
    }
  }

  /** Copies all formats, at the given time. */
  method Copy(dst: Clipboard, src: Clipboard, time: nat) returns (success: bool)
    requires dst.Valid() && src.Valid() && !dst.isOpen && !src.isOpen
    requires dst != src && dst.added != src.added && dst.data != src.data
    modifies src`isOpen, src`time, dst, dst.added, dst.data
    ensures success && !dst.isOpen && !src.isOpen && dst.timeOwned == time
    ensures src.Contents() == old(src.Contents()) && dst.Contents() == src.Contents()
  {
    hide Below;
    src.Open(time);
    dst.Open(time);
    dst.Clear();
    ghost var m := src.Contents();
    BelowNext(m, 0);
    var format := 0;
    while format != NUM_FORMATS
      invariant 0 <= format <= NUM_FORMATS && src.isOpen && dst.isOpen && dst.owner && dst.timeOwned == time
      invariant src.Contents() == m == old(src.Contents())
      invariant dst.Contents() == Below(m, format)
      decreases NUM_FORMATS - format
    {
      BelowNext(m, format);
      if src.added[format] {
        dst.Add(format, src.data[format]);
      }
      format := format + 1;
    }
    BelowAll(m);
    success := true;
    dst.Close();
    src.Close();
  }

  ghost function Below(m: Formats, n: nat): Formats {
    map f | f in m && f < n :: m[f]
  }

  lemma BelowNext(m: Formats, n: nat)
    ensures Below(m, 0) == map[]
    ensures Below(m, n + 1) == if n in m then Below(m, n)[n := m[n]] else Below(m, n)
  {
  }

  lemma BelowAll(m: Formats)
    requires forall f :: f in m ==> f < NUM_FORMATS
    ensures Below(m, NUM_FORMATS) == m
  {
  }

  // ---------------------------------------------------------------- transport in chunks

  const CLIPBOARD_END := 2

  const CHUNK_SIZE := 32 * 1024

  datatype Chunk =
    | Unreadable
    | Chunk(id: nat, sequence: nat, mark: byte, data: seq<byte>)

  /** The receiving side: the expected size and the data cached so far. */
  class ClipboardAssembler {
    var expectedSize: nat
    var dataCached: seq<byte>

    constructor ()
      ensures expectedSize == 0 && dataCached == []
    {
      expectedSize, dataCached := 0, [];
    }

    method Assemble(chunk: Chunk) returns (result: Progress)
      modifies this
      ensures chunk.Unreadable? ==>
                result == Error && dataCached == old(dataCached) && expectedSize == old(expectedSize)
      ensures chunk.Chunk? && chunk.mark == DATA_START ==>
                result == Start && dataCached == [] && expectedSize == StringToSize(chunk.data)
      ensures chunk.Chunk? && chunk.mark == DATA_CHUNK ==>
                result == NotFinish && dataCached == old(dataCached) + chunk.data && expectedSize == old(expectedSize)
      ensures chunk.Chunk? && chunk.mark != DATA_START && chunk.mark != DATA_CHUNK ==>
                && dataCached == old(dataCached) && expectedSize == old(expectedSize)
                && (result == Finish <==>
                    chunk.mark == DATA_END && chunk.id < CLIPBOARD_END && |dataCached| == expectedSize)
                && (result == Finish || result == Error)
    {
      if chunk.Unreadable? {
        return Error;
      }
      if chunk.mark == DATA_START {
        expectedSize := StringToSize(chunk.data);
        dataCached := [];
        return Start;
      } else if chunk.mark == DATA_CHUNK {
        dataCached := dataCached + chunk.data;
        return NotFinish;
      } else if chunk.mark == DATA_END {
        if chunk.id >= CLIPBOARD_END {
          return Error;
        } else if expectedSize != |dataCached| {
          return Error;
        }
        return Finish;
      }
      return Error;
    }
  }

  // ---------------------------------------------------------------- every sequence of chunks

  datatype Piece = Piece(id: nat, data: seq<byte>)

  /** The size that the last start mark announced, and the pieces since then, whosever they are. */
  datatype Transfer = Transfer(size: nat, pieces: seq<Piece>)

  ghost function LastTransfer(chunks: seq<Chunk>): Transfer {
    if chunks == [] then Transfer(0, [])
    else
      var before := LastTransfer(chunks[..|chunks| - 1]);
      match chunks[|chunks| - 1]
      case Unreadable => before
      case Chunk(id, _, mark, data) =>
        if mark == DATA_START then Transfer(StringToSize(data), [])
        else if mark == DATA_CHUNK then before.(pieces := before.pieces + [Piece(id, data)])
        else before
  }

  ghost function Together(pieces: seq<Piece>): seq<byte> {
    if pieces == [] then [] else Together(pieces[..|pieces| - 1]) + pieces[|pieces| - 1].data
  }

  /** The pieces of one clipboard only. */
  ghost function OwnData(pieces: seq<Piece>, id: nat): seq<byte> {
    if pieces == [] then []
    else
      var last := pieces[|pieces| - 1];
      OwnData(pieces[..|pieces| - 1], id) + if last.id == id then last.data else []
  }

  /** No other clipboard has a byte among the pieces. */
  ghost predicate Unmixed(pieces: seq<Piece>, id: nat) {
    forall i :: 0 <= i < |pieces| ==> pieces[i].id == id || pieces[i].data == []
  }

  lemma {:induction false} MixedIsLonger(pieces: seq<Piece>, id: nat)
    ensures |OwnData(pieces, id)| <= |Together(pieces)|
    ensures Unmixed(pieces, id) ==> Together(pieces) == OwnData(pieces, id)
    ensures !Unmixed(pieces, id) ==> |OwnData(pieces, id)| < |Together(pieces)|
  {
    if pieces != [] {
      var init, last := pieces[..|pieces| - 1], pieces[|pieces| - 1];
      MixedIsLonger(init, id);
      assert Unmixed(pieces, id) <==> Unmixed(init, id) && (last.id == id || last.data == []) by {
        assert forall i :: 0 <= i < |init| ==> pieces[i] == init[i];
      }
    }
  }

  /** What is to be reported for a chunk after a transfer so far. */
  ghost function Verdict(chunk: Chunk, t: Transfer): Progress {
    if chunk.Unreadable? then Error
    else if chunk.mark == DATA_START then Start
    else if chunk.mark == DATA_CHUNK then NotFinish
    else if chunk.mark == DATA_END && chunk.id < CLIPBOARD_END && |Together(t.pieces)| == t.size then Finish
    else Error
  }

  lemma TogetherAppend(pieces: seq<Piece>, piece: Piece)
    ensures Together(pieces + [piece]) == Together(pieces) + piece.data
  {
    assert (pieces + [piece])[..|pieces|] == pieces;
  }

  lemma TransferStep(chunks: seq<Chunk>, k: nat)
    requires k <= |chunks|
    ensures LastTransfer(chunks[..0]) == Transfer(0, []) && Together([]) == []
    ensures k < |chunks| ==>
              var before, after := LastTransfer(chunks[..k]), LastTransfer(chunks[..k + 1]);
              if chunks[k].Unreadable? then after == before
              else if chunks[k].mark == DATA_START then
                after.size == StringToSize(chunks[k].data) && Together(after.pieces) == []
              else if chunks[k].mark == DATA_CHUNK then
                after.size == before.size && Together(after.pieces) == Together(before.pieces) + chunks[k].data
              else after == before
  {
    if k < |chunks| {
      assert chunks[..k + 1][..k] == chunks[..k];
      if chunks[k].Chunk? {
        TogetherAppend(LastTransfer(chunks[..k]).pieces, Piece(chunks[k].id, chunks[k].data));
      }
    }
  }

  /**
   * Every sequence of chunks: a finish is reported exactly when an end mark of a known clipboard
   * meets as many bytes as were announced.  The data is then that clipboard's own if and only if
   * no other had a byte among the pieces since the last start mark.
   */
  method Receive(chunks: seq<Chunk>) returns (results: seq<Progress>, data: seq<seq<byte>>)
    ensures |results| == |data| == |chunks|
    ensures forall k :: 0 <= k < |chunks| ==>
              && results[k] == Verdict(chunks[k], LastTransfer(chunks[..k]))
              && data[k] == Together(LastTransfer(chunks[..k + 1]).pieces)
    ensures forall k :: 0 <= k < |chunks| && results[k] == Finish ==>
              var pieces := LastTransfer(chunks[..k]).pieces;
              && chunks[k].Chunk? && data[k] == Together(pieces)
              && (data[k] == OwnData(pieces, chunks[k].id) <==> Unmixed(pieces, chunks[k].id))
  {
    hide LastTransfer, Together, OwnData, Unmixed, StringToSize;
    var a := new ClipboardAssembler();
    results, data := [], [];
    TransferStep(chunks, 0);
    var i := 0;
    while i < |chunks|
      invariant 0 <= i <= |chunks| && |results| == |data| == i && fresh(a)
      invariant a.expectedSize == LastTransfer(chunks[..i]).size
      invariant a.dataCached == Together(LastTransfer(chunks[..i]).pieces)
      invariant forall k :: 0 <= k < i ==>
                  && results[k] == Verdict(chunks[k], LastTransfer(chunks[..k]))
                  && data[k] == Together(LastTransfer(chunks[..k + 1]).pieces)
    {
      TransferStep(chunks, i);
      var result := a.Assemble(chunks[i]);
      results, data := results + [result], data + [a.dataCached];
      i := i + 1;
    }
    forall k | 0 <= k < |chunks| && results[k] == Finish
      ensures data[k] == Together(LastTransfer(chunks[..k]).pieces)
      ensures data[k] == OwnData(LastTransfer(chunks[..k]).pieces, chunks[k].id)
              <==> Unmixed(LastTransfer(chunks[..k]).pieces, chunks[k].id)
    {
      TransferStep(chunks, k);
      MixedIsLonger(LastTransfer(chunks[..k]).pieces, chunks[k].id);
    }
  }

  /** The byte of one clipboard finishes as the data of another. */
  method FinishesUnderAnotherId() returns (result: Progress, data: seq<byte>)
    ensures result == Finish && data == [65]
  {
    var a := new ClipboardAssembler();
    SizeRoundTrip(1);
    result := a.Assemble(Chunk(0, 0, DATA_START, ToString(1)));
    result := a.Assemble(Chunk(0, 0, DATA_CHUNK, [65]));
    result := a.Assemble(Chunk(1, 0, DATA_END, []));
    data := a.dataCached;
  }

  /** Data announced and cut in any way arrives, from any earlier state. */
  method Deliver(a: ClipboardAssembler, id: nat, sequence: nat, data: seq<byte>, pieces: seq<seq<byte>>)
    returns (last: Progress)
    requires id < CLIPBOARD_END && |data| < TWO_TO_THE_64 && Concat(pieces) == data
    modifies a
    ensures last == Finish && a.dataCached == data
  {
    hide Concat;
    SizeRoundTrip(|data|);
    var _ := a.Assemble(Chunk(id, sequence, DATA_START, ToString(|data|)));
    ConcatNone<byte>();
    assert pieces[..0] == [];
    var i := 0;
    while i < |pieces|
      invariant 0 <= i <= |pieces| && a.expectedSize == |data| && a.dataCached == Concat(pieces[..i])
    {
      ConcatAppend(pieces[..i], pieces[i]);
      assert pieces[..i] + [pieces[i]] == pieces[..i + 1];
      var _ := a.Assemble(Chunk(id, sequence, DATA_CHUNK, pieces[i]));
      i := i + 1;
    }
    assert pieces[..i] == pieces;
    last := a.Assemble(Chunk(id, sequence, DATA_END, []));
  }

  /** The pieces that the sender makes: at least one, none too long, together the data. */
  method CutClipboard(data: seq<byte>) returns (pieces: seq<seq<byte>>)
    ensures Concat(pieces) == data && pieces != []
    ensures forall i :: 0 <= i < |pieces| ==> |pieces[i]| <= CHUNK_SIZE
  {
    hide Concat;
    pieces := [];
    ConcatNone<byte>();
    var sentLength := 0;
    var chunkSize := CHUNK_SIZE;
    while true
      invariant 0 <= sentLength <= |data| && 0 <= chunkSize <= CHUNK_SIZE
      invariant sentLength < |data| ==> chunkSize == CHUNK_SIZE
      invariant sentLength == |data| ==> pieces == []
      invariant Concat(pieces) == data[..sentLength]
      invariant forall i :: 0 <= i < |pieces| ==> |pieces[i]| <= CHUNK_SIZE
      decreases |data| - sentLength
    {
      if sentLength + chunkSize > |data| {
        chunkSize := |data| - sentLength;
      }
      var piece := data[sentLength..sentLength + chunkSize];
      ConcatAppend(pieces, piece);
      pieces := pieces + [piece];
      sentLength := sentLength + chunkSize;
      if sentLength == |data| {
        assert data[..sentLength] == data;
        break;
      }
    }
  }

  /**
   * Transport is the identity: for every clipboard that can be marshalled and every way of
   * cutting, marshalling, chunking, assembling and unmarshalling restore the same formats.
   */
  method Transport(src: Clipboard, dst: Clipboard, a: ClipboardAssembler, id: nat, sequence: nat, time: nat,
                   split: seq<byte> -> seq<seq<byte>>)
    returns (last: Progress)
    requires src.Valid() && dst.Valid() && !src.isOpen && !dst.isOpen && src != dst
    requires src.added != dst.added && src.data != dst.data
    requires Marshallable(src.Contents()) && id < CLIPBOARD_END
    requires forall d :: Concat(split(d)) == d
    modifies src`isOpen, src`time, dst, dst.added, dst.data, a
    ensures last == Finish && dst.Contents() == src.Contents() == old(src.Contents()) && dst.timeOwned == time
  {
    hide Loaded, EntriesBelow, PackAll, Packable, ToBE32, Concat;
    var bytes := Marshall(src);
    ghost var m := src.Contents();
    ghost var entries := EntriesBelow(m, NUM_FORMATS);
    SizeOfEntries(m, NUM_FORMATS);
    last := Deliver(a, id, sequence, bytes, split(bytes));
    PackedIsReadable(entries, bytes + [NUL]);
    var inside := Unmarshall(dst, a.dataCached, time);
    LoadedOfEntries(m, NUM_FORMATS);
    assert (map f | f in m && f < NUM_FORMATS :: m[f]) == m;
  }

  /** Seven formats of less than 4 GiB each: the announced size is a 64-bit number. */
  lemma {:induction false} SizeOfEntries(m: Formats, n: nat)
    requires Marshallable(m) && n <= NUM_FORMATS
    ensures Packable(EntriesBelow(m, n)) && |PackAll(EntriesBelow(m, n))| <= n * (8 + TWO_TO_THE_32)
  {
    hide PackAll, Packable, ToBE32;
    if n == 0 {
      LoadNothing();
    } else {
      SizeOfEntries(m, n - 1);
      MarshallNext(m, n - 1);
      assert |PackAll(EntriesBelow(m, n))| <= |PackAll(EntriesBelow(m, n - 1))| + 8 + TWO_TO_THE_32;
    }
  }
}
