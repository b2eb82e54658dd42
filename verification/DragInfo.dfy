/**
 * Dragged files: making a name safe (DragPayload.cpp) and the comma separated list of names and
 * sizes (DragInformation.cpp).
 */
module DragInfo {
  import opened Bytes
  import opened Decimal
  import opened Search

  const COMMA: byte := 44
  const DOT: byte := 46
  const BLANK: byte := 32
  const UNDERSCORE: byte := 95

  /** "InputLeap Drop" */
  const FALLBACK: seq<byte> := [73, 110, 112, 117, 116, 76, 101, 97, 112, 32, 68, 114, 111, 112]

  predicate Separator(b: byte) {
    b == 47 || b == 92
  }

  predicate Unsafe(b: byte) {
    b < 0x20 || b == 60 || b == 62 || b == 58 || b == 34 || Separator(b) || b == 124 || b == 63 || b == 42 || b == COMMA
  }

  /** What follows the last slash or backslash. */
  function BaseName(s: seq<byte>): (r: seq<byte>)
    ensures forall i :: 0 <= i < |r| ==> !Separator(r[i])
    ensures (forall i :: 0 <= i < |s| ==> !Separator(s[i])) ==> r == s
  {
    if s == [] then []
    else
      var last := s[|s| - 1];
      if Separator(last) then [] else BaseName(s[..|s| - 1]) + [last]
  }

  function Replaced(s: seq<byte>): (r: seq<byte>)
    ensures |r| == |s|
    ensures forall i :: 0 <= i < |s| ==> r[i] == if Unsafe(s[i]) then UNDERSCORE else s[i]
  {
    if s == [] then [] else Replaced(s[..|s| - 1]) + [if Unsafe(s[|s| - 1]) then UNDERSCORE else s[|s| - 1]]
  }

  function Stripped(s: seq<byte>): (r: seq<byte>)
    ensures r <= s
    ensures r != [] ==> r[|r| - 1] != BLANK && r[|r| - 1] != DOT
  {
    if s != [] && (s[|s| - 1] == BLANK || s[|s| - 1] == DOT) then Stripped(s[..|s| - 1]) else s
  }

  function Lower(b: byte): byte {
    if 65 <= b <= 90 then b + 32 else b
  }

  function LowerAll(s: seq<byte>): (r: seq<byte>)
    ensures |r| == |s| && forall i :: 0 <= i < |s| ==> r[i] == Lower(s[i])
  {
    if s == [] then [] else [Lower(s[0])] + LowerAll(s[1..])
  }

  /** con, prn, aux, nul, com1 to com9, lpt1 to lpt9 before the first dot, in any case. */
  predicate Reserved(filename: seq<byte>) {
    var stem := LowerAll(filename[..Find(filename, DOT, 0)]);
    || stem == [99, 111, 110] || stem == [112, 114, 110] || stem == [97, 117, 120] || stem == [110, 117, 108]
    || (|stem| == 4 && (stem[..3] == [99, 111, 109] || stem[..3] == [108, 112, 116]) && 49 <= stem[3] <= 57)
  }

  // ---------------------------------------------------------------- bytes and names as characters

  /** Text in ASCII. */
  function Ascii(text: string): (r: seq<byte>)
    requires forall i :: 0 <= i < |text| ==> text[i] < 128 as char
    ensures |r| == |text| && forall i :: 0 <= i < |text| ==> r[i] == text[i] as int
  {
    seq(|text|, i requires 0 <= i < |text| => var b: byte := text[i] as int; b)
  }

  /** The unsafe bytes are the control characters and those that one of the systems keeps for itself. */
  lemma UnsafeCharacters(b: byte)
    ensures Unsafe(b) <==> b < 0x20 || exists i :: 0 <= i < 10 && b == "<>:\"/\\|?*,"[i] as int
    ensures Separator(b) <==> b == '/' as int || b == '\\' as int
  {
    var unsafe := "<>:\"/\\|?*,";
    assert unsafe[0] == '<' && unsafe[1] == '>' && unsafe[2] == ':' && unsafe[3] == '"' && unsafe[4] == '/';
    assert unsafe[5] == '\\' && unsafe[6] == '|' && unsafe[7] == '?' && unsafe[8] == '*' && unsafe[9] == ',';
  }

  /** The device names, with the digit of the numbered ones. */
  const DEVICES: seq<string> := ["con", "prn", "aux", "nul"]
  const NUMBERED: seq<string> := ["com", "lpt"]

  /** A stem in small letters is reserved exactly if it is a device name. */
  ghost predicate DeviceName(stem: seq<byte>) {
    || (exists d :: d in DEVICES && |d| == |stem| && forall i :: 0 <= i < |d| ==> stem[i] == d[i] as int)
    || (|stem| == 4 && '1' as int <= stem[3] <= '9' as int
        && exists d :: d in NUMBERED && |d| == 3 && forall i :: 0 <= i < 3 ==> stem[i] == d[i] as int)
  }

  /** The device names are reserved in any case and with any extension, and nothing else is. */
  lemma ReservedIsDevice(filename: seq<byte>)
    ensures Reserved(filename) <==> DeviceName(LowerAll(filename[..Find(filename, DOT, 0)]))
  {
    var stem := LowerAll(filename[..Find(filename, DOT, 0)]);
    DeviceBytes(stem);
  }

  lemma DeviceBytes(stem: seq<byte>)
    ensures DeviceName(stem) <==>
            || stem == [99, 111, 110] || stem == [112, 114, 110] || stem == [97, 117, 120] || stem == [110, 117, 108]
            || (|stem| == 4 && (stem[..3] == [99, 111, 109] || stem[..3] == [108, 112, 116]) && 49 <= stem[3] <= 57)
  {
    var con, prn, aux, nul := DEVICES[0], DEVICES[1], DEVICES[2], DEVICES[3];
    assert con == "con" && prn == "prn" && aux == "aux" && nul == "nul";
    var com, lpt := NUMBERED[0], NUMBERED[1];
    assert com == "com" && lpt == "lpt";
    assert com in NUMBERED && lpt in NUMBERED && con in DEVICES && prn in DEVICES && aux in DEVICES && nul in DEVICES;
    assert |stem| == 4 ==> stem[..3] == [stem[0], stem[1], stem[2]];
    assert |stem| == 3 ==> stem == [stem[0], stem[1], stem[2]];
  }

  /** Capital letters count as small ones. */
  lemma LowerIs(b: byte)
    ensures Lower(b) == if 'A' as int <= b <= 'Z' as int then b + ('a' as int - 'A' as int) else b
  {
  }

  function Sanitized(value: seq<byte>): (r: seq<byte>) {
    var name := Stripped(Replaced(BaseName(value)));
    var name' := if name == [] then FALLBACK else name;
    if Reserved(name') then [UNDERSCORE] + name' else name'
  }

  method SanitizeDragFilename(value: seq<byte>) returns (filename: seq<byte>)
    ensures filename == Sanitized(value)
  {
    filename := LastComponent(value);
    var i := 0;
    ghost var base := filename;
    while i < |filename|
      invariant 0 <= i <= |filename| == |base|
      invariant forall k :: 0 <= k < i ==> filename[k] == if Unsafe(base[k]) then UNDERSCORE else base[k]
      invariant forall k :: i <= k < |base| ==> filename[k] == base[k]
    {
      if Unsafe(filename[i]) {
        filename := filename[i := UNDERSCORE];
      }
      i := i + 1;
    }
    assert filename == Replaced(base);
    while filename != [] && (filename[|filename| - 1] == BLANK || filename[|filename| - 1] == DOT)
      invariant Stripped(filename) == Stripped(Replaced(base))
    {
      filename := filename[..|filename| - 1];
    }
    if filename == [] || filename == [DOT] || filename == [DOT, DOT] {
      filename := FALLBACK;
    }
    if Reserved(filename) {
      filename := [UNDERSCORE] + filename;
    }
  }

  /** The part after the last separator, found by searching from the end. */
  method LastComponent(s: seq<byte>) returns (r: seq<byte>)
    ensures r == BaseName(s)
  {
    hide BaseName, Separator;
    var k := |s|;
    assert s[..k] == s && s[k..] == [];
    while k > 0 && !Separator(s[k - 1])
      invariant 0 <= k <= |s|
      invariant BaseName(s) == BaseName(s[..k]) + s[k..]
    {
      BaseNameStep(s, k);
      k := k - 1;
    }
    BaseNameStep(s, k);
    r := s[k..];
  }

  lemma BaseNameStep(s: seq<byte>, k: nat)
    requires k <= |s|
    ensures k == 0 || Separator(s[k - 1]) ==> BaseName(s[..k]) == []
    ensures k > 0 && !Separator(s[k - 1]) ==> BaseName(s[..k]) + s[k..] == BaseName(s[..k - 1]) + s[k - 1..]
  {
    if k > 0 {
      assert s[..k][..k - 1] == s[..k - 1] && s[k - 1..] == [s[k - 1]] + s[k..];
    }
  }

  // ---------------------------------------------------------------- what a safe name is

  /** Not empty, without separators and other unsafe bytes, and not ending in a dot or a blank. */
  ghost predicate Presentable(s: seq<byte>) {
    && s != []
    && (forall i :: 0 <= i < |s| ==> !Unsafe(s[i]))
    && s[|s| - 1] != BLANK && s[|s| - 1] != DOT
  }

  ghost predicate SafeName(s: seq<byte>) {
    Presentable(s) && !Reserved(s)
  }

  lemma CleanedIsPresentable(base: seq<byte>)
    requires Stripped(Replaced(base)) != []
    ensures Presentable(Stripped(Replaced(base)))
  {
    var name := Stripped(Replaced(base));
    forall i | 0 <= i < |name| ensures !Unsafe(name[i]) {
      assert name[i] == Replaced(base)[i];
    }
  }

  lemma PrefixedIsPresentable(s: seq<byte>)
    requires Presentable(s)
    ensures Presentable([UNDERSCORE] + s)
  {
    var t := [UNDERSCORE] + s;
    assert forall i :: 0 < i < |t| ==> t[i] == s[i - 1];
  }

  lemma UnderscoreIsNotReserved(s: seq<byte>)
    ensures !Reserved([UNDERSCORE] + s)
  {
    var t := [UNDERSCORE] + s;
    var stem := LowerAll(t[..Find(t, DOT, 0)]);
    assert t[0] == UNDERSCORE;
    assert stem != [] ==> stem[0] == UNDERSCORE;
    assert |stem| == 4 ==> stem[..3][0] == UNDERSCORE;
  }

  /** Every path is made into a non-empty name that both systems accept. */
  lemma SanitizedIsSafe(value: seq<byte>)
    ensures SafeName(Sanitized(value))
  {
    hide Reserved, Presentable, Unsafe;
    var base := BaseName(value);
    var name := Stripped(Replaced(base));
    var name' := if name == [] then FALLBACK else name;
    if name != [] {
      CleanedIsPresentable(base);
    } else {
      FallbackIsPresentable();
    }
    PrefixedIsPresentable(name');
    UnderscoreIsNotReserved(name');
  }

  lemma FallbackIsPresentable()
    ensures Presentable(FALLBACK)
  {
  }

  /** A safe name is left as it is, so sanitizing is idempotent. */
  lemma SafeIsKept(name: seq<byte>)
    requires SafeName(name)
    ensures Sanitized(name) == name
  {
    assert forall i :: 0 <= i < |name| ==> !Separator(name[i]);
    assert Replaced(name) == name;
  }

  lemma SanitizedTwice(value: seq<byte>)
    ensures Sanitized(Sanitized(value)) == Sanitized(value)
  {
    SanitizedIsSafe(value);
    SafeIsKept(Sanitized(value));
  }

  ghost predicate NoSeparator(name: seq<byte>) {
    forall i :: 0 <= i < |name| ==> !Separator(name[i])
  }

  lemma {:induction false} BaseOfPath(path: seq<byte>, separator: byte, name: seq<byte>)
    requires Separator(separator) && NoSeparator(name)
    ensures BaseName(path + [separator] + name) == name
  {
    var s := path + [separator] + name;
    if name == [] {
      assert s[|s| - 1] == separator;
    } else {
      var init, last := name[..|name| - 1], name[|name| - 1];
      BaseOfPath(path, separator, init);
      assert s[..|s| - 1] == path + [separator] + init && s[|s| - 1] == last;
      assert name == init + [last];
    }
  }

  /** The path in front of a name does not matter. */
  lemma PathIsDropped(path: seq<byte>, separator: byte, name: seq<byte>)
    requires Separator(separator) && NoSeparator(name)
    ensures Sanitized(path + [separator] + name) == Sanitized(name)
  {
    assert BaseName(name) == name;
    BaseOfPath(path, separator, name);
    hide BaseName, Replaced, Stripped, Reserved;
  }

  /** Neither do dots and blanks at its end. */
  lemma EndIsDropped(name: seq<byte>, b: byte)
    requires NoSeparator(name) && (b == DOT || b == BLANK)
    ensures Sanitized(name + [b]) == Sanitized(name)
  {
    hide Reserved;
    var longer := name + [b];
    assert NoSeparator(longer);
    assert BaseName(longer) == longer && BaseName(name) == name;
    StrippedEnd(name, b);
    hide BaseName, Stripped, Replaced;
  }

  lemma StrippedEnd(name: seq<byte>, b: byte)
    requires b == DOT || b == BLANK
    ensures Stripped(Replaced(name + [b])) == Stripped(Replaced(name))
  {
    var r := Replaced(name + [b]);
    assert r == Replaced(name) + [b];
    assert r[..|r| - 1] == Replaced(name);
  }

  /** Every other byte is kept, or replaced where it stands if it is unsafe. */
  lemma BytesAreKept(name: seq<byte>, r: seq<byte>)
    requires name != [] && NoSeparator(name) && name[|name| - 1] != DOT && name[|name| - 1] != BLANK
    requires |r| == |name| && forall i :: 0 <= i < |name| ==> r[i] == if Unsafe(name[i]) then '_' as int else name[i]
    ensures Sanitized(name) == if Reserved(r) then ['_' as int] + r else r
  {
    hide Reserved, Unsafe;
    assert BaseName(name) == name;
    ReplacedIs(name, r);
    assert r[|r| - 1] != DOT && r[|r| - 1] != BLANK;
    assert Stripped(r) == r;
    hide BaseName, Replaced, Stripped;
  }

  lemma ReplacedIs(name: seq<byte>, r: seq<byte>)
    requires |r| == |name| && forall i :: 0 <= i < |name| ==> r[i] == if Unsafe(name[i]) then '_' as int else name[i]
    ensures Replaced(name) == r
  {
    hide Unsafe;
  }

  /** What is left without a name gets one. */
  lemma NothingGetsAName()
    ensures Sanitized([]) == Ascii("InputLeap Drop")
  {
    assert Ascii("InputLeap Drop") == FALLBACK;
    NotReserved();
  }

  lemma NotReserved()
    ensures !Reserved(FALLBACK)
  {
    var n := Find(FALLBACK, DOT, 0);
    assert n > 5;
  }

  // ---------------------------------------------------------------- the list

  /** A file by its path or name, and its size. */
  datatype Item = Item(name: seq<byte>, size: nat)

  ghost function Listed(files: seq<Item>): seq<byte> {
    if files == [] then []
    else Listed(files[..|files| - 1]) + ListedOne(files[|files| - 1])
  }

  ghost function ListedOne(file: Item): seq<byte> {
    Sanitized(file.name) + [COMMA] + ToString(file.size) + [COMMA]
  }

  /** The files as the other side is to see them. */
  ghost function Seen(files: seq<Item>): seq<Item> {
    if files == [] then [] else [Item(Sanitized(files[0].name), files[0].size)] + Seen(files[1..])
  }

  method SetupDragInfo(files: seq<Item>) returns (output: seq<byte>, count: nat)
    ensures output == Listed(files) && count == |files|
  {
    hide Sanitized, ToString;
    output := [];
    count := |files|;
    var i := 0;
    while i < count
      invariant 0 <= i <= count == |files| && output == Listed(files[..i])
    {
      assert files[..i + 1][..i] == files[..i];
      var name := SanitizeDragFilename(files[i].name);
      output := output + name;
      output := output + [COMMA];
      output := output + ToString(files[i].size);
      output := output + [COMMA];
      i := i + 1;
    }
    assert files[..i] == files;
  }

  /** One entry and where the next one starts, unless the entry is not complete. */
  datatype Next = Stop | More(item: Item, start: nat)

  function NextItem(data: seq<byte>, start: nat): (r: Next)
    requires start <= |data|
    ensures r.More? ==> r.start <= |data|
  {
    var nameEnd := Find(data, COMMA, start);
    if nameEnd == |data| || nameEnd == start then Stop
    else
      var sizeEnd := Find(data, COMMA, nameEnd + 1);
      if sizeEnd == |data| then Stop
      else
        var filename := BaseName(data[start..nameEnd]);
        if filename == [] then Stop
        else More(Item(filename, StringToNum(data[nameEnd + 1..sizeEnd])), sizeEnd + 1)
  }

  /** Reads at most `n` entries from `start`, stopping at the first that is not complete. */
  function ParseAt(data: seq<byte>, start: nat, n: nat): seq<Item>
    requires start <= |data|
    decreases n
  {
    if n == 0 then []
    else match NextItem(data, start)
      case Stop => []
      case More(item, next) => [item] + ParseAt(data, next, n - 1)
  }

  /** The first comma at or after `start` is at `comma`. */
  ghost predicate FirstComma(data: seq<byte>, start: nat, comma: nat) {
    start <= comma < |data| && data[comma] == COMMA && forall k :: start <= k < comma ==> data[k] != COMMA
  }

  /** At `start` stand a path and a size, each ended by its comma, and the path has a last component. */
  ghost predicate EntryAt(data: seq<byte>, start: nat, pathEnd: nat, sizeEnd: nat) {
    && FirstComma(data, start, pathEnd) && FirstComma(data, pathEnd + 1, sizeEnd)
    && BaseName(data[start..pathEnd]) != []
  }

  /** An entry in the data is read as the last component of its path and the number of its size. */
  lemma NextIsEntry(data: seq<byte>, start: nat, pathEnd: nat, sizeEnd: nat)
    requires EntryAt(data, start, pathEnd, sizeEnd)
    ensures NextItem(data, start)
            == More(Item(BaseName(data[start..pathEnd]), StringToNum(data[pathEnd + 1..sizeEnd])), sizeEnd + 1)
  {
    hide Find, StringToNum;
    FindIs(data, COMMA, start, pathEnd);
    FindIs(data, COMMA, pathEnd + 1, sizeEnd);
  }

  /** Reading stops exactly if there is no entry. */
  lemma StopsWithoutEntry(data: seq<byte>, start: nat)
    requires start <= |data|
    ensures NextItem(data, start).More? <==> exists pathEnd, sizeEnd :: EntryAt(data, start, pathEnd, sizeEnd)
  {
    hide StringToNum;
    forall pathEnd, sizeEnd | EntryAt(data, start, pathEnd, sizeEnd) ensures NextItem(data, start).More? {
      NextIsEntry(data, start, pathEnd, sizeEnd);
    }
    if NextItem(data, start).More? {
      var pathEnd := Find(data, COMMA, start);
      var sizeEnd := Find(data, COMMA, pathEnd + 1);
      assert EntryAt(data, start, pathEnd, sizeEnd);
    }
  }

  method ReadItem(data: seq<byte>, start: nat) returns (r: Next)
    requires start <= |data|
    ensures r == NextItem(data, start)
  {
    hide Find, BaseName, StringToNum;
    var nameEnd: nat := Find(data, COMMA, start);
    if nameEnd == |data| || nameEnd == start {
      return Stop;
    }
    var sizeEnd: nat := Find(data, COMMA, nameEnd + 1);
    if sizeEnd == |data| {
      return Stop;
    }
    var filename := LastComponent(data[start..nameEnd]);
    if filename == [] {
      return Stop;
    }
    r := More(Item(filename, StringToNum(data[nameEnd + 1..sizeEnd])), sizeEnd + 1);
  }

  method ParseDragInfo(fileNum: nat, data: seq<byte>) returns (files: seq<Item>)
    ensures files == ParseAt(data, 0, fileNum)
  {
    hide NextItem;
    files := [];
    var startPos: nat := 0;
    var index: nat := 0;
    while index < fileNum
      invariant index <= fileNum && startPos <= |data|
      invariant ParseAt(data, 0, fileNum) == files + ParseAt(data, startPos, fileNum - index)
    {
      var next := ReadItem(data, startPos);
      if next.Stop? {
        return;
      }
      files := files + [next.item];
      startPos := next.start;
      index := index + 1;
    }
  }

  lemma {:induction false} ListedHead(files: seq<Item>)
    requires files != []
    ensures Listed(files) == ListedOne(files[0]) + Listed(files[1..])
  {
    hide ListedOne;
    if |files| == 1 {
      assert files[..0] == [] && files[1..] == [];
    } else {
      var init := files[..|files| - 1];
      ListedHead(init);
      assert files[1..][..|files| - 2] == init[1..];
    }
  }

  /** One entry of the list, at its place in the data. */
  lemma ParseOne(data: seq<byte>, start: nat, file: Item, n: nat)
    requires file.size < TWO_TO_THE_64 && n > 0
    requires start + |ListedOne(file)| <= |data| && data[start..start + |ListedOne(file)|] == ListedOne(file)
    ensures ParseAt(data, start, n)
            == [Item(Sanitized(file.name), file.size)] + ParseAt(data, start + |ListedOne(file)|, n - 1)
  {
    hide Sanitized, ToString, StringToNum, Find, Reserved, BaseName, Presentable, NextItem;
    var name, size := Sanitized(file.name), ToString(file.size);
    SanitizedIsSafe(file.name);
    SizeRoundTrip(file.size);
    KeptByBaseName(name);
    NoCommaInDigits(size);
    assert ListedOne(file) == name + ([COMMA] + (size + [COMMA]));
    SliceOfTwo(data, start, name, [COMMA] + (size + [COMMA]));
    SliceOfTwo(data, start + |name|, [COMMA], size + [COMMA]);
    SliceOfTwo(data, start + |name| + 1, size, [COMMA]);
    CommaAfter(data, start, name);
    CommaAfter(data, start + |name| + 1, size);
    NextIsEntry(data, start, start + |name|, start + |name| + 1 + |size|);
  }

  lemma KeptByBaseName(name: seq<byte>)
    requires Presentable(name)
    ensures BaseName(name) == name && name != [] && COMMA !in name
  {
  }

  lemma NoCommaInDigits(s: seq<byte>)
    requires AllDigits(s)
    ensures COMMA !in s
  {
  }

  lemma CommaAfter(data: seq<byte>, start: nat, piece: seq<byte>)
    requires COMMA !in piece
    requires start + |piece| < |data| && data[start..start + |piece|] == piece && data[start + |piece|] == COMMA
    ensures FirstComma(data, start, start + |piece|)
  {
    assert forall k :: start <= k < start + |piece| ==> data[k] == piece[k - start];
  }

  lemma {:induction false} ParseListed(data: seq<byte>, start: nat, files: seq<Item>)
    requires start <= |data| && data[start..] == Listed(files)
    requires forall i :: 0 <= i < |files| ==> files[i].size < TWO_TO_THE_64
    ensures ParseAt(data, start, |files|) == Seen(files)
    decreases |files|
  {
    hide ListedOne, Listed, ParseAt, Sanitized;
    if files == [] {
      ParseNothing(data, start);
    } else {
      ListedHead(files);
      var one, rest := ListedOne(files[0]), Listed(files[1..]);
      SuffixOfTwo(data, start, one, rest);
      ParseOne(data, start, files[0], |files|);
      ParseListed(data, start + |one|, files[1..]);
    }
  }

  lemma ParseNothing(data: seq<byte>, start: nat)
    requires start <= |data|
    ensures ParseAt(data, start, 0) == []
  {
  }

  /** The list as text. */
  lemma ListedAsText(file: Item)
    requires file.name == Ascii("a") && file.size == 5
    ensures Listed([file]) == Ascii("a,5,")
  {
    PlainName();
    hide Sanitized, Ascii;
    assert [file][..0] == [];
    assert ToString(5) == [53];
  }

  lemma PlainName()
    ensures Ascii("a") == [97] && Ascii("a,5,") == [97, 44, 53, 44] && Sanitized([97]) == [97]
  {
    hide Sanitized;
    OneLetter();
    BytesAreKept([97], [97]);
  }

  lemma OneLetter()
    ensures !Reserved([97])
  {
    var name: seq<byte> := [97];
    assert |name[..Find(name, DOT, 0)]| <= 1;
  }

  /** At most as many entries are read as are asked for, and a lower number reads the first of them. */
  lemma {:induction false} FirstEntries(data: seq<byte>, start: nat, m: nat, n: nat)
    requires start <= |data| && m <= n
    ensures |ParseAt(data, start, m)| <= m && ParseAt(data, start, m) <= ParseAt(data, start, n)
    decreases m
  {
    hide NextItem;
    if m > 0 && NextItem(data, start).More? {
      NextInside(data, start);
      FirstEntries(data, NextItem(data, start).start, m - 1, n - 1);
    }
  }

  lemma NextInside(data: seq<byte>, start: nat)
    requires start <= |data| && NextItem(data, start).More?
    ensures NextItem(data, start).start <= |data|
  {
  }

  /** Parsing the list yields exactly the safe names and the sizes, in order. */
  lemma RoundTrip(files: seq<Item>)
    requires forall i :: 0 <= i < |files| ==> files[i].size < TWO_TO_THE_64
    ensures ParseAt(Listed(files), 0, |files|) == Seen(files)
  {
    hide Listed, ParseAt;
    assert Listed(files)[0..] == Listed(files);
    ParseListed(Listed(files), 0, files);
  }
}
