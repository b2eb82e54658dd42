/**
 * The list of screens that a key event goes to, kept as one string by IKeyState::KeyInfo: names
 * surrounded by colons, empty for none, and an asterisk for all.
 */
module ScreenList {
  import opened Search

  const COLON := ':'
  const ALL := "*"

  /** Names that the list can carry. */
  predicate Clean(name: string) {
    COLON !in name && '\0' !in name
  }

  predicate AllClean(names: seq<string>) {
    forall i :: 0 <= i < |names| ==> Clean(names[i])
  }

  /** Each name followed by a colon. */
  function Tagged(names: seq<string>): string {
    if names == [] then "" else names[0] + [COLON] + Tagged(names[1..])
  }

  function Joined(names: seq<string>): string {
    if ALL in names then ALL else if names == [] then "" else [COLON] + Tagged(names)
  }

  lemma {:induction false} TaggedAppend(names: seq<string>, name: string)
    ensures Tagged(names + [name]) == Tagged(names) + name + [COLON]
  {
    if names == [] {
      assert names + [name] == [name];
      assert Tagged([name]) == name + [COLON] + Tagged([]);
    } else {
      TaggedAppend(names[1..], name);
      assert (names + [name])[1..] == names[1..] + [name];
    }
  }

  /** A list as text. */
  lemma ListAsText()
    ensures Joined(["a", "b"]) == ":a:b:" && Joined([]) == "" && Joined(["a", "*"]) == "*"
  {
    var names := ["a", "b"];
    assert names[1..] == ["b"] && ["b"][1..] == [];
    assert Tagged(["b"]) == "b" + ":" + Tagged([]) == "b:";
    assert ["a", "*"][1] == ALL;
  }

  /** `names` are the destinations in the order of the set that holds them. */
  method Join(names: seq<string>) returns (screens: string)
    ensures screens == Joined(names)
  {
    hide Tagged;
    screens := "";
    var i := 0;
    while i < |names|
      invariant 0 <= i <= |names| && ALL !in names[..i]
      invariant screens == if i == 0 then "" else [COLON] + Tagged(names[..i])
    {
      if names[i] == ALL {
        screens := ALL;
        return;
      }
      if screens == "" {
        screens := [COLON];
      }
      JoinStep(names, i);
      screens := screens + names[i];
      screens := screens + [COLON];
      i := i + 1;
    }
    assert names[..i] == names;
  }

  lemma JoinStep(names: seq<string>, i: nat)
    requires i < |names|
    ensures [COLON] + Tagged(names[..0]) == [COLON]
    ensures [COLON] + Tagged(names[..i + 1]) == [COLON] + Tagged(names[..i]) + names[i] + [COLON]
    ensures ALL in names[..i + 1] <==> ALL in names[..i] || names[i] == ALL
  {
    assert names[..i + 1] == names[..i] + [names[i]];
    TaggedAppend(names[..i], names[i]);
  }

  predicate OccursAt(s: string, pattern: string, i: int) {
    0 <= i <= |s| - |pattern| && s[i..i + |pattern|] == pattern
  }

  function Pattern(name: string): string {
    [COLON] + name + [COLON]
  }

  /** strstr finds the name between colons. */
  predicate Contains(screens: string, name: string) {
    if screens == "" then false
    else if screens[0] == '*' then true
    else exists i :: 0 <= i <= |screens| && OccursAt(screens, Pattern(name), i)
  }

  /** A name found between colons is one of the names. */
  lemma {:induction false} FoundIsListed(names: seq<string>, name: string, i: nat)
    requires AllClean(names) && Clean(name)
    requires OccursAt([COLON] + Tagged(names), Pattern(name), i)
    ensures name in names
  {
    var s, p := [COLON] + Tagged(names), Pattern(name);
    if names != [] {
      var n, rest := names[0], [COLON] + Tagged(names[1..]);
      assert s == [COLON] + n + rest;
      assert s[i] == s[i..i + |p|][0] == COLON;
      assert forall k :: 0 < k <= |n| ==> s[k] == n[k - 1];
      hide Tagged;
      if i == 0 {
        HeadIsName(s, n, rest, name);
      } else if i > |n| {
        SliceOfSecond([COLON] + n, rest, i, |p|);
        FoundIsListed(names[1..], name, i - |n| - 1);
      }
    }
  }

  lemma HeadIsName(s: string, n: string, rest: string, name: string)
    requires COLON !in n && COLON !in name && rest != "" && rest[0] == COLON
    requires s == [COLON] + n + rest && OccursAt(s, Pattern(name), 0)
    ensures name == n
  {
    var p := Pattern(name);
    assert forall k :: 0 <= k < |p| ==> s[k] == p[k];
    assert s[1 + |n|] == COLON && p[1 + |name|] == COLON;
    assert forall k :: 0 < k <= |n| ==> s[k] == n[k - 1];
    assert forall k :: 0 < k <= |name| ==> p[k] == name[k - 1];
    assert |name| == |n|;
    assert forall k :: 0 <= k < |n| ==> n[k] == s[1 + k] && name[k] == p[1 + k];
  }

  lemma OccursLater(before: string, s: string, pattern: string, i: int)
    requires OccursAt(s, pattern, i)
    ensures OccursAt(before + s, pattern, |before| + i)
  {
    var j := |before| + i;
    assert (before + s)[j..j + |pattern|] == s[i..i + |pattern|];
  }

  lemma {:induction false} ListedIsFound(names: seq<string>, k: nat)
    requires k < |names|
    ensures exists i :: 0 <= i <= |[COLON] + Tagged(names)| && OccursAt([COLON] + Tagged(names), Pattern(names[k]), i)
  {
    var s := [COLON] + Tagged(names);
    if k == 0 {
      assert s == Pattern(names[0]) + Tagged(names[1..]);
      assert OccursAt(s, Pattern(names[0]), 0);
    } else {
      ListedIsFound(names[1..], k - 1);
      var rest, p := [COLON] + Tagged(names[1..]), Pattern(names[k]);
      var i :| 0 <= i <= |rest| && OccursAt(rest, p, i);
      OccursLater([COLON] + names[0], rest, p, i);
      assert s == [COLON] + names[0] + rest;
    }
  }

  /** The substring search agrees with the set: a name is found exactly if it is meant. */
  lemma ContainsJoined(names: seq<string>, name: string)
    requires AllClean(names) && Clean(name)
    ensures Contains(Joined(names), name) <==> name in names || ALL in names
  {
    if ALL !in names && names != [] {
      var s := Joined(names);
      if name in names {
        var k :| 0 <= k < |names| && names[k] == name;
        ListedIsFound(names, k);
      }
      if exists i :: 0 <= i <= |s| && OccursAt(s, Pattern(name), i) {
        var i :| 0 <= i <= |s| && OccursAt(s, Pattern(name), i);
        FoundIsListed(names, name, i);
      }
    }
  }

  // ---------------------------------------------------------------- splitting

  /** What a C string goes up to. */
  function UpToNul(s: string): (r: string)
    ensures '\0' !in r
    ensures '\0' !in s ==> r == s
  {
    s[..Find(s, '\0', 0)]
  }

  /** Lists that can be split: after the first character, every name is followed by a colon. */
  predicate Splittable(screens: string) {
    |screens| <= 1 || screens[0] == '*' || screens[|screens| - 1] == COLON
  }

  ghost function Segments(s: string): set<string>
    decreases |s|
  {
    var j := Find(s, COLON, 0);
    if s == "" || j == |s| then {} else {s[..j]} + Segments(s[j + 1..])
  }

  /** The names that a list stands for. */
  ghost function Names(screens: string): set<string> {
    if screens == "" then {} else if screens[0] == '*' then {ALL} else Segments(screens[1..])
  }

  /**
   * The names of a list that is given as a C string.  `inside` is false if the search for a
   * colon fails, where what the program does is undefined.
   */
  method Split(list: string) returns (inside: bool, dst: set<string>)
    ensures inside == Splittable(UpToNul(list)) && (inside ==> dst == Names(UpToNul(list)))
  {
    hide UpToNul, Segments;
    var screens := UpToNul(list);
    inside, dst := true, {};
    if screens == "" {
      return;
    }
    if screens[0] == '*' {
      return true, {ALL};
    }
    inside, dst := SplitNames(screens);
  }

  method SplitNames(screens: string) returns (inside: bool, dst: set<string>)
    requires screens != "" && screens[0] != '*'
    ensures inside == Splittable(screens) && (inside ==> dst == Segments(screens[1..]))
  {
    hide Find, Segments;
    inside, dst := true, {};
    var i := 1;
    ghost var all := Segments(screens[1..]);
    ghost var rest := all;
    while i < |screens|
      invariant 1 <= i <= |screens| && (i == |screens| ==> Splittable(screens))
      invariant rest == Segments(screens[i..]) && all == dst + rest
    {
      var j := Find(screens, COLON, i);
      NextSegment(screens, i, j);
      if j == |screens| {
        return false, {};
      }
      rest := Segments(screens[j + 1..]);
      dst := dst + {screens[i..j]};
      i := j + 1;
    }
    NoSegments(screens);
  }

  lemma NoSegments(screens: string)
    ensures Segments(screens[|screens|..]) == {}
  {
  }

  lemma NextSegment(screens: string, i: nat, j: nat)
    requires 0 < i < |screens| && j == Find(screens, COLON, i)
    ensures j == |screens| ==> screens[|screens| - 1] != COLON
    ensures j < |screens| ==>
              && Segments(screens[i..]) == {screens[i..j]} + Segments(screens[j + 1..])
              && (j + 1 == |screens| ==> screens[|screens| - 1] == COLON)
  {
    if j < |screens| {
      FindIs(screens[i..], COLON, 0, j - i);
      assert screens[i..][j - i + 1..] == screens[j + 1..] && screens[i..][..j - i] == screens[i..j];
    }
  }

  lemma {:induction false} SegmentsOfTagged(names: seq<string>)
    requires AllClean(names)
    ensures Segments(Tagged(names)) == set n | n in names
  {
    if names != [] {
      var s, n := Tagged(names), names[0];
      assert s == n + ([COLON] + Tagged(names[1..]));
      FindIs(s, COLON, 0, |n|);
      assert s[..|n|] == n && s[|n| + 1..] == Tagged(names[1..]);
      SegmentsOfTagged(names[1..]);
      assert forall m :: m in names <==> m == n || m in names[1..];
    }
  }

  /** Splitting undoes joining. */
  method JoinAndSplit(names: seq<string>) returns (dst: set<string>)
    requires AllClean(names)
    ensures dst == if ALL in names then {ALL} else set n | n in names
  {
    var screens := Join(names);
    JoinedIsClean(names);
    if names != [] && ALL !in names {
      TaggedEnds(names);
      SegmentsOfTagged(names);
      assert screens[1..] == Tagged(names);
    }
    var inside;
    inside, dst := Split(screens);
  }

  lemma {:induction false} TaggedIsClean(names: seq<string>)
    requires AllClean(names)
    ensures '\0' !in Tagged(names)
  {
    if names != [] {
      TaggedIsClean(names[1..]);
      assert Clean(names[0]);
    }
  }

  lemma JoinedIsClean(names: seq<string>)
    requires AllClean(names)
    ensures '\0' !in Joined(names)
  {
    TaggedIsClean(names);
  }

  lemma {:induction false} TaggedEnds(names: seq<string>)
    requires names != []
    ensures Tagged(names) != "" && Tagged(names)[|Tagged(names)| - 1] == COLON
  {
    if |names| > 1 {
      TaggedEnds(names[1..]);
    } else {
      assert Tagged(names[1..]) == "";
    }
  }
}
