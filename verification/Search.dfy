/** Searching a string for one character, as std::string::find and strchr do. */
module Search {

  /** The first place at or after `from`; the length of the string stands for npos. */
  function Find<T(==)>(s: seq<T>, c: T, from: nat): (r: nat)
    requires from <= |s|
    ensures from <= r <= |s|
    ensures r < |s| ==> s[r] == c
    ensures forall k :: from <= k < r ==> s[k] != c
    decreases |s| - from
  {
    if from == |s| || s[from] == c then from else Find(s, c, from + 1)
  }

  /** Only the first occurrence has these properties. */
  lemma FindIs<T>(s: seq<T>, c: T, from: nat, r: nat)
    requires from <= r <= |s|
    requires r < |s| ==> s[r] == c
    requires forall k :: from <= k < r ==> s[k] != c
    ensures Find(s, c, from) == r
  {
  }

  lemma FindSkips<T>(s: seq<T>, c: T, from: nat, to: nat)
    requires from <= to <= |s| && forall k :: from <= k < to ==> s[k] != c
    ensures Find(s, c, from) == Find(s, c, to)
  {
    FindIs(s, c, from, Find(s, c, to));
  }

  /** The two parts of a slice. */
  lemma SliceOfTwo<T>(s: seq<T>, start: nat, a: seq<T>, b: seq<T>)
    requires start + |a| + |b| <= |s| && s[start..start + |a| + |b|] == a + b
    ensures s[start..start + |a|] == a && s[start + |a|..start + |a| + |b|] == b
  {
    var t := s[start..start + |a| + |b|];
    assert t[..|a|] == a && t[|a|..] == b;
  }

  /** A slice that lies in the second part. */
  lemma SliceOfSecond<T>(a: seq<T>, b: seq<T>, i: nat, n: nat)
    requires |a| <= i && i + n <= |a| + |b|
    ensures (a + b)[i..i + n] == b[i - |a|..i - |a| + n]
  {
    assert (a + b)[|a|..] == b;
  }

  /** The two parts of a suffix. */
  lemma SuffixOfTwo<T>(s: seq<T>, start: nat, a: seq<T>, b: seq<T>)
    requires start <= |s| && s[start..] == a + b
    ensures start + |a| <= |s| && s[start..start + |a|] == a && s[start + |a|..] == b
  {
    var t := s[start..];
    assert t[..|a|] == a && t[|a|..] == b;
  }
}
