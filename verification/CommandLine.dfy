/** ArgParser's assembling of arguments into a command line and splitting it again. */
module CommandLine {
  import opened Search

  const QUOTE := '"'
  const SPACE := ' '

  /** The next two double quotes, or (0, 0). */
  function SearchDoubleQuotes(command: string, start: nat): (r: (nat, nat))
    requires start <= |command|
    ensures r.0 <= r.1 && (r.1 < |command| || r.1 == 0)
    ensures r.1 != 0 ==> start <= r.0 < r.1 < |command| && command[r.0] == QUOTE && command[r.1] == QUOTE
  {
    var left := Find(command, QUOTE, start);
    if left == |command| then (0, 0)
    else
      var right := Find(command, QUOTE, left + 1);
      if right == |command| then (0, 0) else (left, right)
  }

  /** Takes off the double quotes around an argument. */
  function RemoveDoubleQuotes(arg: string): string {
    if arg != "" && arg[0] == QUOTE && arg[|arg| - 1] == QUOTE then
      if |arg| == 1 then "" else arg[1..|arg| - 1]
    else arg
  }

  /** What splitting still yields with the quote window, the argument's start and the next space. */
  function SplitFrom(command: string, left: nat, right: nat, start: nat, space: nat): seq<string>
    requires start <= space <= |command| && left <= right < |command|
    decreases |command| - space
  {
    if space == |command| then [RemoveDoubleQuotes(command[start..])]
    else if left < space < right then SplitFrom(command, left, right, start, Find(command, SPACE, right + 1))
    else
      var (l, r) := if space > right then SearchDoubleQuotes(command, right + 1) else (left, right);
      [RemoveDoubleQuotes(command[start..space])] + SplitFrom(command, l, r, space + 1, Find(command, SPACE, space + 1))
  }

  function Split(command: string): seq<string> {
    if command == "" then []
    else
      var (left, right) := SearchDoubleQuotes(command, 0);
      SplitFrom(command, left, right, 0, Find(command, SPACE, 0))
  }

  lemma SplitStep(command: string, left: nat, right: nat, start: nat, space: nat)
    requires start <= space < |command| && left <= right < |command|
    ensures left < space < right ==>
              SplitFrom(command, left, right, start, space)
              == SplitFrom(command, left, right, start, Find(command, SPACE, right + 1))
    ensures !(left < space < right) ==>
              var (l, r) := if space > right then SearchDoubleQuotes(command, right + 1) else (left, right);
              SplitFrom(command, left, right, start, space)
              == [RemoveDoubleQuotes(command[start..space])]
                 + SplitFrom(command, l, r, space + 1, Find(command, SPACE, space + 1))
  {
  }

  method SplitCommandString(command: string) returns (argv: seq<string>)
    ensures argv == Split(command)
  {
    hide Find, SearchDoubleQuotes, RemoveDoubleQuotes, SplitFrom;
    argv := [];
    if command == "" {
      return;
    }
    var first := SearchDoubleQuotes(command, 0);
    var left: nat, right: nat := first.0, first.1;
    var startPos: nat := 0;
    var space: nat := Find(command, SPACE, startPos);
    while space != |command|
      invariant 0 <= startPos <= space <= |command| && left <= right < |command|
      invariant Split(command) == argv + SplitFrom(command, left, right, startPos, space)
      decreases |command| - space
    {
      SplitStep(command, left, right, startPos, space);
      var ignoreThisSpace := false;
      if space > left && space < right {
        ignoreThisSpace := true;
      } else if space > right {
        var next := SearchDoubleQuotes(command, right + 1);
        left, right := next.0, next.1;
      }
      if !ignoreThisSpace {
        argv := argv + [RemoveDoubleQuotes(command[startPos..space])];
      }
      if ignoreThisSpace {
        space := Find(command, SPACE, right + 1);
      } else {
        startPos := space + 1;
        space := Find(command, SPACE, startPos);
      }
    }
    SplitEnd(command, left, right, startPos);
    argv := argv + [RemoveDoubleQuotes(command[startPos..])];
  }

  lemma SplitEnd(command: string, left: nat, right: nat, start: nat)
    requires start <= |command| && left <= right < |command|
    ensures SplitFrom(command, left, right, start, |command|) == [RemoveDoubleQuotes(command[start..])]
  {
  }

  // ---------------------------------------------------------------- assembling

  function Quoted(arg: string): string {
    if SPACE in arg then [QUOTE] + arg + [QUOTE] else arg
  }

  /** The arguments with spaces between, each in quotes if it contains a space. */
  function Join(args: seq<string>): string {
    if args == [] then ""
    else if |args| == 1 then Quoted(args[0])
    else Quoted(args[0]) + [SPACE] + Join(args[1..])
  }

  /** An ignored argument is always followed by its parameters. */
  predicate Complete(args: seq<string>, ignored: string, parameters: nat)
    decreases |args|
  {
    args == [] ||
    if args[0] == ignored then
      1 + parameters <= |args| && Complete(args[1 + parameters..], ignored, parameters)
    else Complete(args[1..], ignored, parameters)
  }

  /** The arguments that are kept: without `ignored` and the parameters that follow it. */
  function Kept(args: seq<string>, ignored: string, parameters: nat): seq<string>
    requires Complete(args, ignored, parameters)
    decreases |args|
  {
    if args == [] then []
    else if args[0] == ignored then Kept(args[1 + parameters..], ignored, parameters)
    else [args[0]] + Kept(args[1..], ignored, parameters)
  }

  /** The arguments as the call leaves them: those that are kept are quoted in place. */
  function Edited(args: seq<string>, ignored: string, parameters: nat): (r: seq<string>)
    requires Complete(args, ignored, parameters)
    ensures |r| == |args|
    decreases |args|
  {
    if args == [] then []
    else if args[0] == ignored then args[..1 + parameters] + Edited(args[1 + parameters..], ignored, parameters)
    else [Quoted(args[0])] + Edited(args[1..], ignored, parameters)
  }

  function Spaced(args: seq<string>): string {
    if args == [] then "" else Quoted(args[0]) + [SPACE] + Spaced(args[1..])
  }

  lemma {:induction false} SpacedIsJoin(args: seq<string>)
    ensures if args == [] then Spaced(args) == "" else Spaced(args) == Join(args) + [SPACE]
  {
    if |args| == 1 {
      assert Spaced(args[1..]) == "";
    } else if args != [] {
      SpacedIsJoin(args[1..]);
    }
  }

  /** Taking the last space off gives the joined arguments. */
  lemma SpacedTrimmed(args: seq<string>)
    ensures Join(args) == if Spaced(args) == "" then "" else Spaced(args)[..|Spaced(args)| - 1]
  {
    SpacedIsJoin(args);
  }

  /** The loop passes over an ignored argument, with `done` behind it and `rest` before it. */
  lemma IgnoreStep(done: seq<string>, rest: seq<string>, ignored: string, parameters: nat)
    requires rest != [] && rest[0] == ignored
    ensures var k := 1 + parameters;
            && (Complete(rest, ignored, parameters) <==> k <= |rest| && Complete(rest[k..], ignored, parameters))
            && (k <= |rest| ==> done + rest == done + rest[..k] + rest[k..])
            && (Complete(rest, ignored, parameters) ==>
                  && done + Edited(rest, ignored, parameters)
                     == done + rest[..k] + Edited(rest[k..], ignored, parameters)
                  && Kept(rest, ignored, parameters) == Kept(rest[k..], ignored, parameters))
  {
  }

  /** The loop keeps an argument. */
  lemma KeepStep(done: seq<string>, rest: seq<string>, result: string, ignored: string, parameters: nat)
    requires rest != [] && rest[0] != ignored
    ensures var arg := Quoted(rest[0]);
            && (Complete(rest, ignored, parameters) <==> Complete(rest[1..], ignored, parameters))
            && (done + rest)[|done| := arg] == done + [arg] + rest[1..]
            && (Complete(rest, ignored, parameters) ==>
                  && done + Edited(rest, ignored, parameters) == done + [arg] + Edited(rest[1..], ignored, parameters)
                  && result + Spaced(Kept(rest, ignored, parameters))
                     == result + arg + [SPACE] + Spaced(Kept(rest[1..], ignored, parameters)))
  {
    hide Quoted, Spaced, Edited, Complete, Kept;
    KeepOne(rest, ignored, parameters);
    if Complete(rest, ignored, parameters) {
      SpacedPrepend(result, rest[0], Kept(rest[1..], ignored, parameters));
    }
  }

  lemma KeepOne(rest: seq<string>, ignored: string, parameters: nat)
    requires rest != [] && rest[0] != ignored
    ensures Complete(rest, ignored, parameters) <==> Complete(rest[1..], ignored, parameters)
    ensures Complete(rest, ignored, parameters) ==>
              && Edited(rest, ignored, parameters) == [Quoted(rest[0])] + Edited(rest[1..], ignored, parameters)
              && Kept(rest, ignored, parameters) == [rest[0]] + Kept(rest[1..], ignored, parameters)
  {
    hide Quoted;
  }

  lemma SpacedPrepend(result: string, arg: string, args: seq<string>)
    ensures result + Spaced([arg] + args) == result + Quoted(arg) + [SPACE] + Spaced(args)
  {
    hide Quoted;
    assert ([arg] + args)[1..] == args;
  }

  lemma AssembleNothing(ignored: string, parameters: nat)
    ensures Complete([], ignored, parameters) && Edited([], ignored, parameters) == []
    ensures Spaced(Kept([], ignored, parameters)) == ""
  {
  }

  /**
   * `inside` is false if the iterator is moved past the end of the list, where what the program
   * does is undefined; that is exactly if parameters of an ignored argument are missing.
   */
  method AssembleCommand(args: array<string>, ignored: string, parameters: nat) returns (inside: bool, result: string)
    modifies args
    ensures inside == Complete(old(args[..]), ignored, parameters)
    ensures inside ==>
              && result == Join(Kept(old(args[..]), ignored, parameters))
              && args[..] == Edited(old(args[..]), ignored, parameters)
  {
    hide Join, Quoted, Complete, Edited, Kept, Spaced;
    result := "";
    ghost var args0 := args[..];
    ghost var done: seq<string>, rest := [], args0;
    var i := 0;
    while i < args.Length
      invariant 0 <= i <= args.Length && |done| == i && args[..] == done + rest
      invariant Complete(args0, ignored, parameters) == Complete(rest, ignored, parameters)
      invariant Complete(rest, ignored, parameters) ==>
                  && Edited(args0, ignored, parameters) == done + Edited(rest, ignored, parameters)
                  && Spaced(Kept(args0, ignored, parameters)) == result + Spaced(Kept(rest, ignored, parameters))
    {
      assert args[i] == args[..][i] == rest[0];
      if args[i] == ignored {
        IgnoreStep(done, rest, ignored, parameters);
        if args.Length - i < 1 + parameters {
          return false, result;
        }
        done, rest := done + rest[..1 + parameters], rest[1 + parameters..];
        i := i + parameters + 1;
      } else {
        KeepStep(done, rest, result, ignored, parameters);
        var arg := Requoted(args[i]);
        args[i] := arg;
        assert args[..] == (done + rest)[|done| := arg];
        result := result + arg;
        result := result + [SPACE];
        done, rest := done + [arg], rest[1..];
        i := i + 1;
      }
    }
    inside := true;
    AssembleNothing(ignored, parameters);
    SpacedTrimmed(Kept(args0, ignored, parameters));
    if result != "" {
      result := result[..|result| - 1];
    }
  }

  /** Puts quotes around an argument that contains a space. */
  method Requoted(arg: string) returns (r: string)
    ensures r == Quoted(arg)
  {
    r := arg;
    if Find(arg, SPACE, 0) != |arg| {
      r := [QUOTE] + r;
      r := r + [QUOTE];
    }
  }

  // ---------------------------------------------------------------- the round trip

  /** Arguments that the quoting can carry; an empty one counts among them. */
  predicate Plain(arg: string) {
    QUOTE !in arg
  }

  ghost predicate AllPlain(args: seq<string>) {
    forall i :: 0 <= i < |args| ==> Plain(args[i])
  }

  ghost predicate NoQuote(s: string, from: nat) {
    forall k :: from <= k < |s| ==> s[k] != QUOTE
  }

  /**
   * The quote window at the start of an argument: the next pair of quotes if there is one, and
   * else a window that lies before the argument.
   */
  ghost predicate Window(command: string, start: nat, left: nat, right: nat)
    requires start <= |command|
  {
    var next := SearchDoubleQuotes(command, start);
    if next.1 != 0 then left == next.0 && right == next.1
    else NoQuote(command, start) && left <= right && (right < start || right == 0)
  }

  lemma SearchSkips(command: string, from: nat, to: nat)
    requires from <= to <= |command| && forall k :: from <= k < to ==> command[k] != QUOTE
    ensures SearchDoubleQuotes(command, from) == SearchDoubleQuotes(command, to)
    ensures NoQuote(command, to) ==> NoQuote(command, from)
  {
    FindSkips(command, QUOTE, from, to);
  }

  /** Where the first argument of `Join(args)` lies in the command. */
  lemma HeadOfJoin(command: string, start: nat, args: seq<string>)
    requires start <= |command| && args != [] && command[start..] == Join(args)
    ensures var end := start + |Quoted(args[0])|;
            && end <= |command| && command[start..end] == Quoted(args[0])
            && if |args| == 1 then end == |command|
               else end < |command| && command[end] == SPACE && command[end + 1..] == Join(args[1..])
  {
    var q := Quoted(args[0]);
    assert command[start..start + |q|] == Join(args)[..|q|];
    if |args| > 1 {
      var end := start + |q|;
      assert command[end] == Join(args)[|q|];
      assert command[end + 1..] == Join(args)[|q| + 1..];
    }
  }

  /** From `start` on there is a pair of quotes, or no quote at all. */
  ghost predicate Paired(command: string, start: nat)
    requires start <= |command|
  {
    SearchDoubleQuotes(command, start).1 != 0 || NoQuote(command, start)
  }

  /** There is no quote between two places. */
  ghost predicate Bare(command: string, from: nat, to: nat) {
    from <= to <= |command| && forall k :: from <= k < to ==> command[k] != QUOTE
  }

  lemma PairedSkips(command: string, from: nat, to: nat)
    requires Bare(command, from, to)
    requires to == |command| || Paired(command, to)
    ensures Paired(command, from)
  {
    SearchSkips(command, from, to);
  }

  lemma {:induction false} QuotesComeInPairs(command: string, start: nat, args: seq<string>)
    requires start <= |command| && command[start..] == Join(args)
    requires AllPlain(args)
    ensures Paired(command, start)
    decreases |args|
  {
    if args == [] {
      PairedSkips(command, start, start);
    } else {
      hide Paired, Join, Quoted, Bare;
      HeadOfJoin(command, start, args);
      var a, end := args[0], start + |Quoted(args[0])|;
      if SPACE in a {
        PairedHere(command, start, a);
      } else {
        NotQuoted(command, start, a);
        if |args| == 1 {
          PairedSkips(command, start, end);
        } else {
          QuotesComeInPairs(command, end + 1, args[1..]);
          PairedSkips(command, start, end + 1);
        }
      }
    }
  }

  lemma PairedHere(command: string, start: nat, a: string)
    requires Plain(a) && SPACE in a
    requires start + |Quoted(a)| <= |command| && command[start..start + |Quoted(a)|] == Quoted(a)
    ensures Paired(command, start)
  {
    hide Find, SearchDoubleQuotes;
    QuotedPair(command, start, a);
  }

  lemma NotQuoted(command: string, start: nat, a: string)
    requires Plain(a) && SPACE !in a
    requires start + |Quoted(a)| <= |command| && command[start..start + |Quoted(a)|] == Quoted(a)
    ensures var end := start + |Quoted(a)|;
            Bare(command, start, end) && (end < |command| && command[end] == SPACE ==> Bare(command, start, end + 1))
  {
    BareWord(command, start, a);
  }

  lemma BareWord(command: string, start: nat, a: string)
    requires Plain(a) && SPACE !in a
    requires start + |a| <= |command| && command[start..start + |a|] == a
    ensures forall k :: start <= k < start + |a| ==> command[k] != QUOTE && command[k] != SPACE
  {
    assert forall k :: start <= k < start + |a| ==> command[k] == a[k - start];
  }

  /** A quoted argument is its own quote window, and its first space is inside. */
  lemma QuotedPair(command: string, start: nat, a: string)
    requires Plain(a) && SPACE in a
    requires start + |a| + 2 <= |command| && command[start..start + |a| + 2] == [QUOTE] + a + [QUOTE]
    ensures SearchDoubleQuotes(command, start) == (start, start + |a| + 1)
    ensures start < Find(command, SPACE, start) < start + |a| + 1
  {
    var q := [QUOTE] + a + [QUOTE];
    assert forall k :: 0 <= k < |q| ==> command[start + k] == q[k];
    assert forall k :: start < k < start + |a| + 1 ==> command[k] == a[k - start - 1];
    FindIs(command, QUOTE, start, start);
    FindIs(command, QUOTE, start + 1, start + |a| + 1);
    var k :| 0 <= k < |a| && a[k] == SPACE;
    assert command[start + 1 + k] == SPACE;
  }

  lemma Unquoted(a: string)
    requires Plain(a)
    ensures RemoveDoubleQuotes(Quoted(a)) == a
  {
    if SPACE in a {
      var q := [QUOTE] + a + [QUOTE];
      assert q[1..|q| - 1] == a;
    } else if a != "" {
      assert a[0] in a;
    }
  }

  /** The window after the separator at `end`, as the splitting loop leaves it. */
  lemma WindowMovesOn(command: string, start: nat, args: seq<string>, left: nat, right: nat, end: nat)
    requires |args| > 1 && AllPlain(args)
    requires start <= end < |command| && end == start + |Quoted(args[0])|
    requires command[start..end] == Quoted(args[0]) && command[end] == SPACE && command[end + 1..] == Join(args[1..])
    requires left <= right < |command| && Window(command, start, left, right)
    ensures !(left < end < right)
    ensures var next := if end > right then SearchDoubleQuotes(command, right + 1) else (left, right);
            next.0 <= next.1 < |command| && Window(command, end + 1, next.0, next.1)
  {
    hide Find, SearchDoubleQuotes, Join;
    var a := args[0];
    QuotesComeInPairs(command, end + 1, args[1..]);
    if SPACE in a {
      QuotedPair(command, start, a);
      SearchSkips(command, end, end + 1);
    } else {
      BareWord(command, start, a);
      SearchSkips(command, start, end + 1);
    }
  }

  /** The loop comes to the end of an argument, passing over the spaces in it. */
  lemma SplitReachesEnd(command: string, start: nat, a: string, left: nat, right: nat)
    requires Plain(a)
    requires start <= |command| && left <= right < |command| && Window(command, start, left, right)
    requires var end := start + |Quoted(a)|;
             end <= |command| && command[start..end] == Quoted(a) && (end < |command| ==> command[end] == SPACE)
    ensures SplitFrom(command, left, right, start, Find(command, SPACE, start))
            == SplitFrom(command, left, right, start, start + |Quoted(a)|)
  {
    hide Find, SearchDoubleQuotes, SplitFrom;
    var end := start + |Quoted(a)|;
    if SPACE in a {
      QuotedPair(command, start, a);
      SplitStep(command, left, right, start, Find(command, SPACE, start));
      FindIs(command, SPACE, end, end);
    } else {
      BareWord(command, start, a);
      FindIs(command, SPACE, start, end);
    }
  }

  /** Splitting from the start of any argument yields that argument and all that follow. */
  lemma {:induction false} SplitJoined(command: string, start: nat, args: seq<string>, left: nat, right: nat)
    requires args != [] && AllPlain(args)
    requires start <= |command| && command[start..] == Join(args)
    requires left <= right < |command| && Window(command, start, left, right)
    ensures SplitFrom(command, left, right, start, Find(command, SPACE, start)) == args
    decreases |args|
  {
    hide Find, SearchDoubleQuotes, SplitFrom, Join, RemoveDoubleQuotes, Quoted, Window;
    HeadOfJoin(command, start, args);
    var a, end := args[0], start + |Quoted(args[0])|;
    Unquoted(a);
    SplitReachesEnd(command, start, a, left, right);
    if |args| == 1 {
      SplitEnd(command, left, right, start);
      assert command[start..] == command[start..end];
    } else {
      WindowMovesOn(command, start, args, left, right, end);
      SplitStep(command, left, right, start, end);
      var next := if end > right then SearchDoubleQuotes(command, right + 1) else (left, right);
      SplitJoined(command, end + 1, args[1..], next.0, next.1);
      assert args == [a] + args[1..];
    }
  }

  /**
   * Splitting an assembled command returns its arguments, empty ones included, as long as none
   * has a quote in it; the one exception is a single empty argument.
   */
  lemma RoundTrip(args: seq<string>)
    requires AllPlain(args)
    ensures Split(Join(args)) == args <==> args != [""]
    ensures args == [""] ==> Split(Join(args)) == []
  {
    if args != [] && args != [""] {
      hide Find, SearchDoubleQuotes, SplitFrom;
      var command := Join(args);
      JoinedIsNotEmpty(args);
      assert command[0..] == command;
      var first := SearchDoubleQuotes(command, 0);
      QuotesComeInPairs(command, 0, args);
      SplitJoined(command, 0, args, first.0, first.1);
    }
  }

  lemma JoinedIsNotEmpty(args: seq<string>)
    requires args != [] && args != [""]
    ensures Join(args) != ""
  {
    if |args| == 1 {
      assert args == [args[0]];
    }
  }

  /** Without the ignored argument everything is kept and quoted in place. */
  lemma {:induction false} AllKept(args: seq<string>, ignored: string, parameters: nat)
    requires ignored !in args
    ensures Complete(args, ignored, parameters) && Kept(args, ignored, parameters) == args
    ensures forall i :: 0 <= i < |args| ==> Edited(args, ignored, parameters)[i] == Quoted(args[i])
  {
    hide Quoted;
    if args != [] {
      AllKept(args[1..], ignored, parameters);
      assert args == [args[0]] + args[1..];
    }
  }

  /** The ignored argument goes with its parameters, whatever they are, and the rest is judged anew. */
  lemma {:induction false} IgnoredGoes(before: seq<string>, ignored: string, values: seq<string>, rest: seq<string>)
    requires ignored !in before
    ensures var args, n := before + [ignored] + values + rest, |values|;
            && (Complete(args, ignored, n) <==> Complete(rest, ignored, n))
            && (Complete(rest, ignored, n) ==> Kept(args, ignored, n) == before + Kept(rest, ignored, n))
  {
    var args, n := before + [ignored] + values + rest, |values|;
    if before == [] {
      assert args[0] == ignored && args[1 + n..] == rest;
    } else {
      IgnoredGoes(before[1..], ignored, values, rest);
      assert args[0] == before[0] != ignored;
      assert args[1..] == before[1..] + [ignored] + values + rest;
      assert Complete(rest, ignored, n) ==>
          [before[0]] + (before[1..] + Kept(rest, ignored, n)) == before + Kept(rest, ignored, n);
    }
  }

  /** A command as text. */
  lemma CommandAsText()
    ensures Join(["a b", "c"]) == "\"a b\" c"
  {
    var args := ["a b", "c"];
    assert args[1..] == ["c"];
    assert "a b"[1] == SPACE;
    assert SPACE !in "c";
  }

  lemma {:induction false} KeptArePlain(args: seq<string>, ignored: string, parameters: nat)
    requires Complete(args, ignored, parameters) && AllPlain(args)
    ensures AllPlain(Kept(args, ignored, parameters))
    decreases |args|
  {
    if args != [] {
      if args[0] == ignored {
        KeptArePlain(args[1 + parameters..], ignored, parameters);
      } else {
        KeptArePlain(args[1..], ignored, parameters);
      }
    }
  }

  /**
   * Assembling in place and splitting returns what was kept, unless that is a single empty
   * argument, which is lost.
   */
  method AssembleAndSplit(args: array<string>, ignored: string, parameters: nat)
    returns (inside: bool, argv: seq<string>)
    modifies args
    ensures inside == Complete(old(args[..]), ignored, parameters)
    ensures inside && AllPlain(old(args[..])) ==>
              var kept := Kept(old(args[..]), ignored, parameters);
              argv == if kept == [""] then [] else kept
  {
    ghost var args0 := args[..];
    var command;
    inside, command := AssembleCommand(args, ignored, parameters);
    argv := SplitCommandString(command);
    if inside && AllPlain(args0) {
      KeptArePlain(args0, ignored, parameters);
      RoundTrip(Kept(args0, ignored, parameters));
    }
  }
}
