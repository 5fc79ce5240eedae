/** `seek_sequence`: finding a patch's context lines in a file, strictly at first and ever more leniently. */
module SeekSequence {
  import opened Wrappers
  import opened Text

  /** Typographic punctuation to its ASCII equivalent. */
  function Ascii(c: char): char {
    var n := c as int;
    if 0x2010 <= n <= 0x2015 || n == 0x2212 then '-'
    else if 0x2018 <= n <= 0x201B then '\''
    else if 0x201C <= n <= 0x201F then '"'
    else if n == 0xA0 || 0x2002 <= n <= 0x200A || n == 0x202F || n == 0x205F || n == 0x3000 then ' '
    else c
  }

  function Normalise(s: string): string {
    var t := Trim(s);
    seq(|t|, i requires 0 <= i < |t| => Ascii(t[i]))
  }

  /** The characters that read as a hyphen, an apostrophe, a quotation mark or a space; any other reads as itself. */
  lemma AsciiReads(c: char)
    ensures var dashes := {'-', '\U{2010}', '\U{2011}', '\U{2012}', '\U{2013}', '\U{2014}', '\U{2015}', '\U{2212}'};
            var apostrophes := {'\'', '\U{2018}', '\U{2019}', '\U{201A}', '\U{201B}'};
            var quotes := {'"', '\U{201C}', '\U{201D}', '\U{201E}', '\U{201F}'};
            var spaces := {' ', '\U{A0}', '\U{2002}', '\U{2003}', '\U{2004}', '\U{2005}', '\U{2006}', '\U{2007}', '\U{2008}',
                           '\U{2009}', '\U{200A}', '\U{202F}', '\U{205F}', '\U{3000}'};
            && (Ascii(c) == '-' <==> c in dashes) && (Ascii(c) == '\'' <==> c in apostrophes)
            && (Ascii(c) == '"' <==> c in quotes) && (Ascii(c) == ' ' <==> c in spaces)
            && (Ascii(c) == c || c in dashes + apostrophes + quotes + spaces)
  {
  }

  /** Normalising keeps the length of the trimmed line, and changes each character by itself. */
  lemma NormaliseReads(s: string)
    ensures |Normalise(s)| == |Trim(s)| && forall i :: 0 <= i < |Trim(s)| ==> Normalise(s)[i] == Ascii(Trim(s)[i])
  {
  }

  datatype Level = Exact | IgnoringEnd | IgnoringBoth | Normalised
  {
    function Rank(): nat {
      match this
      case Exact => 0
      case IgnoringEnd => 1
      case IgnoringBoth => 2
      case Normalised => 3
    }
  }

  predicate Same(level: Level, a: string, b: string) {
    match level
    case Exact => a == b
    case IgnoringEnd => TrimEnd(a) == TrimEnd(b)
    case IgnoringBoth => Trim(a) == Trim(b)
    case Normalised => Normalise(a) == Normalise(b)
  }

  /** What is the same at one level is the same at every more lenient one. */
  lemma LevelsNest(strict: Level, lenient: Level, a: string, b: string)
    requires strict.Rank() <= lenient.Rank() && Same(strict, a, b)
    ensures Same(lenient, a, b)
  {
  }

  /** Lines are the same at the second level if they differ in whitespace behind them only ... */
  lemma SameButForTheEnd(a: string, b: string)
    ensures Same(IgnoringEnd, a, b) <==>
              exists core, u, v :: a == core + u && b == core + v && AllWhitespace(u) && AllWhitespace(v)
  {
    hide TrimEnd;
    TrimEndSplits(a);
    TrimEndSplits(b);
    if core, u, v :| a == core + u && b == core + v && AllWhitespace(u) && AllWhitespace(v) {
      TrailingWhitespace(core, u);
      TrailingWhitespace(core, v);
    }
  }

  lemma TrimEndSplits(s: string)
    ensures exists u :: s == TrimEnd(s) + u && AllWhitespace(u)
  {
    var n := EndIndex(s, |s|);
    assert s == s[..n] + s[n..] && AllWhitespace(s[n..]);
  }

  lemma {:induction false} TrailingWhitespace(core: string, u: string)
    requires AllWhitespace(u)
    ensures TrimEnd(core + u) == TrimEnd(core)
  {
    var s := core + u;
    EndBehind(s, |core|, |s|);
    EndInside(s, core, |core|);
  }

  lemma {:induction false} EndBehind(s: string, n: nat, m: nat)
    requires n <= m <= |s| && forall i :: n <= i < m ==> IsWhitespace(s[i])
    ensures EndIndex(s, m) == EndIndex(s, n)
  {
    if n < m { EndBehind(s, n, m - 1); }
  }

  lemma {:induction false} EndInside(s: string, core: string, n: nat)
    requires n <= |core| <= |s| && core == s[..|core|]
    ensures EndIndex(s, n) == EndIndex(core, n)
  {
    if n > 0 { EndInside(s, core, n - 1); }
  }

  /** ... and at the third if they differ in whitespace before or behind them only. */
  lemma SameButForTheEnds(a: string, b: string)
    ensures Same(IgnoringBoth, a, b) <==>
              exists core, l, m, r, s :: Surrounded(a, l, core, r) && Surrounded(b, m, core, s)
  {
    hide Trim;
    var p, u := TrimSplits(a);
    var q, v := TrimSplits(b);
    if Trim(a) == Trim(b) {
      assert Surrounded(a, p, Trim(a), u) && Surrounded(b, q, Trim(a), v);
    }
    if core, l, m, r, s :| Surrounded(a, l, core, r) && Surrounded(b, m, core, s) {
      WhitespaceAround(l, core, r);
      WhitespaceAround(m, core, s);
    }
  }

  predicate Surrounded(s: string, left: string, core: string, right: string) {
    s == left + core + right && AllWhitespace(left) && AllWhitespace(right)
  }

  lemma WhitespaceAround(p: string, core: string, u: string)
    requires AllWhitespace(p) && AllWhitespace(u)
    ensures Trim(p + core + u) == Trim(core)
  {
    assert p + core + u == p + (core + u);
    LeadingWhitespaceIsTrimmed(p, core + u);
    TrailingWhitespace(core, u);
  }

  predicate MatchesAt(level: Level, lines: seq<string>, pattern: seq<string>, i: nat) {
    i + |pattern| <= |lines| && forall k :: 0 <= k < |pattern| ==> Same(level, lines[i + k], pattern[k])
  }

  /** Where the search begins: at the last possible place for a pattern meant for the end of the file. */
  function SearchStart(lines: seq<string>, pattern: seq<string>, start: nat, eof: bool): nat
    requires |pattern| <= |lines|
  {
    if eof then |lines| - |pattern| else start
  }

  /** `i` is the first match of its level, and no stricter level matches anywhere in the window. */
  ghost predicate First(level: Level, lines: seq<string>, pattern: seq<string>, from: nat, i: nat) {
    && from <= i && MatchesAt(level, lines, pattern, i)
    && (forall j :: from <= j < i ==> !MatchesAt(level, lines, pattern, j))
    && (forall l: Level, j: nat :: l.Rank() < level.Rank() && from <= j ==> !MatchesAt(l, lines, pattern, j))
  }

  /** What the search promises. */
  ghost predicate Finds(lines: seq<string>, pattern: seq<string>, start: nat, eof: bool, r: Option<nat>) {
    if pattern == [] then r == Some(start)
    else if |pattern| > |lines| then r == None
    else
      var from := SearchStart(lines, pattern, start, eof);
      match r
      case Some(i) => exists level: Level :: First(level, lines, pattern, from, i)
      case None => forall level: Level, j: nat :: from <= j ==> !MatchesAt(level, lines, pattern, j)
  }

  method SeekSequence(lines: seq<string>, pattern: seq<string>, start: nat, eof: bool) returns (r: Option<nat>)
    ensures Finds(lines, pattern, start, eof, r)
  {
    if pattern == [] { return Some(start); }
    if |pattern| > |lines| { return None; }
    var searchStart := if eof && |lines| >= |pattern| then |lines| - |pattern| else start;
    r := SeekExactly(lines, pattern, searchStart);
    if r.Some? {
      assert First(Exact, lines, pattern, searchStart, r.value);
      return;
    }
    r := SeekLeniently(IgnoringEnd, lines, pattern, searchStart);
    if r.Some? {
      assert First(IgnoringEnd, lines, pattern, searchStart, r.value);
      return;
    }
    r := SeekLeniently(IgnoringBoth, lines, pattern, searchStart);
    if r.Some? {
      assert First(IgnoringBoth, lines, pattern, searchStart, r.value);
      return;
    }
    r := SeekLeniently(Normalised, lines, pattern, searchStart);
    if r.Some? {
      assert First(Normalised, lines, pattern, searchStart, r.value);
      return;
    }
    forall level: Level, j: nat | searchStart <= j ensures !MatchesAt(level, lines, pattern, j) {
      if j <= |lines| - |pattern| && MatchesAt(level, lines, pattern, j) {
        MatchesNest(level, Normalised, lines, pattern, j);
      }
    }
  }

  predicate FirstAt(level: Level, lines: seq<string>, pattern: seq<string>, from: nat, to: nat, r: Option<nat>) {
    match r
    case Some(i) => from <= i <= to && MatchesAt(level, lines, pattern, i) && forall j :: from <= j < i ==> !MatchesAt(level, lines, pattern, j)
    case None => forall j :: from <= j <= to ==> !MatchesAt(level, lines, pattern, j)
  }

  lemma SliceMatches(lines: seq<string>, pattern: seq<string>, i: nat)
    requires i + |pattern| <= |lines|
    ensures lines[i..i + |pattern|] == pattern <==> MatchesAt(Exact, lines, pattern, i)
  {
    var slice := lines[i..i + |pattern|];
    assert forall k: nat :: k < |slice| ==> slice[k] == lines[i + k];
  }

  /** The first pass compares slices ... */
  method SeekExactly(lines: seq<string>, pattern: seq<string>, from: nat) returns (r: Option<nat>)
    requires 0 < |pattern| <= |lines|
    ensures FirstAt(Exact, lines, pattern, from, |lines| - |pattern|, r)
  {
    var i: nat := from;
    while i <= |lines| - |pattern|
      invariant from <= i
      invariant forall j :: from <= j < i ==> !MatchesAt(Exact, lines, pattern, j)
    {
      SliceMatches(lines, pattern, i);
      if lines[i..i + |pattern|] == pattern {
        return Some(i);
      }
      i := i + 1;
    }
    return None;
  }

  /** ... the others line by line, up to the first difference. */
  method SeekLeniently(level: Level, lines: seq<string>, pattern: seq<string>, from: nat) returns (r: Option<nat>)
    requires 0 < |pattern| <= |lines|
    ensures FirstAt(level, lines, pattern, from, |lines| - |pattern|, r)
  {
    var i: nat := from;
    while i <= |lines| - |pattern|
      invariant from <= i
      invariant forall j :: from <= j < i ==> !MatchesAt(level, lines, pattern, j)
    {
      var ok := true;
      var k := 0;
      while k < |pattern|
        invariant 0 <= k <= |pattern|
        invariant ok ==> forall l :: 0 <= l < k ==> Same(level, lines[i + l], pattern[l])
        invariant !ok ==> !MatchesAt(level, lines, pattern, i)
      {
        if !Same(level, lines[i + k], pattern[k]) {
          ok := false;
          break;
        }
        k := k + 1;
      }
      if ok {
        return Some(i);
      }
      i := i + 1;
    }
    return None;
  }

  lemma MatchesNest(strict: Level, lenient: Level, lines: seq<string>, pattern: seq<string>, i: nat)
    requires strict.Rank() <= lenient.Rank() && MatchesAt(strict, lines, pattern, i)
    ensures MatchesAt(lenient, lines, pattern, i)
  {
    forall k | 0 <= k < |pattern| ensures Same(lenient, lines[i + k], pattern[k]) {
      LevelsNest(strict, lenient, lines[i + k], pattern[k]);
    }
  }

  /** The promise determines the answer; and there is none exactly when nothing matches even normalised. */
  lemma FindsOnce(lines: seq<string>, pattern: seq<string>, start: nat, eof: bool, r: Option<nat>, s: Option<nat>)
    requires Finds(lines, pattern, start, eof, r) && Finds(lines, pattern, start, eof, s)
    ensures r == s
    ensures 0 < |pattern| <= |lines| ==>
              (r == None <==>
                 forall j: nat :: SearchStart(lines, pattern, start, eof) <= j ==> !MatchesAt(Normalised, lines, pattern, j))
    ensures r.Some? && pattern != [] ==> r.value + |pattern| <= |lines|
  {
    if 0 < |pattern| <= |lines| {
      var from := SearchStart(lines, pattern, start, eof);
      if r.Some? && s.Some? {
        var l :| First(l, lines, pattern, from, r.value);
        var m :| First(m, lines, pattern, from, s.value);
        assert l.Rank() == m.Rank();
      }
      if r.Some? {
        var l :| First(l, lines, pattern, from, r.value);
        MatchesNest(l, Normalised, lines, pattern, r.value);
      }
    }
  }

  /** With `eof` only the very end of the file is looked at. */
  lemma EofLooksOnlyAtTheEnd(lines: seq<string>, pattern: seq<string>, start: nat, r: Option<nat>)
    requires 0 < |pattern| <= |lines| && Finds(lines, pattern, start, true, r)
    ensures r == if MatchesAt(Normalised, lines, pattern, |lines| - |pattern|) then Some(|lines| - |pattern|) else None
  {
    var end := |lines| - |pattern|;
    if r.Some? {
      var l :| First(l, lines, pattern, end, r.value);
      MatchesNest(l, Normalised, lines, pattern, r.value);
    }
  }

  /** What the comment above the function promises of `eof`: the end of the file first, then a second search from `start`. */
  ghost predicate Promised(lines: seq<string>, pattern: seq<string>, start: nat, r: Option<nat>) {
    if Finds(lines, pattern, start, true, None) then Finds(lines, pattern, start, false, r)
    else Finds(lines, pattern, start, true, r)
  }

  /** Exactly when the code keeps that promise: when the pattern matches at the end, or nowhere from `start` on, or is
      empty, or longer than the file. */
  lemma PromiseKept(lines: seq<string>, pattern: seq<string>, start: nat, r: Option<nat>)
    requires Finds(lines, pattern, start, true, r)
    ensures Promised(lines, pattern, start, r) <==>
              || pattern == [] || |pattern| > |lines|
              || MatchesAt(Normalised, lines, pattern, |lines| - |pattern|)
              || forall j: nat :: start <= j ==> !MatchesAt(Normalised, lines, pattern, j)
  {
    hide Finds, MatchesAt;
    if 0 < |pattern| <= |lines| {
      EofLooksOnlyAtTheEnd(lines, pattern, start, r);
      if Finds(lines, pattern, start, true, None) {
        FindsOnce(lines, pattern, start, true, r, None);
        if Finds(lines, pattern, start, false, None) {
          FindsOnce(lines, pattern, start, false, None, None);
        }
        if forall j: nat :: start <= j ==> !MatchesAt(Normalised, lines, pattern, j) {
          FindsNothing(lines, pattern, start);
        }
      }
    } else {
      Degenerate(lines, pattern, start, r);
    }
  }

  lemma FindsNothing(lines: seq<string>, pattern: seq<string>, start: nat)
    requires 0 < |pattern| <= |lines| && forall j: nat :: start <= j ==> !MatchesAt(Normalised, lines, pattern, j)
    ensures Finds(lines, pattern, start, false, None)
  {
    forall level: Level, j: nat | start <= j ensures !MatchesAt(level, lines, pattern, j) {
      if MatchesAt(level, lines, pattern, j) { MatchesNest(level, Normalised, lines, pattern, j); }
    }
  }

  lemma Degenerate(lines: seq<string>, pattern: seq<string>, start: nat, r: Option<nat>)
    requires pattern == [] || |pattern| > |lines|
    ensures Finds(lines, pattern, start, true, r) <==> Finds(lines, pattern, start, false, r)
    ensures Finds(lines, pattern, start, true, r) ==> Promised(lines, pattern, start, r)
  {
  }

  /** An input where it is broken: a match at `start` that the second search would find. */
  lemma NoSecondSearch()
    ensures var lines, pattern := ["a", "b"], ["a"];
            && Finds(lines, pattern, 0, true, None)
            && Finds(lines, pattern, 0, false, Some(0))
            && !Promised(lines, pattern, 0, None)
  {
    var lines, pattern := ["a", "b"], ["a"];
    Differ();
    forall level: Level, j: nat | 1 <= j ensures !MatchesAt(level, lines, pattern, j) {
      if j == 1 && MatchesAt(level, lines, pattern, j) {
        LevelsNest(level, Normalised, lines[1 + 0], pattern[0]);
      }
    }
    assert First(Exact, lines, pattern, 0, 0);
  }

  lemma Differ()
    ensures Normalise("b") == "b" && Normalise("a") == "a"
  {
    assert EndIndex("b", 1) == 1 && StartIndex("b", 0) == 0;
    assert EndIndex("a", 1) == 1 && StartIndex("a", 0) == 0;
    assert TrimEnd("b") == "b" && TrimEnd("a") == "a";
    assert Trim("b") == "b" && Trim("a") == "a";
  }
}
