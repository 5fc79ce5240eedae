/** The string operations the source takes from Rust's `str`: trimming, prefix
    stripping, splitting at '/', `replace`, and code-point order. */
module Text {
  /** The Unicode White_Space property, which `str::trim` strips. */
  predicate IsWhitespace(c: char) {
    var n := c as int;
    || 0x09 <= n <= 0x0D || n == 0x20 || n == 0x85 || n == 0xA0 || n == 0x1680
    || 0x2000 <= n <= 0x200A || n == 0x2028 || n == 0x2029 || n == 0x202F || n == 0x205F || n == 0x3000
  }

  /** Those are the 25 characters that have it. */
  lemma WhitespaceIs(c: char)
    ensures IsWhitespace(c) <==>
              c in {'\U{9}', '\U{A}', '\U{B}', '\U{C}', '\U{D}', ' ', '\U{85}', '\U{A0}', '\U{1680}', '\U{2000}', '\U{2001}',
                    '\U{2002}', '\U{2003}', '\U{2004}', '\U{2005}', '\U{2006}', '\U{2007}', '\U{2008}', '\U{2009}', '\U{200A}',
                    '\U{2028}', '\U{2029}', '\U{202F}', '\U{205F}', '\U{3000}'}
  {
  }

  predicate AllWhitespace(s: string) {
    forall i :: 0 <= i < |s| ==> IsWhitespace(s[i])
  }

  lemma WhitespaceConcat(a: string, b: string)
    ensures AllWhitespace(a) && AllWhitespace(b) ==> AllWhitespace(a + b)
  {
  }

  /** The end of `s[..n]` without its trailing whitespace. */
  function EndIndex(s: string, n: nat): (r: nat)
    requires n <= |s|
    ensures r <= n && forall i :: r <= i < n ==> IsWhitespace(s[i])
    ensures r > 0 ==> !IsWhitespace(s[r - 1])
  {
    if n == 0 || !IsWhitespace(s[n - 1]) then n else EndIndex(s, n - 1)
  }

  /** The start of `s[n..]` without its leading whitespace. */
  function StartIndex(s: string, n: nat): (r: nat)
    requires n <= |s|
    ensures n <= r <= |s| && forall i :: n <= i < r ==> IsWhitespace(s[i])
    ensures r < |s| ==> !IsWhitespace(s[r])
    decreases |s| - n
  {
    if n == |s| || !IsWhitespace(s[n]) then n else StartIndex(s, n + 1)
  }

  function TrimEnd(s: string): string {
    s[..EndIndex(s, |s|)]
  }

  function TrimStart(s: string): string {
    s[StartIndex(s, 0)..]
  }

  function Trim(s: string): string {
    TrimStart(TrimEnd(s))
  }

  /** What `trim` removes: whitespace on either side, and nothing else. */
  lemma TrimSplits(s: string) returns (left: string, right: string)
    ensures s == left + Trim(s) + right
    ensures AllWhitespace(left) && AllWhitespace(right)
    ensures var r := Trim(s); r != [] ==> !IsWhitespace(r[0]) && !IsWhitespace(r[|r| - 1])
  {
    var t := TrimEnd(s);
    left, right := t[..StartIndex(t, 0)], s[EndIndex(s, |s|)..];
    assert left + TrimStart(t) == t;
    assert t + right == s;
  }

  /** `trim` is the only way to cut whitespace off both ends of a text. */
  lemma TrimIsUnique(left: string, core: string, right: string)
    requires AllWhitespace(left) && AllWhitespace(right)
    requires core != [] && !IsWhitespace(core[0]) && !IsWhitespace(core[|core| - 1])
    ensures Trim(left + core + right) == core
  {
    TrimEndCuts(left + core, right);
    TrimStartCuts(left, core);
  }

  lemma TrimEndCuts(core: string, right: string)
    requires AllWhitespace(right)
    requires core != [] && !IsWhitespace(core[|core| - 1])
    ensures TrimEnd(core + right) == core
  {
    var s := core + right;
    var n := EndIndex(s, |s|);
    assert n >= |core| by {
      assert s[|core| - 1] == core[|core| - 1];
    }
    assert forall i :: |core| <= i < |s| ==> s[i] == right[i - |core|];
    assert s[..|core|] == core;
  }

  lemma TrimStartCuts(left: string, core: string)
    requires AllWhitespace(left)
    requires core != [] && !IsWhitespace(core[0])
    ensures TrimStart(left + core) == core
  {
    var s := left + core;
    var n := StartIndex(s, 0);
    assert s[|left|] == core[0];
    assert forall i :: 0 <= i < |left| ==> s[i] == left[i];
    assert s[|left|..] == core;
  }

  lemma TrimOfWhitespace(s: string)
    requires AllWhitespace(s)
    ensures Trim(s) == []
  {
  }

  lemma Associative(a: string, b: string, c: string, d: string)
    ensures (a + b) + c + d == a + (b + c + d)
    ensures a + b + c + d == a + (b + (c + d))
  {
  }

  lemma LeadingWhitespaceIsTrimmed(w: string, t: string)
    requires AllWhitespace(w)
    ensures Trim(w + t) == Trim(t)
  {
    var left, right := TrimSplits(t);
    LeadingWhitespace(w, left, Trim(t), right);
    Associative(w, left, Trim(t), right);
  }

  lemma LeadingWhitespace(w: string, left: string, core: string, right: string)
    requires AllWhitespace(w) && AllWhitespace(left) && AllWhitespace(right)
    requires core == [] || (!IsWhitespace(core[0]) && !IsWhitespace(core[|core| - 1]))
    ensures Trim((w + left) + core + right) == core
  {
    WhitespaceConcat(w, left);
    if core == [] {
      WhitespaceConcat(w + left, right);
      assert (w + left) + core + right == (w + left) + right;
      TrimOfWhitespace((w + left) + right);
    } else {
      TrimIsUnique(w + left, core, right);
    }
  }

  /** The first index at or after `i` that holds `c`, or the length. */
  function IndexOf(s: string, c: char, i: nat): (r: nat)
    requires i <= |s|
    ensures i <= r <= |s| && (forall j :: i <= j < r ==> s[j] != c) && (r < |s| ==> s[r] == c)
    decreases |s| - i
  {
    if i == |s| || s[i] == c then i else IndexOf(s, c, i + 1)
  }

  /** One more than the last index below `n` that holds `c`, or zero. */
  function AfterLast(s: string, c: char, n: nat): (r: nat)
    requires n <= |s|
    ensures r <= n && (forall j :: r <= j < n ==> s[j] != c) && (r > 0 ==> s[r - 1] == c)
  {
    if n == 0 || s[n - 1] == c then n else AfterLast(s, c, n - 1)
  }

  predicate NoSlash(s: string) {
    '/' !in s
  }

  /** `s.split('/').next()`: the part of `s` before its first slash. */
  function FirstSegment(s: string): (r: string)
    ensures NoSlash(r) && r <= s
    ensures r == s || s[|r|] == '/'
  {
    s[..IndexOf(s, '/', 0)]
  }

  lemma FirstSegmentOf(name: string, rest: string)
    requires NoSlash(name)
    requires rest == [] || rest[0] == '/'
    ensures FirstSegment(name + rest) == name
  {
    var s := name + rest;
    assert forall j :: 0 <= j < |name| ==> s[j] == name[j];
    assert rest != [] ==> s[|name|] == '/';
    assert IndexOf(s, '/', 0) == |name|;
  }

  /** `str::replace`: every non-overlapping occurrence, scanning from the left. */
  function ReplaceAll(s: string, pattern: string, with: string): string
    requires pattern != []
  {
    if |s| < |pattern| then s
    else if pattern <= s then with + ReplaceAll(s[|pattern|..], pattern, with)
    else [s[0]] + ReplaceAll(s[1..], pattern, with)
  }

  /** Where the pattern's last slash would have to be, and all the way behind it, there is none: nothing to replace. */
  lemma {:induction false} NothingToReplace(s: string, pattern: string, with: string)
    requires pattern != [] && pattern[|pattern| - 1] == '/'
    requires forall i :: |pattern| - 1 <= i < |s| ==> s[i] != '/'
    ensures ReplaceAll(s, pattern, with) == s
  {
    if |s| >= |pattern| {
      assert s[|pattern| - 1] != pattern[|pattern| - 1];
      NothingToReplace(s[1..], pattern, with);
    }
  }

  predicate FoundAt(s: string, pattern: string, i: nat) {
    i + |pattern| <= |s| && s[i..i + |pattern|] == pattern
  }

  lemma FoundLater(s: string, pattern: string, j: nat)
    requires s != []
    ensures FoundAt(s[1..], pattern, j) <==> FoundAt(s, pattern, j + 1)
  {
    if j + 1 + |pattern| <= |s| {
      assert s[1..][j..j + |pattern|] == s[j + 1..j + 1 + |pattern|];
    }
  }

  lemma ReplaceStep(s: string, pattern: string, with: string)
    requires pattern != [] && !FoundAt(s, pattern, 0)
    ensures ReplaceAll(s, pattern, with) == if s == [] then s else [s[0]] + ReplaceAll(s[1..], pattern, with)
  {
    if |s| >= |pattern| {
      assert s[..|pattern|] == s[0..|pattern|];
    } else if s != [] {
      assert [s[0]] + s[1..] == s;
    }
  }

  /** The first occurrence is replaced, what is before it stays, and so on behind it; ... */
  lemma {:induction false} ReplacesFirst(s: string, pattern: string, with: string, i: nat)
    requires pattern != [] && FoundAt(s, pattern, i)
    requires forall j: nat :: j < i ==> !FoundAt(s, pattern, j)
    ensures ReplaceAll(s, pattern, with) == s[..i] + with + ReplaceAll(s[i + |pattern|..], pattern, with)
  {
    hide ReplaceAll;
    if i == 0 {
      ReplaceFront(s, pattern, with);
      assert s[..0] + with == with;
    } else {
      ReplaceStep(s, pattern, with);
      forall j: nat ensures FoundAt(s[1..], pattern, j) <==> FoundAt(s, pattern, j + 1) { FoundLater(s, pattern, j); }
      ReplacesFirst(s[1..], pattern, with, i - 1);
      assert s[1..][i - 1 + |pattern|..] == s[i + |pattern|..];
      assert s[..i] == [s[0]] + s[1..][..i - 1];
    }
  }

  lemma ReplaceFront(s: string, pattern: string, with: string)
    requires pattern != [] && FoundAt(s, pattern, 0)
    ensures ReplaceAll(s, pattern, with) == with + ReplaceAll(s[|pattern|..], pattern, with)
  {
    assert pattern <= s;
  }

  /** ... without an occurrence nothing changes. */
  lemma {:induction false} ReplacesNothing(s: string, pattern: string, with: string)
    requires pattern != [] && forall j: nat :: !FoundAt(s, pattern, j)
    ensures ReplaceAll(s, pattern, with) == s
  {
    hide ReplaceAll;
    ReplaceStep(s, pattern, with);
    if s != [] {
      forall j: nat ensures !FoundAt(s[1..], pattern, j) { FoundLater(s, pattern, j); }
      ReplacesNothing(s[1..], pattern, with);
      assert [s[0]] + s[1..] == s;
    }
  }

  /** Code-point order, which is also the byte order of UTF-8 and so `str::cmp`. */
  predicate Leq(a: string, b: string) {
    a == [] || (b != [] && (a[0] < b[0] || (a[0] == b[0] && Leq(a[1..], b[1..]))))
  }

  lemma {:induction false} LeqTotal(a: string, b: string)
    ensures Leq(a, b) || Leq(b, a)
  {
    if a != [] && b != [] && a[0] == b[0] {
      LeqTotal(a[1..], b[1..]);
    }
  }

  lemma {:induction false} LeqAntisymmetric(a: string, b: string)
    requires Leq(a, b) && Leq(b, a)
    ensures a == b
  {
    if a != [] && b != [] {
      LeqAntisymmetric(a[1..], b[1..]);
      assert a == [a[0]] + a[1..] && b == [b[0]] + b[1..];
    }
  }

  lemma {:induction false} LeqTransitive(a: string, b: string, c: string)
    requires Leq(a, b) && Leq(b, c)
    ensures Leq(a, c)
  {
    if a != [] && b != [] && c != [] && a[0] == b[0] == c[0] {
      LeqTransitive(a[1..], b[1..], c[1..]);
    }
  }

  /** `a` comes before `b` or is equal: it is a prefix of it, or less at the first place where they differ. */
  lemma {:induction false} LeqIsLexicographic(a: string, b: string)
    ensures Leq(a, b) <==> a <= b || exists i :: 0 <= i < |a| && i < |b| && a[..i] == b[..i] && a[i] < b[i]
  {
    if a != [] && b != [] && a[0] == b[0] {
      LeqIsLexicographic(a[1..], b[1..]);
      assert a[1..] <= b[1..] <==> a <= b;
      if i :| 0 <= i < |a| && i < |b| && a[..i] == b[..i] && a[i] < b[i] {
        assert a[1..][..i - 1] == a[..i][1..] && b[1..][..i - 1] == b[..i][1..];
      }
      if i :| 0 <= i < |a[1..]| && i < |b[1..]| && a[1..][..i] == b[1..][..i] && a[1..][i] < b[1..][i] {
        assert a[..i + 1] == [a[0]] + a[1..][..i] && b[..i + 1] == [b[0]] + b[1..][..i];
        assert a[i + 1] < b[i + 1];
      }
    } else if a != [] && b != [] && a[0] < b[0] {
      assert a[..0] == b[..0];
    }
  }

  lemma {:induction false} LeqBehind(p: string, a: string, b: string)
    ensures Leq(p + a, p + b) <==> Leq(a, b)
  {
    if p == [] {
      assert p + a == a && p + b == b;
    } else {
      assert (p + a)[1..] == p[1..] + a && (p + b)[1..] == p[1..] + b;
      LeqBehind(p[1..], a, b);
    }
  }
}
