/** JSON with visible key order, and the compact text `serde_json::to_string` writes for it. */
module CompactJson {
  /** A number is the text it prints as; an object is the list of its entries. */
  datatype Json =
    | Null
    | Bool(b: bool)
    | Number(text: string)
    | Str(s: string)
    | Arr(items: seq<Json>)
    | Obj(entries: seq<Entry>)

  datatype Entry = Entry(key: string, value: Json)

  predicate IsNumberChar(c: char) {
    '0' <= c <= '9' || c in {'-', '+', '.', 'e', 'E'}
  }

  predicate IsNumberText(t: string) {
    t != [] && ('0' <= t[0] <= '9' || t[0] == '-') && forall i :: 0 <= i < |t| ==> IsNumberChar(t[i])
  }

  /** What `serde_json` values guarantee: numbers print as numbers, and a key has one value. */
  predicate WellFormed(v: Json) {
    match v
    case Number(text) => IsNumberText(text)
    case Arr(items) => forall x :: x in items ==> WellFormed(x)
    case Obj(entries) =>
      && (forall e :: e in entries ==> WellFormed(e.value))
      && (forall e, f :: e in entries && f in entries && e.key == f.key ==> e == f)
    case _ => true
  }

  function Hex(n: nat): char
    requires n < 16
  {
    "0123456789abcdef"[n]
  }

  /** The escapes of section 7 of RFC 8259, as `serde_json` chooses them. */
  function Escaped(c: char): string {
    if c == '"' then ['\\', '"']
    else if c == '\\' then ['\\', '\\']
    else if c as int == 8 then ['\\', 'b']
    else if c as int == 9 then ['\\', 't']
    else if c as int == 10 then ['\\', 'n']
    else if c as int == 12 then ['\\', 'f']
    else if c as int == 13 then ['\\', 'r']
    else if c as int < 32 then ['\\', 'u', '0', '0', Hex(c as int / 16), Hex(c as int % 16)]
    else [c]
  }

  /** The rest of a string literal after its opening quote, then `rest`. */
  function Quoted(s: string, rest: string): string {
    if s == [] then ['"'] + rest else Escaped(s[0]) + Quoted(s[1..], rest)
  }

  /** The text of `v`, then `rest`. */
  function Print(v: Json, rest: string): string
    decreases v, 1
  {
    match v
    case Null => ['n', 'u', 'l', 'l'] + rest
    case Bool(b) => (if b then ['t', 'r', 'u', 'e'] else ['f', 'a', 'l', 's', 'e']) + rest
    case Number(text) => text + rest
    case Str(s) => ['"'] + Quoted(s, rest)
    case Arr(items) => ['['] + (if items == [] then [']'] + rest else Print(items[0], MoreItems(items[1..], rest)))
    case Obj(entries) => ['{'] + (if entries == [] then ['}'] + rest else PrintEntry(entries[0], MoreEntries(entries[1..], rest)))
  }

  function MoreItems(items: seq<Json>, rest: string): string
    decreases items, 0
  {
    if items == [] then [']'] + rest else [','] + Print(items[0], MoreItems(items[1..], rest))
  }

  function PrintEntry(e: Entry, rest: string): string
    decreases e, 0
  {
    ['"'] + Quoted(e.key, [':'] + Print(e.value, rest))
  }

  function MoreEntries(entries: seq<Entry>, rest: string): string
    decreases entries, 0
  {
    if entries == [] then ['}'] + rest else [','] + PrintEntry(entries[0], MoreEntries(entries[1..], rest))
  }

  function CompactText(v: Json): string {
    Print(v, [])
  }

  // ------------------------------------------------- no two values print alike

  /** What may come behind a value. */
  predicate Follows(rest: string) {
    rest == [] || rest[0] in {',', ']', '}'}
  }

  lemma HexIsInjective(m: nat, n: nat)
    requires m < 16 && n < 16 && Hex(m) == Hex(n)
    ensures m == n
  {
    assert forall i, j :: 0 <= i < j < 16 ==> "0123456789abcdef"[i] != "0123456789abcdef"[j];
  }

  lemma EscapedIsPrefixFree(c: char, u: string, d: char, v: string)
    requires Escaped(c) + u == Escaped(d) + v
    ensures c == d && u == v
  {
    var t := Escaped(c) + u;
    assert t[0] == Escaped(c)[0] == Escaped(d)[0];
    if t[0] == '\\' {
      assert t[1] == Escaped(c)[1] == Escaped(d)[1];
      if t[1] == 'u' {
        assert t[4] == Escaped(c)[4] == Escaped(d)[4];
        assert t[5] == Escaped(c)[5] == Escaped(d)[5];
        HexIsInjective(c as int / 16, d as int / 16);
        HexIsInjective(c as int % 16, d as int % 16);
      }
    }
    assert c == d;
    assert u == t[|Escaped(c)|..] == v;
  }

  lemma QuoteEndsEmpty(s: string, rest: string)
    ensures Quoted(s, rest) != [] && (Quoted(s, rest)[0] == '"' <==> s == [])
  {
  }

  lemma {:induction false} QuotedIsInjective(s: string, u: string, t: string, v: string)
    requires Quoted(s, u) == Quoted(t, v)
    ensures s == t && u == v
  {
    QuoteEndsEmpty(s, u);
    QuoteEndsEmpty(t, v);
    if s == [] {
      assert u == Quoted(s, u)[1..] == v;
    } else {
      EscapedIsPrefixFree(s[0], Quoted(s[1..], u), t[0], Quoted(t[1..], v));
      QuotedIsInjective(s[1..], u, t[1..], v);
      assert s == [s[0]] + s[1..] && t == [t[0]] + t[1..];
    }
  }

  /** How many number characters `x` begins with. */
  function Munch(x: string): nat {
    if x == [] || !IsNumberChar(x[0]) then 0 else 1 + Munch(x[1..])
  }

  lemma {:induction false} MunchNumber(a: string, s: string)
    requires (forall i :: 0 <= i < |a| ==> IsNumberChar(a[i])) && Follows(s)
    ensures Munch(a + s) == |a|
  {
    if a == [] {
      assert a + s == s;
    } else {
      assert (a + s)[1..] == a[1..] + s;
      MunchNumber(a[1..], s);
    }
  }

  lemma NumbersEnd(a: string, s: string, b: string, t: string)
    requires IsNumberText(a) && IsNumberText(b) && Follows(s) && Follows(t)
    requires a + s == b + t
    ensures a == b && s == t
  {
    var x := a + s;
    MunchNumber(a, s);
    MunchNumber(b, t);
    assert a == x[..|a|] == b;
    assert s == x[|a|..] == t;
  }

  /** The first character tells the kind of value. */
  function Kind(v: Json): nat {
    match v
    case Null => 0
    case Bool(_) => 1
    case Number(_) => 2
    case Str(_) => 3
    case Arr(_) => 4
    case Obj(_) => 5
  }

  lemma FirstTellsKind(v: Json, rest: string)
    requires WellFormed(v)
    ensures var t := Print(v, rest);
            && t != [] && t[0] !in {',', ']', '}'}
            && Kind(v) == (match t[0]
                           case 'n' => 0
                           case 't' => 1
                           case 'f' => 1
                           case '"' => 3
                           case '[' => 4
                           case '{' => 5
                           case _ => 2)
  {
  }

  /** The text of a value determines the value, and where it ends. */
  lemma {:induction false} PrintIsInjective(a: Json, s: string, b: Json, t: string)
    requires WellFormed(a) && WellFormed(b) && Follows(s) && Follows(t)
    requires Print(a, s) == Print(b, t)
    ensures a == b && s == t
    decreases a, 1
  {
    FirstTellsKind(a, s);
    FirstTellsKind(b, t);
    var x := Print(a, s);
    match a
    case Null =>
      assert s == x[4..] == t;
    case Bool(_) =>
      assert x[0] == if a.b then 't' else 'f';
      assert x[0] == if b.b then 't' else 'f';
      assert s == x[if a.b then 4 else 5..] == t;
    case Number(_) =>
      NumbersEnd(a.text, s, b.text, t);
    case Str(_) =>
      assert x[1..] == Quoted(a.s, s) == Quoted(b.s, t);
      QuotedIsInjective(a.s, s, b.s, t);
    case Arr(xs) =>
      ArraysAreInjective(xs, s, b.items, t, x);
    case Obj(es) =>
      ObjectsAreInjective(es, s, b.entries, t, x);
  }

  lemma BracketEndsEmpty(xs: seq<Json>, rest: string)
    requires forall x :: x in xs ==> WellFormed(x)
    ensures |Print(Arr(xs), rest)| > 1 && (Print(Arr(xs), rest)[1] == ']' <==> xs == [])
  {
    if xs != [] {
      FirstTellsKind(xs[0], MoreItems(xs[1..], rest));
    }
  }

  lemma {:induction false} ArraysAreInjective(xs: seq<Json>, s: string, ys: seq<Json>, t: string, text: string)
    requires (forall x :: x in xs ==> WellFormed(x)) && (forall y :: y in ys ==> WellFormed(y))
    requires Follows(s) && Follows(t) && text == Print(Arr(xs), s) == Print(Arr(ys), t)
    ensures xs == ys && s == t
    decreases xs, 1
  {
    var inner := text[1..];
    if xs == [] || ys == [] {
      BracketEndsEmpty(xs, s);
      BracketEndsEmpty(ys, t);
      assert s == inner[1..] == t;
    } else {
      assert inner == Print(xs[0], MoreItems(xs[1..], s)) == Print(ys[0], MoreItems(ys[1..], t));
      PrintIsInjective(xs[0], MoreItems(xs[1..], s), ys[0], MoreItems(ys[1..], t));
      MoreItemsAreInjective(xs[1..], s, ys[1..], t);
      assert xs == [xs[0]] + xs[1..] && ys == [ys[0]] + ys[1..];
    }
  }

  lemma {:induction false} MoreItemsAreInjective(xs: seq<Json>, s: string, ys: seq<Json>, t: string)
    requires (forall x :: x in xs ==> WellFormed(x)) && (forall y :: y in ys ==> WellFormed(y))
    requires Follows(s) && Follows(t) && MoreItems(xs, s) == MoreItems(ys, t)
    ensures xs == ys && s == t
    decreases xs, 0
  {
    var text := MoreItems(xs, s);
    assert text[0] == (if xs == [] then ']' else ',') == (if ys == [] then ']' else ',');
    if xs == [] {
      assert s == text[1..] == t;
    } else {
      assert text[1..] == Print(xs[0], MoreItems(xs[1..], s)) == Print(ys[0], MoreItems(ys[1..], t));
      PrintIsInjective(xs[0], MoreItems(xs[1..], s), ys[0], MoreItems(ys[1..], t));
      MoreItemsAreInjective(xs[1..], s, ys[1..], t);
      assert xs == [xs[0]] + xs[1..] && ys == [ys[0]] + ys[1..];
    }
  }

  lemma {:induction false} EntriesAreInjective(e: Entry, s: string, f: Entry, t: string)
    requires WellFormed(e.value) && WellFormed(f.value)
    requires Follows(s) && Follows(t) && PrintEntry(e, s) == PrintEntry(f, t)
    ensures e == f && s == t
    decreases e, 0
  {
    var text := PrintEntry(e, s);
    var behindE, behindF := [':'] + Print(e.value, s), [':'] + Print(f.value, t);
    assert text[1..] == Quoted(e.key, behindE) == Quoted(f.key, behindF);
    QuotedIsInjective(e.key, behindE, f.key, behindF);
    assert behindE[1..] == Print(e.value, s) == Print(f.value, t);
    PrintIsInjective(e.value, s, f.value, t);
  }

  lemma {:induction false} ObjectsAreInjective(es: seq<Entry>, s: string, fs: seq<Entry>, t: string, text: string)
    requires (forall e :: e in es ==> WellFormed(e.value)) && (forall f :: f in fs ==> WellFormed(f.value))
    requires Follows(s) && Follows(t) && text == Print(Obj(es), s) == Print(Obj(fs), t)
    ensures es == fs && s == t
    decreases es, 1
  {
    var inner := text[1..];
    if es == [] || fs == [] {
      assert inner[0] == if es == [] then '}' else '"';
      assert inner[0] == if fs == [] then '}' else '"';
      assert s == inner[1..] == t;
    } else {
      assert inner == PrintEntry(es[0], MoreEntries(es[1..], s)) == PrintEntry(fs[0], MoreEntries(fs[1..], t));
      EntriesAreInjective(es[0], MoreEntries(es[1..], s), fs[0], MoreEntries(fs[1..], t));
      MoreEntriesAreInjective(es[1..], s, fs[1..], t);
      assert es == [es[0]] + es[1..] && fs == [fs[0]] + fs[1..];
    }
  }

  lemma {:induction false} MoreEntriesAreInjective(es: seq<Entry>, s: string, fs: seq<Entry>, t: string)
    requires (forall e :: e in es ==> WellFormed(e.value)) && (forall f :: f in fs ==> WellFormed(f.value))
    requires Follows(s) && Follows(t) && MoreEntries(es, s) == MoreEntries(fs, t)
    ensures es == fs && s == t
    decreases es, 0
  {
    var text := MoreEntries(es, s);
    assert text[0] == (if es == [] then '}' else ',') == (if fs == [] then '}' else ',');
    if es == [] {
      assert s == text[1..] == t;
    } else {
      assert text[1..] == PrintEntry(es[0], MoreEntries(es[1..], s)) == PrintEntry(fs[0], MoreEntries(fs[1..], t));
      EntriesAreInjective(es[0], MoreEntries(es[1..], s), fs[0], MoreEntries(fs[1..], t));
      MoreEntriesAreInjective(es[1..], s, fs[1..], t);
      assert es == [es[0]] + es[1..] && fs == [fs[0]] + fs[1..];
    }
  }

  /** Different values print differently. */
  lemma CompactTextIsInjective(a: Json, b: Json)
    requires WellFormed(a) && WellFormed(b)
    ensures CompactText(a) == CompactText(b) <==> a == b
  {
    if CompactText(a) == CompactText(b) {
      PrintIsInjective(a, [], b, []);
    }
  }

  // --------------------------------------------------------- reading strings back

  function HexValue(c: char): nat {
    if '0' <= c <= '9' then c as int - '0' as int else if 'a' <= c <= 'f' then c as int - 'a' as int + 10 else 0
  }

  /** The character an escape stands for (section 7 of RFC 8259), and its length; for the escapes of one letter, and those
      of four digits below 256. */
  function ReadEscape(t: string): (char, nat)
    requires |t| >= 2
  {
    match t[1]
    case 'b' => ('\U{0008}', 2)
    case 't' => ('\t', 2)
    case 'n' => ('\n', 2)
    case 'f' => ('\U{000C}', 2)
    case 'r' => ('\r', 2)
    case 'u' => if |t| >= 6 then ((HexValue(t[4]) * 16 + HexValue(t[5])) as char, 6) else (t[1], 2)
    case c => (c, 2)
  }

  /** The string in front of the next quote, and what comes behind that. */
  function ReadString(t: string): (string, string)
    decreases |t|
  {
    if t == [] then ([], [])
    else if t[0] == '"' then ([], t[1..])
    else if t[0] == '\\' && |t| > 1 then
      var (c, n) := ReadEscape(t);
      var (s, rest) := ReadString(t[if n <= |t| then n else 2..]);
      ([c] + s, rest)
    else
      var (s, rest) := ReadString(t[1..]);
      ([t[0]] + s, rest)
  }

  lemma HexReads(n: nat)
    requires n < 16
    ensures HexValue(Hex(n)) == n
  {
    var digits := "0123456789abcdef";
    if n < 10 { assert digits[n] as int == '0' as int + n; } else { assert digits[n] as int == 'a' as int + (n - 10); }
  }

  lemma EscapeReads(c: char, rest: string)
    ensures Escaped(c)[0] != '"'
    ensures Escaped(c)[0] == '\\' ==> |Escaped(c)| >= 2 && ReadEscape(Escaped(c) + rest) == (c, |Escaped(c)|)
    ensures Escaped(c)[0] != '\\' ==> Escaped(c) == [c]
  {
    var t := Escaped(c) + rest;
    if c as int < 32 && |Escaped(c)| == 6 {
      HexReads(c as int / 16);
      HexReads(c as int % 16);
      assert t[4] == Hex(c as int / 16) && t[5] == Hex(c as int % 16);
    }
    if |Escaped(c)| >= 2 { assert t[1] == Escaped(c)[1]; }
  }

  /** Seven characters have an escape of two characters, the other control characters one of six, and no other is escaped. */
  lemma EscapeLengths(c: char)
    ensures |Escaped(c)| == if c in {'"', '\\', '\U{0008}', '\t', '\n', '\U{000C}', '\r'} then 2
                            else if c < ' ' then 6 else 1
  {
  }

  /** Reading a printed string gives it back. */
  lemma {:induction false} StringsReadBack(s: string, rest: string)
    ensures ReadString(Quoted(s, rest)) == (s, rest)
  {
    if s == [] {
      assert Quoted(s, rest)[1..] == rest;
    } else {
      var e, more := Escaped(s[0]), Quoted(s[1..], rest);
      EscapeReads(s[0], more);
      StringsReadBack(s[1..], rest);
      assert (e + more)[|e|..] == more;
      assert [s[0]] + s[1..] == s;
    }
  }
}
