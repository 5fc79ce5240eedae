/** The indented text `serde_json::to_vec_pretty` writes. Without the whitespace between its tokens it is the compact text. */
module PrettyJson {
  import opened CompactJson

  function Spaces(n: nat): string {
    if n == 0 then [] else [' '] + Spaces(n - 1)
  }

  /** A new line indented to `depth`. */
  function NewLine(depth: nat): string {
    ['\n'] + Spaces(2 * depth)
  }

  /** The text of `v` at `depth`, then `rest`. */
  function Pretty(v: Json, depth: nat, rest: string): string
    decreases v, 1
  {
    match v
    case Arr(items) =>
      if items == [] then ['[', ']'] + rest
      else ['['] + (NewLine(depth + 1) + Pretty(items[0], depth + 1, PrettyItems(items[1..], depth, rest)))
    case Obj(entries) =>
      if entries == [] then ['{', '}'] + rest
      else ['{'] + (NewLine(depth + 1) + PrettyEntry(entries[0], depth + 1, PrettyEntries(entries[1..], depth, rest)))
    case _ => Print(v, rest)
  }

  function PrettyItems(items: seq<Json>, depth: nat, rest: string): string
    decreases items, 0
  {
    if items == [] then NewLine(depth) + ([']'] + rest)
    else [','] + (NewLine(depth + 1) + Pretty(items[0], depth + 1, PrettyItems(items[1..], depth, rest)))
  }

  function PrettyEntry(e: Entry, depth: nat, rest: string): string
    decreases e, 0
  {
    ['"'] + Quoted(e.key, [':', ' '] + Pretty(e.value, depth, rest))
  }

  function PrettyEntries(entries: seq<Entry>, depth: nat, rest: string): string
    decreases entries, 0
  {
    if entries == [] then NewLine(depth) + (['}'] + rest)
    else [','] + (NewLine(depth + 1) + PrettyEntry(entries[0], depth + 1, PrettyEntries(entries[1..], depth, rest)))
  }

  function PrettyText(v: Json): string {
    Pretty(v, 0, [])
  }

  // -------------------------------------------------------- taking the whitespace out

  /** `t` without spaces and line ends outside string literals. */
  function Squeeze(t: string): string
    decreases |t|
  {
    if t == [] then []
    else if t[0] == ' ' || t[0] == '\n' then Squeeze(t[1..])
    else if t[0] == '"' then ['"'] + Inside(t[1..])
    else [t[0]] + Squeeze(t[1..])
  }

  /** The same, from inside a literal. */
  function Inside(t: string): string
    decreases |t|
  {
    if t == [] then []
    else if t[0] == '"' then ['"'] + Squeeze(t[1..])
    else if t[0] == '\\' && |t| > 1 then [t[0], t[1]] + Inside(t[2..])
    else [t[0]] + Inside(t[1..])
  }

  predicate Plain(p: string) {
    forall i :: 0 <= i < |p| ==> p[i] !in {' ', '\n', '"'}
  }

  lemma {:induction false} SqueezePlain(p: string, rest: string)
    requires Plain(p)
    ensures Squeeze(p + rest) == p + Squeeze(rest)
  {
    if p == [] {
      assert p + rest == rest;
    } else {
      assert (p + rest)[1..] == p[1..] + rest;
      SqueezePlain(p[1..], rest);
      assert [p[0]] + p[1..] == p;
    }
  }

  lemma {:induction false} SqueezeSpaces(n: nat, rest: string)
    ensures Squeeze(Spaces(n) + rest) == Squeeze(rest)
  {
    if n == 0 {
      assert Spaces(0) + rest == rest;
    } else {
      assert (Spaces(n) + rest)[1..] == Spaces(n - 1) + rest;
      SqueezeSpaces(n - 1, rest);
    }
  }

  lemma SqueezeNewLine(depth: nat, rest: string)
    ensures Squeeze(NewLine(depth) + rest) == Squeeze(rest)
  {
    assert (NewLine(depth) + rest)[1..] == Spaces(2 * depth) + rest;
    SqueezeSpaces(2 * depth, rest);
  }

  lemma {:induction false} InsidePlain(p: string, rest: string)
    requires forall i :: 0 <= i < |p| ==> p[i] != '"' && p[i] != '\\'
    ensures Inside(p + rest) == p + Inside(rest)
  {
    if p == [] {
      assert p + rest == rest;
    } else {
      assert (p + rest)[1..] == p[1..] + rest;
      InsidePlain(p[1..], rest);
      assert [p[0]] + p[1..] == p;
    }
  }

  lemma InsideEscaped(c: char, rest: string)
    ensures Inside(Escaped(c) + rest) == Escaped(c) + Inside(rest)
  {
    var e := Escaped(c);
    if e[0] == '\\' {
      assert (e + rest)[2..] == e[2..] + rest;
      InsidePlain(e[2..], rest);
      assert [e[0], e[1]] + e[2..] == e;
    } else {
      InsidePlain(e, rest);
    }
  }

  lemma {:induction false} InsideQuoted(s: string, rest: string)
    ensures Inside(Quoted(s, rest)) == Quoted(s, Squeeze(rest))
  {
    if s == [] {
      assert Quoted(s, rest)[1..] == rest;
    } else {
      InsideEscaped(s[0], Quoted(s[1..], rest));
      InsideQuoted(s[1..], rest);
    }
  }

  lemma SqueezeQuote(rest: string)
    ensures Squeeze(['"'] + rest) == ['"'] + Inside(rest)
  {
    assert (['"'] + rest)[1..] == rest;
  }

  /** Without its whitespace the pretty text is the compact one. */
  lemma {:induction false} SqueezedIsCompact(v: Json, depth: nat, rest: string)
    requires WellFormed(v)
    ensures Squeeze(Pretty(v, depth, rest)) == Print(v, Squeeze(rest))
    decreases v, 1
  {
    match v
    case Null => SqueezePlain(['n', 'u', 'l', 'l'], rest);
    case Bool(b) => SqueezePlain(if b then ['t', 'r', 'u', 'e'] else ['f', 'a', 'l', 's', 'e'], rest);
    case Number(text) => SqueezePlain(text, rest);
    case Str(s) =>
      SqueezeQuote(Quoted(s, rest));
      InsideQuoted(s, rest);
    case Arr(items) => SqueezedArray(items, depth, rest);
    case Obj(entries) => SqueezedObject(entries, depth, rest);
  }

  lemma {:induction false} SqueezedArray(items: seq<Json>, depth: nat, rest: string)
    requires forall x :: x in items ==> WellFormed(x)
    ensures Squeeze(Pretty(Arr(items), depth, rest)) == Print(Arr(items), Squeeze(rest))
    decreases items, 1
  {
    if items == [] {
      SqueezePlain(['[', ']'], rest);
    } else {
      var more := PrettyItems(items[1..], depth, rest);
      SqueezePlain(['['], NewLine(depth + 1) + Pretty(items[0], depth + 1, more));
      SqueezeNewLine(depth + 1, Pretty(items[0], depth + 1, more));
      SqueezedIsCompact(items[0], depth + 1, more);
      SqueezedItems(items[1..], depth, rest);
    }
  }

  lemma {:induction false} SqueezedItems(items: seq<Json>, depth: nat, rest: string)
    requires forall x :: x in items ==> WellFormed(x)
    ensures Squeeze(PrettyItems(items, depth, rest)) == MoreItems(items, Squeeze(rest))
    decreases items, 0
  {
    if items == [] {
      SqueezeNewLine(depth, [']'] + rest);
      SqueezePlain([']'], rest);
    } else {
      var more := PrettyItems(items[1..], depth, rest);
      SqueezePlain([','], NewLine(depth + 1) + Pretty(items[0], depth + 1, more));
      SqueezeNewLine(depth + 1, Pretty(items[0], depth + 1, more));
      SqueezedIsCompact(items[0], depth + 1, more);
      SqueezedItems(items[1..], depth, rest);
    }
  }

  lemma {:induction false} SqueezedEntry(e: Entry, depth: nat, rest: string)
    requires WellFormed(e.value)
    ensures Squeeze(PrettyEntry(e, depth, rest)) == PrintEntry(e, Squeeze(rest))
    decreases e, 0
  {
    hide Squeeze, Inside, Quoted;
    var behind := Pretty(e.value, depth, rest);
    SqueezeQuote(Quoted(e.key, [':', ' '] + behind));
    InsideQuoted(e.key, [':', ' '] + behind);
    SqueezeColon(behind);
    SqueezedIsCompact(e.value, depth, rest);
  }

  lemma SqueezeColon(behind: string)
    ensures Squeeze([':', ' '] + behind) == [':'] + Squeeze(behind)
  {
    var t := [':', ' '] + behind;
    assert t[1..] == [' '] + behind && t[1..][1..] == behind;
  }

  lemma {:induction false} SqueezedObject(entries: seq<Entry>, depth: nat, rest: string)
    requires forall e :: e in entries ==> WellFormed(e.value)
    ensures Squeeze(Pretty(Obj(entries), depth, rest)) == Print(Obj(entries), Squeeze(rest))
    decreases entries, 1
  {
    if entries == [] {
      SqueezePlain(['{', '}'], rest);
    } else {
      var more := PrettyEntries(entries[1..], depth, rest);
      SqueezePlain(['{'], NewLine(depth + 1) + PrettyEntry(entries[0], depth + 1, more));
      SqueezeNewLine(depth + 1, PrettyEntry(entries[0], depth + 1, more));
      SqueezedEntry(entries[0], depth + 1, more);
      SqueezedEntries(entries[1..], depth, rest);
    }
  }

  lemma {:induction false} SqueezedEntries(entries: seq<Entry>, depth: nat, rest: string)
    requires forall e :: e in entries ==> WellFormed(e.value)
    ensures Squeeze(PrettyEntries(entries, depth, rest)) == MoreEntries(entries, Squeeze(rest))
    decreases entries, 0
  {
    if entries == [] {
      SqueezeNewLine(depth, ['}'] + rest);
      SqueezePlain(['}'], rest);
    } else {
      var more := PrettyEntries(entries[1..], depth, rest);
      SqueezePlain([','], NewLine(depth + 1) + PrettyEntry(entries[0], depth + 1, more));
      SqueezeNewLine(depth + 1, PrettyEntry(entries[0], depth + 1, more));
      SqueezedEntry(entries[0], depth + 1, more);
      SqueezedEntries(entries[1..], depth, rest);
    }
  }

  /** So different values have different pretty texts, too. */
  lemma PrettyTextIsInjective(a: Json, b: Json)
    requires WellFormed(a) && WellFormed(b)
    ensures PrettyText(a) == PrettyText(b) <==> a == b
  {
    if PrettyText(a) == PrettyText(b) {
      SqueezedIsCompact(a, 0, []);
      SqueezedIsCompact(b, 0, []);
      CompactTextIsInjective(a, b);
    }
  }
}
