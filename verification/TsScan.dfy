/** The TypeScript scanner of export.rs: splitting a union or a field list at its
    top-level delimiters, filtering the parts and joining the survivors. */
module TsScan {
  import opened Wrappers
  import opened Text

  // ---------------------------------------------------------------- scan state

  /** Bracket depths, and the string literal the scan is inside of, if any. */
  datatype Scan = Scan(brace: nat, bracket: nat, paren: nat, angle: nat, quote: Option<char>, escape: bool)
  {
    predicate TopLevel() {
      brace == 0 && bracket == 0 && paren == 0 && angle == 0
    }

    predicate Neutral() {
      quote.None? && TopLevel()
    }

    /** `escape` is only ever set inside a string literal, and only quotes open one. */
    predicate Sane() {
      if quote.None? then !escape else quote.value == '"' || quote.value == '\''
    }
  }

  const Initial := Scan(0, 0, 0, 0, None, false)

  function Less(depth: nat): nat {
    if depth == 0 then 0 else depth - 1
  }

  function After(s: Scan, c: char): Scan {
    if s.quote.Some? then
      if s.escape then s.(escape := false)
      else if c == '\\' then s.(escape := true)
      else if c == s.quote.value then s.(quote := None)
      else s
    else match c
      case '"' => s.(quote := Some(c))
      case '\'' => s.(quote := Some(c))
      case '{' => s.(brace := s.brace + 1)
      case '}' => s.(brace := Less(s.brace))
      case '[' => s.(bracket := s.bracket + 1)
      case ']' => s.(bracket := Less(s.bracket))
      case '(' => s.(paren := s.paren + 1)
      case ')' => s.(paren := Less(s.paren))
      case '<' => s.(angle := s.angle + 1)
      case '>' => s.(angle := Less(s.angle))
      case _ => s
  }

  function Depth(i: int): nat {
    if i < 0 then 0 else i
  }

  /** The scanner as the source keeps it: fields updated one character at a time. */
  class ScanState {
    var brace: int
    var bracket: int
    var paren: int
    var angle: int
    var stringDelim: Option<char>
    var escape: bool

    ghost predicate Valid()
      reads this
    {
      brace >= 0 && bracket >= 0 && paren >= 0 && angle >= 0 && View().Sane()
    }

    ghost function View(): Scan
      reads this
    {
      Scan(Depth(brace), Depth(bracket), Depth(paren), Depth(angle), stringDelim, escape)
    }

    constructor ()
      ensures Valid() && View() == Initial
    {
      brace, bracket, paren, angle, stringDelim, escape := 0, 0, 0, 0, None, false;
    }

    method Observe(ch: char)
      requires Valid()
      modifies this
      ensures Valid() && View() == After(old(View()), ch)
    {
      if stringDelim.Some? {
        if escape {
          escape := false;
          return;
        }
        if ch == '\\' {
          escape := true;
          return;
        }
        if ch == stringDelim.value {
          stringDelim := None;
        }
        return;
      }
      match ch {
        case '"' => stringDelim := Some(ch);
        case '\'' => stringDelim := Some(ch);
        case '{' => brace := brace + 1;
        case '}' => brace := if brace - 1 > 0 then brace - 1 else 0;
        case '[' => bracket := bracket + 1;
        case ']' => bracket := if bracket - 1 > 0 then bracket - 1 else 0;
        case '(' => paren := paren + 1;
        case ')' => paren := if paren - 1 > 0 then paren - 1 else 0;
        case '<' => angle := angle + 1;
        case '>' =>
          if angle > 0 {
            angle := angle - 1;
          }
        case _ =>
      }
    }

    method AtTopLevel() returns (b: bool)
      requires Valid()
      ensures b == View().Neutral()
    {
      b := stringDelim.None? && brace == 0 && bracket == 0 && paren == 0 && angle == 0;
    }
  }

  // ------------------------------------------------------------------ splitting

  predicate Cuts(s: Scan, c: char, delimiters: set<char>) {
    s.Neutral() && c in delimiters
  }

  function Prefixed(p: string, raw: seq<string>): seq<string>
    requires raw != []
  {
    [p + raw[0]] + raw[1..]
  }

  lemma PrefixedByNothing(raw: seq<string>)
    requires raw != []
    ensures Prefixed([], raw) == raw
  {
    assert [] + raw[0] == raw[0];
  }

  lemma PrefixedTwice(c: char, p: string, raw: seq<string>)
    requires raw != []
    ensures Prefixed([c], Prefixed(p, raw)) == Prefixed([c] + p, raw)
  {
    assert [c] + (p + raw[0]) == ([c] + p) + raw[0];
  }

  /** The stretches between the top-level delimiters of a text read from state `s`. */
  function RawPieces(s: Scan, input: string, delimiters: set<char>): (raw: seq<string>)
    ensures raw != []
    decreases input
  {
    if input == [] then [[]]
    else
      var rest := RawPieces(After(s, input[0]), input[1..], delimiters);
      if Cuts(s, input[0], delimiters) then [[]] + rest else Prefixed([input[0]], rest)
  }

  /** Trimmed, without the pieces that trim to nothing. */
  function Cleaned(raw: seq<string>): seq<string> {
    if raw == [] then []
    else if Trim(raw[0]) == [] then Cleaned(raw[1..])
    else [Trim(raw[0])] + Cleaned(raw[1..])
  }

  function Split(input: string, delimiters: set<char>): seq<string> {
    Cleaned(RawPieces(Initial, input, delimiters))
  }

  lemma CleanedCons(piece: string, raw: seq<string>)
    ensures Cleaned([piece] + raw) == if Trim(piece) == [] then Cleaned(raw) else [Trim(piece)] + Cleaned(raw)
  {
    assert ([piece] + raw)[1..] == raw;
  }

  /** `index` characters are read: `parts` are the finished parts, and the current piece began at `start`. */
  ghost predicate SplitSoFar(input: string, delimiters: set<char>, parts: seq<string>, start: int, index: int, s: Scan) {
    && 0 <= start <= index <= |input|
    && Split(input, delimiters)
       == parts + Cleaned(Prefixed(input[start..index], RawPieces(s, input[index..], delimiters)))
  }

  function Appended(parts: seq<string>, part: string): seq<string> {
    if part == [] then parts else parts + [part]
  }

  lemma SplitStart(input: string, delimiters: set<char>)
    ensures SplitSoFar(input, delimiters, [], 0, 0, Initial)
  {
    assert input[0..] == input && input[0..0] == [];
    PrefixedByNothing(RawPieces(Initial, input, delimiters));
    assert [] + Split(input, delimiters) == Split(input, delimiters);
  }

  lemma RawStep(s: Scan, input: string, delimiters: set<char>)
    requires input != []
    ensures var rest := RawPieces(After(s, input[0]), input[1..], delimiters);
            RawPieces(s, input, delimiters) == if Cuts(s, input[0], delimiters) then [[]] + rest else Prefixed([input[0]], rest)
  {
  }

  lemma SplitCut(input: string, delimiters: set<char>, parts: seq<string>, start: int, index: int, s: Scan)
    requires SplitSoFar(input, delimiters, parts, start, index, s) && index < |input| && Cuts(s, input[index], delimiters)
    ensures SplitSoFar(input, delimiters, Appended(parts, Trim(input[start..index])), index + 1, index + 1, After(s, input[index]))
  {
    hide Split, Trim, Cuts, After, Cleaned, RawPieces, Prefixed, Appended;
    var ahead := input[index..];
    assert ahead[0] == input[index] && ahead[1..] == input[index + 1..];
    assert input[index + 1..index + 1] == [];
    RawStep(s, ahead, delimiters);
    CutPieces(parts, input[start..index], RawPieces(After(s, input[index]), input[index + 1..], delimiters));
  }

  lemma CutPieces(parts: seq<string>, piece: string, rest: seq<string>)
    requires rest != []
    ensures parts + Cleaned(Prefixed(piece, [[]] + rest)) == Appended(parts, Trim(piece)) + Cleaned(Prefixed([], rest))
  {
    hide Trim, Cleaned;
    assert piece + [] == piece;
    assert Prefixed(piece, [[]] + rest) == [piece] + rest;
    CleanedCons(piece, rest);
    PrefixedByNothing(rest);
  }

  lemma SplitGrow(input: string, delimiters: set<char>, parts: seq<string>, start: int, index: int, s: Scan)
    requires SplitSoFar(input, delimiters, parts, start, index, s) && index < |input| && !Cuts(s, input[index], delimiters)
    ensures SplitSoFar(input, delimiters, parts, start, index + 1, After(s, input[index]))
  {
    hide Split, Trim, Cuts, After, Cleaned, RawPieces;
    var c, piece := input[index], input[start..index];
    var ahead := input[index..];
    RawStep(s, ahead, delimiters);
    assert ahead[0] == c && ahead[1..] == input[index + 1..] && piece + [c] == input[start..index + 1];
    var rest := RawPieces(After(s, c), input[index + 1..], delimiters);
    assert Prefixed(piece, Prefixed([c], rest)) == Prefixed(piece + [c], rest) by {
      assert piece + ([c] + rest[0]) == (piece + [c]) + rest[0];
    }
  }

  lemma SplitEnd(input: string, delimiters: set<char>, parts: seq<string>, start: int, s: Scan)
    requires SplitSoFar(input, delimiters, parts, start, |input|, s)
    ensures Split(input, delimiters) == Appended(parts, Trim(input[start..]))
  {
    assert input[|input|..] == [] && input[start..|input|] == input[start..];
    assert input[start..] + [] == input[start..];
    assert Prefixed(input[start..], [[]]) == [input[start..]];
    CleanedOne(input[start..]);
  }

  method SplitTopLevelMulti(input: string, delimiters: set<char>) returns (parts: seq<string>)
    ensures parts == Split(input, delimiters)
  {
    hide Split, SplitSoFar, Trim, After;
    var state := new ScanState();
    var start := 0;
    parts := [];
    SplitStart(input, delimiters);
    for index := 0 to |input|
      invariant state.Valid() && fresh(state) && start <= index
      invariant SplitSoFar(input, delimiters, parts, start, index, state.View())
    {
      var ch := input[index];
      var atTopLevel := state.AtTopLevel();
      if atTopLevel && ch in delimiters {
        SplitCut(input, delimiters, parts, start, index, state.View());
        var part := Trim(input[start..index]);
        if part != [] {
          parts := parts + [part];
        }
        start := index + 1;
      } else {
        SplitGrow(input, delimiters, parts, start, index, state.View());
      }
      state.Observe(ch);
    }
    SplitEnd(input, delimiters, parts, start, state.View());
    var tail := Trim(input[start..]);
    if tail != [] {
      parts := parts + [tail];
    }
  }

  /** Puts the delimiters back between the pieces. */
  function Weave(raw: seq<string>, cuts: string): string
    requires |raw| == |cuts| + 1
  {
    if cuts == [] then raw[0] else raw[0] + [cuts[0]] + Weave(raw[1..], cuts[1..])
  }

  /** Splitting loses nothing: the pieces and the delimiters between them are the text. */
  lemma {:induction false} SplittingCovers(s: Scan, input: string, delimiters: set<char>) returns (cuts: string)
    ensures |RawPieces(s, input, delimiters)| == |cuts| + 1
    ensures forall i :: 0 <= i < |cuts| ==> cuts[i] in delimiters
    ensures Weave(RawPieces(s, input, delimiters), cuts) == input
    decreases input
  {
    if input == [] {
      cuts := [];
    } else {
      cuts := SplittingCovers(After(s, input[0]), input[1..], delimiters);
      if Cuts(s, input[0], delimiters) {
        cuts := [input[0]] + cuts;
        assert cuts[1..] == cuts[1..] && RawPieces(s, input, delimiters)[1..]
               == RawPieces(After(s, input[0]), input[1..], delimiters);
      }
    }
  }

  // ----------------------------------------------------------------- stable lists

  function Run(s: Scan, t: string): Scan
    decreases t
  {
    if t == [] then s else Run(After(s, t[0]), t[1..])
  }

  predicate NoCut(s: Scan, t: string, delimiters: set<char>)
    decreases t
  {
    t == [] || (!Cuts(s, t[0], delimiters) && NoCut(After(s, t[0]), t[1..], delimiters))
  }

  /** Delimiters that are neither brackets, quotes nor whitespace, as '|', ',' and ';' are. */
  predicate Inert(delimiters: set<char>) {
    forall d :: d in delimiters ==> After(Initial, d) == Initial && !IsWhitespace(d)
  }

  predicate Arm(t: string, delimiters: set<char>) {
    t != [] && !IsWhitespace(t[0]) && !IsWhitespace(t[|t| - 1]) && NoCut(Initial, t, delimiters)
  }

  predicate Closed(t: string) {
    Run(Initial, t) == Initial
  }

  /** Arms that survive being joined: only the last one may leave a bracket or a string open. */
  predicate Stable(parts: seq<string>, delimiters: set<char>) {
    parts == [] || (Arm(parts[0], delimiters) && (|parts| > 1 ==> Closed(parts[0])) && Stable(parts[1..], delimiters))
  }

  predicate StableRaw(raw: seq<string>, delimiters: set<char>) {
    raw == [] || (NoCut(Initial, raw[0], delimiters) && (|raw| > 1 ==> Closed(raw[0])) && StableRaw(raw[1..], delimiters))
  }

  lemma {:induction false} RunConcat(s: Scan, a: string, b: string, delimiters: set<char>)
    ensures Run(s, a + b) == Run(Run(s, a), b)
    ensures NoCut(s, a + b, delimiters) <==> NoCut(s, a, delimiters) && NoCut(Run(s, a), b, delimiters)
    decreases a
  {
    if a == [] {
      assert a + b == b;
    } else {
      assert (a + b)[1..] == a[1..] + b;
      RunConcat(After(s, a[0]), a[1..], b, delimiters);
    }
  }

  lemma {:induction false} RunKeepsSane(s: Scan, t: string)
    requires s.Sane()
    ensures Run(s, t).Sane()
    decreases t
  {
    if t != [] {
      RunKeepsSane(After(s, t[0]), t[1..]);
    }
  }

  function Count(c: char, t: string): nat {
    if t == [] then 0 else (if t[0] == c then 1 else 0) + Count(c, t[1..])
  }

  function Balance(open: char, close: char, t: string): int {
    Count(open, t) - Count(close, t)
  }

  predicate IsPair(open: char, close: char) {
    (open == '{' && close == '}') || (open == '[' && close == ']') || (open == '(' && close == ')') || (open == '<' && close == '>')
  }

  function DepthOf(s: Scan, open: char): nat {
    match open case '{' => s.brace case '[' => s.bracket case '(' => s.paren case _ => s.angle
  }

  lemma {:induction false} CountAppend(c: char, t: string, d: char)
    ensures Count(c, t + [d]) == Count(c, t) + if d == c then 1 else 0
  {
    if t == [] {
      assert t + [d] == [d] && [d][1..] == [];
    } else {
      assert (t + [d])[1..] == t[1..] + [d];
      CountAppend(c, t[1..], d);
    }
  }

  /** Outside strings the depth of each kind of bracket is the largest surplus of opening ones over closing ones in what was
      read last, from anywhere on: a closing one without its opening one counts for nothing. */
  lemma {:induction false} DepthIsSurplus(t: string, open: char, close: char)
    requires IsPair(open, close) && '"' !in t && '\'' !in t
    ensures Run(Initial, t).quote == None
    ensures forall k :: 0 <= k <= |t| ==> Balance(open, close, t[k..]) <= DepthOf(Run(Initial, t), open)
    ensures exists k :: 0 <= k <= |t| && Balance(open, close, t[k..]) == DepthOf(Run(Initial, t), open)
  {
    if t == [] {
      assert t[0..] == [];
    } else {
      var last := |t| - 1;
      var before, c := t[..last], t[last];
      assert before + [c] == t;
      DepthIsSurplus(before, open, close);
      RunConcat(Initial, before, [c], {});
      assert [c][1..] == [];
      forall k | 0 <= k <= last ensures Balance(open, close, t[k..])
        == Balance(open, close, before[k..]) + (if c == open then 1 else if c == close then -1 else 0)
      {
        assert t[k..] == before[k..] + [c];
        CountAppend(open, before[k..], c);
        CountAppend(close, before[k..], c);
      }
      assert t[|t|..] == [] && Balance(open, close, t[|t|..]) == 0;
      DepthAfter(Run(Initial, before), c, open, close);
      var k :| 0 <= k <= last && Balance(open, close, before[k..]) == DepthOf(Run(Initial, before), open);
      if c == close && DepthOf(Run(Initial, before), open) == 0 {
        assert Balance(open, close, t[|t|..]) == DepthOf(Run(Initial, t), open);
      } else {
        assert Balance(open, close, t[k..]) == DepthOf(Run(Initial, t), open);
      }
    }
  }

  lemma DepthAfter(s: Scan, c: char, open: char, close: char)
    requires IsPair(open, close) && s.quote.None? && c != '"' && c != '\''
    ensures After(s, c).quote.None?
    ensures DepthOf(After(s, c), open)
            == if c == open then DepthOf(s, open) + 1 else if c == close then Less(DepthOf(s, open)) else DepthOf(s, open)
  {
  }

  /** The inside of a string literal: no quote like those around it, unless behind a backslash. */
  predicate IsLiteral(body: string, quote: char)
    decreases |body|
  {
    if body == [] then true
    else if body[0] == '\\' then |body| > 1 && IsLiteral(body[2..], quote)
    else body[0] != quote && IsLiteral(body[1..], quote)
  }

  lemma {:induction false} InLiteral(s: Scan, body: string, quote: char)
    requires s.quote == Some(quote) && !s.escape && quote != '\\' && IsLiteral(body, quote)
    ensures Run(s, body) == s
    decreases |body|
  {
    if body != [] {
      if body[0] == '\\' {
        assert body[1..][1..] == body[2..];
        assert After(After(s, body[0]), body[1]) == s;
        InLiteral(s, body[2..], quote);
      } else {
        InLiteral(s, body[1..], quote);
      }
    }
  }

  /** A string literal leaves the scan as it was, whatever brackets, delimiters and escaped quotes are in it. */
  lemma LiteralsAreSkipped(s: Scan, body: string, quote: char)
    requires s.quote.None? && s.Sane() && quote in {'"', '\''} && IsLiteral(body, quote)
    ensures Run(s, [quote] + body + [quote]) == s
  {
    var inside := After(s, quote);
    InLiteral(inside, body, quote);
    RunConcat(s, [quote], body + [quote], {});
    RunConcat(inside, body, [quote], {});
    assert [quote][1..] == [] && [quote] + body + [quote] == [quote] + (body + [quote]);
    assert Run(s, [quote]) == inside && Run(inside, [quote]) == s;
  }

  /** No depth ever exceeds the length of the text, so the source's 32-bit depths suffice for any text shorter than 2^31. */
  lemma {:induction false} DepthsFit(s: Scan, t: string)
    ensures var r := Run(s, t);
            && r.brace <= s.brace + |t| && r.bracket <= s.bracket + |t|
            && r.paren <= s.paren + |t| && r.angle <= s.angle + |t|
    decreases t
  {
    if t != [] {
      DepthsFit(After(s, t[0]), t[1..]);
    }
  }

  /** Whitespace neither opens nor closes anything. */
  lemma {:induction false} WhitespaceIsInert(s: Scan, w: string, delimiters: set<char>)
    requires AllWhitespace(w) && s.Sane() && Inert(delimiters)
    ensures s == Initial ==> Run(s, w) == Initial
    ensures Run(s, w) == Initial ==> s == Initial
    ensures NoCut(s, w, delimiters)
    decreases w
  {
    if w != [] {
      assert IsWhitespace(w[0]);
      WhitespaceIsInert(After(s, w[0]), w[1..], delimiters);
    }
  }

  lemma {:induction false} RawPiecesAreStable(s: Scan, input: string, delimiters: set<char>)
    requires s.Sane() && Inert(delimiters)
    ensures var raw := RawPieces(s, input, delimiters);
            && NoCut(s, raw[0], delimiters) && (|raw| > 1 ==> Run(s, raw[0]) == Initial)
            && StableRaw(raw[1..], delimiters)
    decreases input
  {
    if input != [] {
      RawPiecesAreStable(After(s, input[0]), input[1..], delimiters);
      var raw := RawPieces(s, input, delimiters);
      var rest := RawPieces(After(s, input[0]), input[1..], delimiters);
      if Cuts(s, input[0], delimiters) {
        assert s == Initial;
        assert raw[1..] == rest;
      } else {
        assert raw[0][1..] == rest[0] && raw[1..] == rest[1..];
      }
    }
  }

  lemma TrimmedArm(t: string, delimiters: set<char>)
    requires Inert(delimiters) && NoCut(Initial, t, delimiters) && Trim(t) != []
    ensures Arm(Trim(t), delimiters)
    ensures Closed(t) ==> Closed(Trim(t))
  {
    var left, right := TrimSplits(t);
    var core := Trim(t);
    CoreIsArm(left, core, right, delimiters);
  }

  lemma CoreIsArm(left: string, core: string, right: string, delimiters: set<char>)
    requires Inert(delimiters) && AllWhitespace(left) && AllWhitespace(right)
    requires NoCut(Initial, left + core + right, delimiters)
    ensures NoCut(Initial, core, delimiters)
    ensures Closed(left + core + right) ==> Closed(core)
  {
    WhitespaceIsInert(Initial, left, delimiters);
    RunConcat(Initial, left + core, right, delimiters);
    RunConcat(Initial, left, core, delimiters);
    RunKeepsSane(Initial, core);
    WhitespaceIsInert(Run(Initial, core), right, delimiters);
  }

  lemma StableCons(arm: string, rest: seq<string>, delimiters: set<char>)
    requires Arm(arm, delimiters) && Stable(rest, delimiters) && (rest != [] ==> Closed(arm))
    ensures Stable([arm] + rest, delimiters)
  {
    assert ([arm] + rest)[1..] == rest;
  }

  lemma {:induction false} CleanedIsStable(raw: seq<string>, delimiters: set<char>)
    requires Inert(delimiters) && StableRaw(raw, delimiters)
    ensures Stable(Cleaned(raw), delimiters)
    ensures |Cleaned(raw)| <= |raw|
  {
    if raw != [] {
      CleanedIsStable(raw[1..], delimiters);
      if Trim(raw[0]) != [] {
        TrimmedArm(raw[0], delimiters);
        StableCons(Trim(raw[0]), Cleaned(raw[1..]), delimiters);
      }
    }
  }

  /** Every split, of any text, balanced or not, is a stable list of arms. */
  lemma SplitIsStable(input: string, delimiters: set<char>)
    requires Inert(delimiters)
    ensures Stable(Split(input, delimiters), delimiters)
  {
    RawPiecesAreStable(Initial, input, delimiters);
    CleanedIsStable(RawPieces(Initial, input, delimiters), delimiters);
  }

  // ------------------------------------------------------------- joining back

  function Join(parts: seq<string>, separator: string): string {
    if parts == [] then []
    else if |parts| == 1 then parts[0]
    else parts[0] + separator + Join(parts[1..], separator)
  }

  /** `" | "` and `", "`: one delimiter with whitespace around it. */
  predicate Separates(separator: string, delimiters: set<char>) {
    exists i :: 0 <= i < |separator| && Spaced(separator, i) && separator[i] in delimiters
  }

  predicate Spaced(separator: string, i: int)
    requires 0 <= i < |separator|
  {
    AllWhitespace(separator[..i]) && AllWhitespace(separator[i + 1..])
  }

  lemma {:induction false} NoCutIsOnePiece(s: Scan, t: string, rest: string, delimiters: set<char>)
    requires NoCut(s, t, delimiters)
    ensures RawPieces(s, t + rest, delimiters) == Prefixed(t, RawPieces(Run(s, t), rest, delimiters))
    decreases t
  {
    if t == [] {
      assert t + rest == rest;
      PrefixedByNothing(RawPieces(s, rest, delimiters));
    } else {
      assert (t + rest)[1..] == t[1..] + rest;
      NoCutIsOnePiece(After(s, t[0]), t[1..], rest, delimiters);
      PrefixedTwice(t[0], t[1..], RawPieces(Run(s, t), rest, delimiters));
      assert [t[0]] + t[1..] == t;
    }
  }

  lemma ArmIsOnePiece(arm: string, left: string, d: char, behind: string, delimiters: set<char>)
    requires Inert(delimiters) && Arm(arm, delimiters) && Closed(arm) && AllWhitespace(left) && d in delimiters
    ensures RawPieces(Initial, arm + left + ([d] + behind), delimiters)
         == [arm + left] + RawPieces(Initial, behind, delimiters)
  {
    WhitespaceIsInert(Initial, left, delimiters);
    RunConcat(Initial, arm, left, delimiters);
    NoCutIsOnePiece(Initial, arm + left, [d] + behind, delimiters);
    assert ([d] + behind)[1..] == behind;
    assert RawPieces(Initial, [d] + behind, delimiters) == [[]] + RawPieces(Initial, behind, delimiters);
    assert (arm + left) + [] == arm + left;
  }

  lemma LeadingWhitespaceInSplit(w: string, rest: string, delimiters: set<char>)
    requires Inert(delimiters) && AllWhitespace(w)
    ensures Split(w + rest, delimiters) == Split(rest, delimiters)
  {
    WhitespaceIsInert(Initial, w, delimiters);
    NoCutIsOnePiece(Initial, w, rest, delimiters);
    var raw := RawPieces(Initial, rest, delimiters);
    LeadingWhitespaceIsTrimmed(w, raw[0]);
    assert Prefixed(w, raw)[1..] == raw[1..];
  }

  lemma TrimmedBack(arm: string, right: string, delimiters: set<char>)
    requires Arm(arm, delimiters) && AllWhitespace(right)
    ensures Trim(arm + right) == arm
  {
    TrimIsUnique([], arm, right);
    assert [] + arm + right == arm + right;
  }

  lemma JoinedText(arm: string, left: string, d: char, right: string, rest: string)
    ensures arm + (left + [d] + right) + rest == arm + left + ([d] + (right + rest))
  {
  }

  /** A closed arm, a separator, then more text: the arm is split off whole. */
  lemma ArmIsSplitOff(arm: string, separator: string, rest: string, delimiters: set<char>)
    requires Inert(delimiters) && Arm(arm, delimiters) && Closed(arm) && Separates(separator, delimiters)
    ensures Split(arm + separator + rest, delimiters) == [arm] + Split(rest, delimiters)
  {
    var i :| 0 <= i < |separator| && Spaced(separator, i) && separator[i] in delimiters;
    var left, d, right := separator[..i], separator[i], separator[i + 1..];
    assert separator == left + [d] + right;
    JoinedText(arm, left, d, right, rest);
    ArmIsOnePiece(arm, left, d, right + rest, delimiters);
    TrimmedBack(arm, left, delimiters);
    CleanedCons(arm + left, RawPieces(Initial, right + rest, delimiters));
    LeadingWhitespaceInSplit(right, rest, delimiters);
  }

  lemma SplitOfOneArm(arm: string, delimiters: set<char>)
    requires Arm(arm, delimiters)
    ensures Split(arm, delimiters) == [arm]
  {
    assert arm + [] == arm;
    NoCutIsOnePiece(Initial, arm, [], delimiters);
    TrimmedBack(arm, [], delimiters);
    assert RawPieces(Initial, arm, delimiters) == [arm];
    CleanedOne(arm);
  }

  lemma CleanedOne(piece: string)
    ensures Cleaned([piece]) == Appended([], Trim(piece))
  {
    assert [piece][1..] == [];
    assert [Trim(piece)] + [] == [Trim(piece)];
  }

  /** Splitting undoes joining, on every stable list. */
  lemma {:induction false} SplitOfJoin(parts: seq<string>, separator: string, delimiters: set<char>)
    requires Inert(delimiters) && Separates(separator, delimiters) && Stable(parts, delimiters)
    ensures Split(Join(parts, separator), delimiters) == parts
  {
    hide Split, Separates, Inert, Arm, Closed;
    if |parts| == 0 {
      SplitOfNothing(delimiters);
    } else if |parts| == 1 {
      SplitOfOneArm(parts[0], delimiters);
      assert parts == [parts[0]];
    } else {
      ArmIsSplitOff(parts[0], separator, Join(parts[1..], separator), delimiters);
      SplitOfJoin(parts[1..], separator, delimiters);
      assert [parts[0]] + parts[1..] == parts;
    }
  }

  lemma SplitOfNothing(delimiters: set<char>)
    ensures Split([], delimiters) == []
  {
    TrimOfWhitespace([]);
    var raw: seq<string> := [[]];
    assert raw[1..] == [];
  }

  // ---------------------------------------------------------------- filtering

  function Filter(parts: seq<string>, keep: string -> bool): seq<string> {
    if parts == [] then []
    else if keep(parts[0]) then [parts[0]] + Filter(parts[1..], keep)
    else Filter(parts[1..], keep)
  }

  /** Split, filter, join: what both TypeScript filters do to a body. */
  function Filtered(body: string, delimiters: set<char>, separator: string, keep: string -> bool): string {
    Join(Filter(Split(body, delimiters), keep), separator)
  }

  lemma {:induction false} FilterKeepsStable(parts: seq<string>, keep: string -> bool, delimiters: set<char>)
    requires Stable(parts, delimiters)
    ensures Stable(Filter(parts, keep), delimiters)
    ensures |Filter(parts, keep)| <= |parts|
  {
    if parts != [] {
      FilterKeepsStable(parts[1..], keep, delimiters);
      if keep(parts[0]) {
        StableCons(parts[0], Filter(parts[1..], keep), delimiters);
      }
    }
  }

  lemma {:induction false} FilterFilter(parts: seq<string>, first: string -> bool, second: string -> bool, both: string -> bool)
    requires forall t :: both(t) == (first(t) && second(t))
    ensures Filter(Filter(parts, first), second) == Filter(parts, both)
  {
    if parts != [] {
      FilterFilter(parts[1..], first, second, both);
      var p, kept := parts[0], Filter(parts[1..], first);
      if first(p) {
        assert ([p] + kept)[0] == p && ([p] + kept)[1..] == kept;
      }
    }
  }

  /** Splitting what was filtered gives back exactly the surviving arms: same text, same order. */
  lemma SurvivingArmsAreKept(body: string, delimiters: set<char>, separator: string, keep: string -> bool)
    requires Inert(delimiters) && Separates(separator, delimiters)
    ensures Split(Filtered(body, delimiters, separator, keep), delimiters) == Filter(Split(body, delimiters), keep)
  {
    SplitIsStable(body, delimiters);
    FilterKeepsStable(Split(body, delimiters), keep, delimiters);
    SplitOfJoin(Filter(Split(body, delimiters), keep), separator, delimiters);
  }

  /** Two filters in a row are one filter, and so a filter applied twice is the filter applied once. */
  lemma FilteringComposes(body: string, delimiters: set<char>, separator: string, first: string -> bool, second: string -> bool)
    requires Inert(delimiters) && Separates(separator, delimiters)
    ensures Filtered(Filtered(body, delimiters, separator, first), delimiters, separator, second)
         == Filtered(body, delimiters, separator, t => first(t) && second(t))
    ensures Filtered(Filtered(body, delimiters, separator, first), delimiters, separator, first)
         == Filtered(body, delimiters, separator, first)
  {
    var parts := Split(body, delimiters);
    SurvivingArmsAreKept(body, delimiters, separator, first);
    FilterFilter(parts, first, second, t => first(t) && second(t));
    FilterFilter(parts, first, first, first);
  }

  /** The delimiters and separators the two TypeScript filters use meet the requirements above. */
  lemma SourceSeparators()
    ensures Inert({'|'}) && Separates(" | ", {'|'})
    ensures Inert({',', ';'}) && Separates(", ", {',', ';'})
  {
    assert Spaced(" | ", 1) && " | "[1] == '|';
    assert Spaced(", ", 0) && ", "[0] == ',';
  }

  // ----------------------------------------------------------- the union file

  /** `type X = body;`: everything up to the first '=', the body, and the last ';' onwards. */
  datatype Alias = Alias(prefix: string, body: string, suffix: string)
  {
    function Text(): string { prefix + body + suffix }
  }

  function SplitTypeAlias(content: string): Option<Alias> {
    var eq := IndexOf(content, '=', 0);
    var semi := AfterLast(content, ';', |content|) - 1;
    if eq == |content| || semi < 0 || semi <= eq then None
    else Some(Alias(content[..eq + 1], content[eq + 1..semi], content[semi..]))
  }

  function FilteredUnion(content: string, keep: string -> bool): string {
    match SplitTypeAlias(content)
    case None => content
    case Some(alias) => alias.(body := Filtered(alias.body, {'|'}, " | ", keep)).Text()
  }

  /** `filter_client_request_ts_contents` up to its import pruning; `keep` stands for the test of an arm's method. */
  method FilterClientRequestContents(content: string, keep: string -> bool) returns (r: string)
    ensures r == FilteredUnion(content, keep)
  {
    var alias := SplitTypeAlias(content);
    if alias.None? {
      return content;
    }
    var arms := SplitTopLevelMulti(alias.value.body, {'|'});
    var newBody := Join(Filter(arms, keep), " | ");
    r := alias.value.prefix + newBody + alias.value.suffix;
  }

  /** Replacing the body of an alias leaves the same alias around the new body. */
  lemma SplitOfNewBody(content: string, body: string)
    requires SplitTypeAlias(content).Some?
    ensures var alias := SplitTypeAlias(content).value;
            SplitTypeAlias(alias.(body := body).Text()) == Some(alias.(body := body))
  {
    var alias := SplitTypeAlias(content).value;
    AliasOf(alias.prefix, body, alias.suffix);
  }

  lemma AliasOf(prefix: string, body: string, suffix: string)
    requires prefix != [] && prefix[|prefix| - 1] == '=' && forall j :: 0 <= j < |prefix| - 1 ==> prefix[j] != '='
    requires suffix != [] && suffix[0] == ';' && forall j :: 0 < j < |suffix| ==> suffix[j] != ';'
    ensures SplitTypeAlias(prefix + body + suffix) == Some(Alias(prefix, body, suffix))
  {
    var s, last := prefix + body + suffix, |prefix + body|;
    assert forall j :: 0 <= j < |prefix| ==> s[j] == prefix[j];
    assert forall j :: last <= j < |s| ==> s[j] == suffix[j - last];
    assert IndexOf(s, '=', 0) == |prefix| - 1;
    assert s[last] == ';';
    assert AfterLast(s, ';', |s|) == last + 1;
    assert s[..|prefix|] == prefix && s[|prefix|..last] == body && s[last..] == suffix;
  }

  /** Filtering a whole union file twice is filtering it once, and the second pass sees the survivors of the first. */
  lemma FilteringUnionTwice(content: string, keep: string -> bool)
    ensures FilteredUnion(FilteredUnion(content, keep), keep) == FilteredUnion(content, keep)
    ensures SplitTypeAlias(content).Some? ==>
              && SplitTypeAlias(FilteredUnion(content, keep))
                 == Some(SplitTypeAlias(content).value.(body := Join(Filter(Split(SplitTypeAlias(content).value.body, {'|'}), keep), " | ")))
              && Split(SplitTypeAlias(FilteredUnion(content, keep)).value.body, {'|'})
                 == Filter(Split(SplitTypeAlias(content).value.body, {'|'}), keep)
  {
    if SplitTypeAlias(content).Some? {
      var alias := SplitTypeAlias(content).value;
      var body := Filtered(alias.body, {'|'}, " | ", keep);
      SplitOfNewBody(content, body);
      SourceSeparators();
      SurvivingArmsAreKept(alias.body, {'|'}, " | ", keep);
      FilteringComposes(alias.body, {'|'}, " | ", keep, keep);
    }
  }
}
