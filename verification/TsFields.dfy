/** Filtering the fields of a generated TypeScript type: the braces around them are found by a scan of the file, and found
    again around what is left. */
module TsFields {
  import opened Wrappers
  import opened Text
  import opened TsScan

  const FieldDelimiters := {',', ';'}
  const InterfaceMarker := "export interface"

  // ---------------------------------------------------------------- finding the braces

  predicate At(s: string, t: string, j: nat) {
    j + |t| <= |s| && s[j..j + |t|] == t
  }

  /** `str::find` for a string, from `i` on. */
  function FindText(s: string, t: string, i: nat): (r: Option<nat>)
    requires i <= |s|
    ensures match r
            case Some(j) => i <= j && At(s, t, j) && forall k: nat :: i <= k < j ==> !At(s, t, k)
            case None => forall k: nat :: i <= k ==> !At(s, t, k)
    decreases |s| - i
  {
    if At(s, t, i) then Some(i) else if i == |s| then None else FindText(s, t, i + 1)
  }

  /** Where the scan for the braces begins: behind the first '=', or else behind `export interface`. */
  function ScanStart(content: string): (r: Option<nat>)
    ensures r.Some? ==> r.value <= |content|
  {
    var eq := IndexOf(content, '=', 0);
    if eq < |content| then Some(eq + 1)
    else match FindText(content, InterfaceMarker, 0)
      case Some(m) => Some(m + |InterfaceMarker|)
      case None => None
  }

  function Opened(s: Scan, c: char, i: nat, open: Option<nat>): Option<nat> {
    if s.Neutral() && c == '{' then Some(i) else open
  }

  predicate Shuts(s: Scan, c: char, open: Option<nat>) {
    After(s, c).Neutral() && c == '}' && open.Some?
  }

  /** `find_top_level_brace_span`, from state `s` at index `i`: the first '}' that brings the scan back to the top level
      behind a '{' that left it, with the last such '{'. */
  function SpanFrom(s: Scan, input: string, i: nat, open: Option<nat>): (r: Option<(nat, nat)>)
    requires i <= |input| && (open.Some? ==> open.value < i)
    ensures r.Some? ==> (open == Some(r.value.0) || i <= r.value.0) && r.value.0 < r.value.1 < |input| && i <= r.value.1
    decreases |input| - i
  {
    if i == |input| then None
    else
      var open' := Opened(s, input[i], i, open);
      if Shuts(s, input[i], open') then Some((open'.value, i)) else SpanFrom(After(s, input[i]), input, i + 1, open')
  }

  method FindTopLevelBraceSpan(input: string, from: nat) returns (r: Option<(nat, nat)>)
    requires from <= |input|
    ensures r == SpanFrom(Initial, input, from, None)
  {
    var state := new ScanState();
    var openIndex: Option<nat> := None;
    for index := from to |input|
      invariant state.Valid() && fresh(state) && (openIndex.Some? ==> openIndex.value < index)
      invariant SpanFrom(state.View(), input, index, openIndex) == SpanFrom(Initial, input, from, None)
    {
      var ch := input[index];
      var atTopLevel := state.AtTopLevel();
      if ch == '{' && atTopLevel {
        openIndex := Some(index);
      }
      state.Observe(ch);
      atTopLevel := state.AtTopLevel();
      if ch == '}' && atTopLevel && openIndex.Some? {
        return Some((openIndex.value, index));
      }
    }
    return None;
  }

  /** The file up to and with the opening brace, the fields, and the file from the closing brace on. */
  function SplitTypeBody(content: string): Option<Alias> {
    match ScanStart(content)
    case None => None
    case Some(from) =>
      match SpanFrom(Initial, content, from, None)
      case None => None
      case Some(span) => Some(Alias(content[..span.0 + 1], content[span.0 + 1..span.1], content[span.1..]))
  }

  function FilteredFields(content: string, keep: string -> bool): string {
    match SplitTypeBody(content)
    case None => content
    case Some(t) => t.(body := Filtered(t.body, FieldDelimiters, ", ", keep)).Text()
  }

  /** `filter_experimental_type_fields_ts_contents` up to its import pruning; `keep` stands for the test of a field's name. */
  method FilterTypeFieldsContents(content: string, keep: string -> bool) returns (r: string)
    ensures r == FilteredFields(content, keep)
  {
    hide SpanFrom, ScanStart, Split, Filter, Join;
    var from := ScanStart(content);
    if from.None? { return content; }
    var span := FindTopLevelBraceSpan(content, from.value);
    if span.None? { return content; }
    var open, close := span.value.0, span.value.1;
    var fields := SplitTopLevelMulti(content[open + 1..close], FieldDelimiters);
    var newInner := Join(Filter(fields, keep), ", ");
    r := content[..open + 1] + newInner + content[close..];
  }

  // ---------------------------------------------------------- one level further in

  /** The same scan inside one more pair of braces. */
  function Up(s: Scan): Scan {
    s.(brace := s.brace + 1)
  }

  /** A '}' that closes nothing. */
  predicate Excess(s: Scan, c: char) {
    s.quote.None? && c == '}' && s.brace == 0
  }

  predicate NoExcess(s: Scan, t: string)
    decreases t
  {
    t == [] || (!Excess(s, t[0]) && NoExcess(After(s, t[0]), t[1..]))
  }

  /** A scan that may or may not count the outer brace: it does until a '}' closes nothing of its own. */
  function Lifted(up: bool, s: Scan): Scan {
    if up then Up(s) else s
  }

  lemma {:induction false} RunLifted(up: bool, s: Scan, t: string)
    ensures Run(Lifted(up, s), t) == Lifted(up && NoExcess(s, t), Run(s, t))
    decreases t
  {
    if t != [] {
      StepLifted(up, s, t[0]);
      RunLifted(up && !Excess(s, t[0]), After(s, t[0]), t[1..]);
    }
  }

  lemma StepLifted(up: bool, s: Scan, c: char)
    ensures After(Lifted(up, s), c) == Lifted(up && !Excess(s, c), After(s, c))
  {
  }

  lemma {:induction false} NoExcessConcat(s: Scan, a: string, b: string)
    ensures NoExcess(s, a + b) <==> NoExcess(s, a) && NoExcess(Run(s, a), b)
    decreases a
  {
    if a == [] {
      assert a + b == b;
    } else {
      assert (a + b)[1..] == a[1..] + b;
      NoExcessConcat(After(s, a[0]), a[1..], b);
    }
  }

  /** Text in which the scan neither opens anew, at the top level, nor comes back to it with a '}'. */
  predicate Inner(s: Scan, t: string)
    decreases t
  {
    t == []
    || (!(s.Neutral() && t[0] == '{') && !(After(s, t[0]).Neutral() && t[0] == '}') && Inner(After(s, t[0]), t[1..]))
  }

  /** ... and which the next '}' ends. */
  predicate Shut(s: Scan, t: string) {
    Inner(s, t) && After(Run(s, t), '}').Neutral()
  }

  lemma {:induction false} InnerConcat(s: Scan, a: string, b: string)
    ensures Inner(s, a + b) <==> Inner(s, a) && Inner(Run(s, a), b)
    decreases a
  {
    if a == [] {
      assert a + b == b;
    } else {
      assert (a + b)[1..] == a[1..] + b;
      InnerConcat(After(s, a[0]), a[1..], b);
    }
  }

  /** What is inner text without the outer brace is so with it. */
  lemma {:induction false} InnerUp(s: Scan, t: string)
    requires Inner(s, t)
    ensures Inner(Up(s), t)
    decreases t
  {
    if t != [] {
      StepLifted(true, s, t[0]);
      if !Excess(s, t[0]) {
        InnerUp(After(s, t[0]), t[1..]);
      }
    }
  }

  lemma {:induction false} WhitespaceIsInner(s: Scan, w: string)
    requires AllWhitespace(w) && s.Sane()
    ensures NoExcess(s, w) && Inner(s, w)
    ensures if s.quote.None? then Run(s, w) == s else Run(s, w).quote.Some?
    decreases w
  {
    if w != [] {
      assert IsWhitespace(w[0]) && AllWhitespace(w[1..]);
      WhitespaceIsInner(After(s, w[0]), w[1..]);
    }
  }

  // ------------------------------------------------------------- field by field

  /** Each part is inner text where it stands, the parts being closed. */
  predicate InnerAll(up: bool, parts: seq<string>)
    decreases |parts|
  {
    parts == [] || (Inner(Lifted(up, Initial), parts[0]) && InnerAll(up && NoExcess(Initial, parts[0]), parts[1..]))
  }

  /** The pieces of inner text; `s` is where the scan stands in the first, but for the outer brace. */
  lemma {:induction false} PiecesAreInner(up: bool, s: Scan, input: string)
    requires s.Sane() && Inner(Lifted(up, s), input)
    ensures var raw := RawPieces(s, input, FieldDelimiters);
            Inner(Lifted(up, s), raw[0]) && InnerAll(up && NoExcess(s, raw[0]), raw[1..])
    decreases input
  {
    if input != [] {
      var c := input[0];
      var rest := RawPieces(After(s, c), input[1..], FieldDelimiters);
      StepLifted(up, s, c);
      PiecesAreInner(up && !Excess(s, c), After(s, c), input[1..]);
      if Cuts(s, c, FieldDelimiters) {
        assert s == Initial && After(s, c) == Initial;
        assert ([[]] + rest)[1..] == rest;
      } else {
        assert ([c] + rest[0])[1..] == rest[0];
        assert Prefixed([c], rest)[1..] == rest[1..];
      }
    }
  }

  lemma TrimIsInner(up: bool, piece: string)
    requires Inner(Lifted(up, Initial), piece)
    ensures Inner(Lifted(up, Initial), Trim(piece))
    ensures NoExcess(Initial, Trim(piece)) <==> NoExcess(Initial, piece)
  {
    hide Trim, Inner, NoExcess, Run;
    var left, right := TrimSplits(piece);
    var core := Trim(piece);
    assert piece == left + (core + right);
    WhitespaceIsInner(Initial, left);
    WhitespaceIsInner(Lifted(up, Initial), left);
    InnerConcat(Lifted(up, Initial), left, core + right);
    InnerConcat(Lifted(up, Initial), core, right);
    NoExcessConcat(Initial, left, core + right);
    NoExcessConcat(Initial, core, right);
    RunKeepsSane(Initial, core);
    WhitespaceIsInner(Run(Initial, core), right);
  }

  lemma {:induction false} CleanedIsInner(up: bool, raw: seq<string>)
    requires InnerAll(up, raw)
    ensures InnerAll(up, Cleaned(raw))
    decreases |raw|
  {
    hide Trim;
    if raw != [] {
      TrimIsInner(up, raw[0]);
      CleanedIsInner(up && NoExcess(Initial, raw[0]), raw[1..]);
      if Trim(raw[0]) != [] {
        assert ([Trim(raw[0])] + Cleaned(raw[1..]))[1..] == Cleaned(raw[1..]);
      }
    }
  }

  /** With parts left out the outer brace may be counted for longer, which does no harm. */
  lemma {:induction false} FilterIsInner(up: bool, longer: bool, parts: seq<string>, keep: string -> bool)
    requires InnerAll(up, parts) && (up ==> longer)
    ensures InnerAll(longer, Filter(parts, keep))
    decreases |parts|
  {
    if parts != [] {
      var on := NoExcess(Initial, parts[0]);
      if keep(parts[0]) {
        if longer && !up { InnerUp(Initial, parts[0]); }
        FilterIsInner(up && on, longer && on, parts[1..], keep);
        assert ([parts[0]] + Filter(parts[1..], keep))[1..] == Filter(parts[1..], keep);
      } else {
        FilterIsInner(up && on, longer, parts[1..], keep);
      }
    }
  }

  lemma SeparatorIsInner(up: bool)
    ensures Inner(Lifted(up, Initial), ", ") && NoExcess(Initial, ", ")
    ensures Run(Lifted(up, Initial), ", ") == Lifted(up, Initial)
  {
    assert ", "[1..] == " " && " "[1..] == "";
  }

  lemma NothingIsInner(s: Scan)
    ensures Inner(s, [])
  {
  }

  /** Joined parts that are closed but for the last. */
  lemma {:induction false} JoinIsInner(up: bool, parts: seq<string>)
    requires InnerAll(up, parts) && Stable(parts, FieldDelimiters)
    ensures Inner(Lifted(up, Initial), Join(parts, ", "))
    decreases |parts|
  {
    hide Inner, NoExcess, Run, Arm;
    if parts == [] {
      NothingIsInner(Lifted(up, Initial));
    } else if |parts| > 1 {
      var on := up && NoExcess(Initial, parts[0]);
      var rest := Join(parts[1..], ", ");
      JoinIsInner(on, parts[1..]);
      RunLifted(up, Initial, parts[0]);
      SeparatorIsInner(on);
      InnerConcat(Lifted(on, Initial), ", ", rest);
      InnerConcat(Lifted(up, Initial), parts[0], ", " + rest);
      assert parts[0] + ", " + rest == parts[0] + (", " + rest);
    }
  }

  /** Where a scan of them ends, and whether some '}' closes nothing. */
  lemma {:induction false} JoinRuns(parts: seq<string>)
    requires Stable(parts, FieldDelimiters)
    ensures Run(Initial, Join(parts, ", ")) == if parts == [] then Initial else Run(Initial, parts[|parts| - 1])
    ensures NoExcess(Initial, Join(parts, ", ")) <==> forall f :: f in parts ==> NoExcess(Initial, f)
    decreases |parts|
  {
    hide Arm;
    if |parts| > 1 {
      var rest := Join(parts[1..], ", ");
      JoinRuns(parts[1..]);
      SeparatorIsInner(false);
      RunConcat(Initial, ", ", rest, {});
      NoExcessConcat(Initial, ", ", rest);
      RunConcat(Initial, parts[0], ", " + rest, {});
      NoExcessConcat(Initial, parts[0], ", " + rest);
      assert parts[0] + ", " + rest == parts[0] + (", " + rest);
      assert parts == [parts[0]] + parts[1..];
    }
  }

  lemma {:induction false} FilterKeeps(parts: seq<string>, keep: string -> bool)
    ensures forall f :: f in Filter(parts, keep) <==> f in parts && keep(f)
  {
    if parts != [] {
      FilterKeeps(parts[1..], keep);
      assert parts == [parts[0]] + parts[1..];
    }
  }

  /** If the last part is left out, or closed, only closed parts are left. */
  lemma {:induction false} FilterLast(parts: seq<string>, keep: string -> bool)
    requires parts != [] && Stable(parts, FieldDelimiters)
    ensures var last, kept := parts[|parts| - 1], Filter(parts, keep);
            if keep(last) then kept != [] && kept[|kept| - 1] == last else forall f :: f in kept ==> Closed(f)
  {
    hide Arm, Closed;
    if |parts| > 1 {
      FilterLast(parts[1..], keep);
    }
  }

  // ------------------------------------------------------------ where the fields end

  lemma {:induction false} RawEnds(s: Scan, input: string)
    requires s.Sane()
    ensures var raw := RawPieces(s, input, FieldDelimiters);
            Run(s, input) == if |raw| == 1 then Run(s, raw[0]) else Run(Initial, raw[|raw| - 1])
    decreases input
  {
    if input != [] {
      var c := input[0];
      var rest := RawPieces(After(s, c), input[1..], FieldDelimiters);
      RawEnds(After(s, c), input[1..]);
      if Cuts(s, c, FieldDelimiters) {
        assert s == Initial && After(s, c) == Initial;
      } else {
        assert ([c] + rest[0])[1..] == rest[0];
      }
    }
  }

  /** A '}' ends a piece where it ends the trimmed piece. */
  lemma TrimEnds(piece: string)
    requires After(Run(Initial, piece), '}').Neutral()
    ensures Run(Initial, piece) == Run(Initial, Trim(piece))
  {
    hide Trim, Run, After;
    var left, right := TrimSplits(piece);
    var core := Trim(piece);
    assert piece == left + (core + right);
    WhitespaceIsInner(Initial, left);
    RunConcat(Initial, left, core + right, {});
    RunConcat(Initial, core, right, {});
    RunKeepsSane(Initial, core);
    var s := Run(Initial, core);
    WhitespaceIsInner(s, right);
    assert Run(Initial, piece) == Run(s, right);
    RunKeepsSane(s, right);
    QuotesStay(Run(s, right));
  }

  lemma QuotesStay(s: Scan)
    requires s.Sane()
    ensures After(s, '}').Neutral() ==> s.quote.None?
  {
  }

  lemma {:induction false} CleanedEnds(raw: seq<string>)
    requires raw != [] && StableRaw(raw, FieldDelimiters)
    requires After(Run(Initial, raw[|raw| - 1]), '}').Neutral()
    ensures var parts := Cleaned(raw);
            parts != [] && !Closed(parts[|parts| - 1]) ==>
              Run(Initial, raw[|raw| - 1]) == Run(Initial, parts[|parts| - 1])
  {
    hide Trim, NoCut, Arm, Closed, Run;
    SourceSeparators();
    if |raw| == 1 {
      TrimEnds(raw[0]);
      assert raw[1..] == [];
    } else {
      CleanedEnds(raw[1..]);
      if Trim(raw[0]) != [] && Cleaned(raw[1..]) == [] {
        TrimmedArm(raw[0], FieldDelimiters);
      }
    }
  }

  // ------------------------------------------------------ the braces are found again

  /** Text that shares `input` up to its opening brace is scanned alike up to there. */
  lemma {:induction false} ReachesOpen(s: Scan, input: string, other: string, i: nat, open: Option<nat>, o: nat)
    requires s.Sane() && i <= o < |input| && o < |other| && input[..o + 1] == other[..o + 1]
    requires open.Some? ==> open.value < i
    requires SpanFrom(s, input, i, open).Some? && SpanFrom(s, input, i, open).value.0 == o
    ensures input[o] == '{'
    ensures SpanFrom(s, input, i, open) == SpanFrom(Up(Initial), input, o + 1, Some(o))
    ensures SpanFrom(s, other, i, open) == SpanFrom(Up(Initial), other, o + 1, Some(o))
    decreases o - i
  {
    var c := input[i];
    assert c == input[..o + 1][i] == other[i];
    var open' := Opened(s, c, i, open);
    assert !Shuts(s, c, open');
    if i == o {
      assert open' == Some(o);
      assert s == Initial;
    } else {
      ReachesOpen(After(s, c), input, other, i + 1, open', o);
    }
  }

  /** The scan ends at the '}' behind `body`, with the same opening brace, exactly when that '}' shuts it. */
  lemma {:induction false} SpanIffShut(s: Scan, input: string, i: nat, o: nat, body: string)
    requires o < i && i + |body| < |input| && input[i..i + |body|] == body && input[i + |body|] == '}'
    ensures SpanFrom(s, input, i, Some(o)) == Some((o, i + |body|)) <==> Shut(s, body)
    decreases body
  {
    if body != [] {
      var c := body[0];
      assert input[i] == input[i..i + |body|][0] == c;
      var next := i + 1;
      assert input[next..next + |body[1..]|] == input[i..i + |body|][1..] == body[1..];
      SpanIffShut(After(s, c), input, next, o, body[1..]);
    }
  }

  // -------------------------------------------------------- the scan starts where it did

  lemma {:induction false} PiecesHold(s: Scan, input: string, delimiters: set<char>, c: char)
    requires c !in input
    ensures forall p :: p in RawPieces(s, input, delimiters) ==> c !in p
    decreases input
  {
    if input != [] {
      PiecesHold(After(s, input[0]), input[1..], delimiters, c);
    }
  }

  lemma {:induction false} CleanedHold(raw: seq<string>, c: char)
    requires forall p :: p in raw ==> c !in p
    ensures forall p :: p in Cleaned(raw) ==> c !in p
  {
    if raw != [] {
      CleanedHold(raw[1..], c);
      var left, right := TrimSplits(raw[0]);
      assert c !in left + Trim(raw[0]) + right;
    }
  }

  lemma {:induction false} FilterHolds(parts: seq<string>, keep: string -> bool, c: char)
    requires forall p :: p in parts ==> c !in p
    ensures forall p :: p in Filter(parts, keep) ==> c !in p
  {
    if parts != [] {
      FilterHolds(parts[1..], keep, c);
    }
  }

  lemma {:induction false} JoinHolds(parts: seq<string>, separator: string, c: char)
    requires (forall p :: p in parts ==> c !in p) && c !in separator
    ensures c !in Join(parts, separator)
  {
    if |parts| > 1 {
      JoinHolds(parts[1..], separator, c);
    }
  }

  lemma FilteredHolds(body: string, keep: string -> bool, c: char)
    requires c !in body && c !in ", "
    ensures c !in Filtered(body, FieldDelimiters, ", ", keep)
  {
    PiecesHold(Initial, body, FieldDelimiters, c);
    CleanedHold(RawPieces(Initial, body, FieldDelimiters), c);
    FilterHolds(Split(body, FieldDelimiters), keep, c);
    JoinHolds(Filter(Split(body, FieldDelimiters), keep), ", ", c);
  }

  lemma SameStart(content: string, other: string, n: nat)
    requires n <= |content| && n <= |other| && content[..n] == other[..n]
    requires ScanStart(content).Some? && ScanStart(content).value <= n
    requires '=' !in content ==> '=' !in other
    ensures ScanStart(other) == ScanStart(content)
  {
    var eq := IndexOf(content, '=', 0);
    if eq < |content| {
      FirstIndex(content, other, n, eq);
    } else {
      SameMarker(content, other, n, InterfaceMarker);
    }
  }

  lemma SameMarker(content: string, other: string, n: nat, t: string)
    requires n <= |content| && n <= |other| && content[..n] == other[..n]
    requires FindText(content, t, 0).Some? && FindText(content, t, 0).value + |t| <= n
    ensures FindText(other, t, 0) == FindText(content, t, 0)
  {
    hide At;
    var m := FindText(content, t, 0).value;
    forall j: nat | j <= m ensures At(content, t, j) <==> At(other, t, j) {
      SameText(content, other, n, t, j);
    }
  }

  lemma FirstIndex(content: string, other: string, n: nat, eq: nat)
    requires n <= |content| && n <= |other| && content[..n] == other[..n]
    requires eq == IndexOf(content, '=', 0) && eq < n
    ensures IndexOf(other, '=', 0) == eq
  {
    forall j | 0 <= j < n ensures content[j] == other[j] {
      assert content[..n][j] == other[..n][j];
    }
    var at := IndexOf(other, '=', 0);
    assert at <= eq;
  }

  lemma SameText(content: string, other: string, n: nat, t: string, j: nat)
    requires n <= |content| && n <= |other| && content[..n] == other[..n] && j + |t| <= n
    ensures At(content, t, j) <==> At(other, t, j)
  {
    assert content[j..j + |t|] == content[..n][j..j + |t|] == other[..n][j..j + |t|] == other[j..j + |t|];
  }

  // ------------------------------------------------------------------- the round trip

  /** Whether a selection of fields keeps the braces where they are. A last field that leaves something open needs a '}'
      before or in it that closes nothing of its own; unless there is such a field, or the last one closes, or goes. */
  predicate KeepsBraces(fields: seq<string>, keep: string -> bool) {
    fields == [] || Closed(fields[|fields| - 1]) || !keep(fields[|fields| - 1])
    || exists f :: f in fields && keep(f) && !NoExcess(Initial, f)
  }

  /** In a type whose braces are found only the braces' own '}' shuts the fields. */
  lemma BodyIsShut(content: string, from: nat, o: nat, close: nat)
    requires from <= |content| && SpanFrom(Initial, content, from, None) == Some((o, close))
    ensures Shut(Up(Initial), content[o + 1..close]) && content[close] == '}'
  {
    hide SpanFrom, Shut;
    ReachesOpen(Initial, content, content, from, None, o);
    EndsInBrace(Up(Initial), content, o + 1, Some(o));
    SpanIffShut(Up(Initial), content, o + 1, o, content[o + 1..close]);
  }

  lemma {:induction false} EndsInBrace(s: Scan, input: string, i: nat, open: Option<nat>)
    requires i <= |input| && (open.Some? ==> open.value < i)
    ensures var span := SpanFrom(s, input, i, open); span.Some? ==> input[span.value.1] == '}'
    decreases |input| - i
  {
    if i < |input| {
      var open' := Opened(s, input[i], i, open);
      if !Shuts(s, input[i], open') {
        EndsInBrace(After(s, input[i]), input, i + 1, open');
      }
    }
  }

  /** A '}' shuts what counts the outer brace only if nothing else is open. */
  lemma ShutsOuter(s: Scan)
    requires s.Sane()
    ensures After(Up(s), '}').Neutral() <==> s == Initial
    ensures s == Initial ==> After(s, '}').Neutral()
  {
  }

  lemma BodyEnds(body: string)
    requires After(Run(Initial, body), '}').Neutral()
    ensures var fields := Split(body, FieldDelimiters);
            fields != [] && !Closed(fields[|fields| - 1]) ==> Run(Initial, body) == Run(Initial, fields[|fields| - 1])
  {
    hide Run, NoCut, After, Cleaned, RawPieces;
    SourceSeparators();
    RawEnds(Initial, body);
    RawPiecesAreStable(Initial, body, FieldDelimiters);
    var raw := RawPieces(Initial, body, FieldDelimiters);
    assert StableRaw(raw, FieldDelimiters);
    CleanedEnds(raw);
  }

  /** If the last field leaves something open, then so does the body, in the same way, behind some '}' too many. */
  lemma OpenLastField(body: string)
    requires Shut(Up(Initial), body)
    ensures var fields := Split(body, FieldDelimiters);
            fields != [] && !Closed(fields[|fields| - 1]) ==>
              Run(Initial, fields[|fields| - 1]) != Initial && After(Run(Initial, fields[|fields| - 1]), '}').Neutral()
  {
    hide NoExcess, Inner, Split, After;
    RunLifted(true, Initial, body);
    RunKeepsSane(Initial, body);
    ShutsOuter(Run(Initial, body));
    if After(Run(Initial, body), '}').Neutral() { BodyEnds(body); }
  }

  /** The fields kept are shut by the same '}' exactly when they keep the braces. */
  lemma FilteredIsShut(body: string, keep: string -> bool)
    requires Shut(Up(Initial), body)
    ensures Shut(Up(Initial), Filtered(body, FieldDelimiters, ", ", keep)) <==> KeepsBraces(Split(body, FieldDelimiters), keep)
  {
    hide Split, Filter, Join, Inner, InnerAll, NoExcess, Stable, Run, After;
    var fields := Split(body, FieldDelimiters);
    var kept := Filter(fields, keep);
    var joined := Join(kept, ", ");
    SourceSeparators();
    SplitIsStable(body, FieldDelimiters);
    FilterKeepsStable(fields, keep, FieldDelimiters);
    FieldsAreInner(body);
    FilterIsInner(true, true, fields, keep);
    JoinIsInner(true, kept);
    JoinRuns(kept);
    FilterKeeps(fields, keep);
    RunLifted(true, Initial, joined);
    RunKeepsSane(Initial, joined);
    ShutsOuter(Run(Initial, joined));
    NothingKept(keep);
    var end := Run(Initial, joined);
    assert Shut(Up(Initial), joined) <==> After(Lifted(NoExcess(Initial, joined), end), '}').Neutral();
    if fields == [] {
      assert kept == [] && end == Initial;
    } else {
      var last := fields[|fields| - 1];
      FilterLast(fields, keep);
      OpenLastField(body);
      if !keep(last) {
        assert kept != [] ==> Closed(kept[|kept| - 1]);
        assert end == Initial;
      } else if Closed(last) {
        assert end == Run(Initial, last) == Initial;
      } else {
        assert end == Run(Initial, last) && end != Initial;
      }
    }
  }

  lemma NothingKept(keep: string -> bool)
    ensures Filter([], keep) == []
  {
  }

  lemma FieldsAreInner(body: string)
    requires Shut(Up(Initial), body)
    ensures InnerAll(true, Split(body, FieldDelimiters))
  {
    hide Cleaned, RawPieces, Inner, NoExcess;
    var raw := RawPieces(Initial, body, FieldDelimiters);
    PiecesAreInner(true, Initial, body);
    CleanedIsInner(true, raw);
  }

  /** Exactly when the scan of the filtered file finds the same braces, around the fields that are left. */
  lemma FieldsAreFoundAgain(content: string, keep: string -> bool)
    requires SplitTypeBody(content).Some?
    ensures var t := SplitTypeBody(content).value;
            SplitTypeBody(FilteredFields(content, keep)) == Some(t.(body := Filtered(t.body, FieldDelimiters, ", ", keep)))
            <==> KeepsBraces(Split(t.body, FieldDelimiters), keep)
  {
    hide SpanFrom, Filtered, ScanStart, Shut, KeepsBraces, Split, Alias.Text;
    var from := ScanStart(content).value;
    var span := SpanFrom(Initial, content, from, None).value;
    var t := SplitTypeBody(content).value;
    var body := Filtered(t.body, FieldDelimiters, ", ", keep);
    var other := t.prefix + body + t.suffix;
    assert t.prefix == content[..span.0 + 1] && t.suffix == content[span.1..];
    NewParts(t.prefix, body, t.suffix);
    BodyIsShut(content, from, span.0, span.1);
    FilteredIsShut(t.body, keep);
    SpanAround(content, other, from, body, span.0, span.1);
    NoNewEquals(content, t, keep);
    SameStart(content, other, span.0 + 1);
    assert t.(body := body).Text() == other by { TextOf(t.(body := body)); }
    SpanIsParts(other, from, t.prefix, body, t.suffix);
  }

  lemma TextOf(t: Alias)
    ensures t.Text() == t.prefix + t.body + t.suffix
  {
  }

  /** A file falls into given parts exactly when its span is where they say. */
  lemma SpanIsParts(other: string, from: nat, prefix: string, body: string, suffix: string)
    requires other == prefix + body + suffix && prefix != [] && suffix != [] && ScanStart(other) == Some(from)
    ensures SplitTypeBody(other) == Some(Alias(prefix, body, suffix))
            <==> SpanFrom(Initial, other, from, None) == Some((|prefix| - 1, |prefix| + |body|))
  {
    hide SpanFrom, ScanStart;
    NewParts(prefix, body, suffix);
  }

  /** `other`, with another body between the braces of `content`, has the same braces exactly when they shut that body. */
  lemma SpanAround(content: string, other: string, from: nat, body: string, o: nat, close: nat)
    requires from <= |content| && from <= |other| && SpanFrom(Initial, content, from, None) == Some((o, close))
    requires o + 1 + |body| < |other| && other[..o + 1] == content[..o + 1]
    requires other[o + 1..o + 1 + |body|] == body && other[o + 1 + |body|] == '}'
    ensures SpanFrom(Initial, other, from, None) == Some((o, o + 1 + |body|)) <==> Shut(Up(Initial), body)
  {
    hide *;
    InitialIsSane();
    ReachesOpen(Initial, content, other, from, None, o);
    SpanIffShut(Up(Initial), other, o + 1, o, body);
  }

  lemma InitialIsSane()
    ensures Initial.Sane()
  {
  }

  lemma NewParts(prefix: string, body: string, suffix: string)
    ensures var other, o, k := prefix + body + suffix, |prefix|, |prefix| + |body|;
            && |other| == k + |suffix|
            && other[..o] == prefix && other[o..k] == body && other[k..] == suffix
            && (suffix != [] ==> other[k] == suffix[0])
  {
  }

  lemma NoNewEquals(content: string, t: Alias, keep: string -> bool)
    requires SplitTypeBody(content) == Some(t)
    ensures '=' !in content ==> '=' !in t.prefix + Filtered(t.body, FieldDelimiters, ", ", keep) + t.suffix
  {
    hide Filtered, SpanFrom, ScanStart;
    if '=' !in content {
      FilteredHolds(t.body, keep, '=');
    }
  }

  /** Filtering a whole type file that keeps its braces twice is filtering it once, and the second pass sees the fields
      the first one kept. */
  lemma FilteringFieldsTwice(content: string, keep: string -> bool)
    requires SplitTypeBody(content).Some? ==> KeepsBraces(Split(SplitTypeBody(content).value.body, FieldDelimiters), keep)
    ensures FilteredFields(FilteredFields(content, keep), keep) == FilteredFields(content, keep)
    ensures SplitTypeBody(content).Some? ==>
              && SplitTypeBody(FilteredFields(content, keep)).Some?
              && Split(SplitTypeBody(FilteredFields(content, keep)).value.body, FieldDelimiters)
                 == Filter(Split(SplitTypeBody(content).value.body, FieldDelimiters), keep)
  {
    hide SplitTypeBody, Filtered, Filter, Split, KeepsBraces;
    if SplitTypeBody(content).Some? {
      var t := SplitTypeBody(content).value;
      FieldsAreFoundAgain(content, keep);
      SourceSeparators();
      SurvivingArmsAreKept(t.body, FieldDelimiters, ", ", keep);
      FilteringComposes(t.body, FieldDelimiters, ", ", keep, keep);
    }
  }

  /** Text whose every '}' closes a '{' of its own keeps its braces under every selection. */
  lemma EvenBodiesKeepBraces(content: string, keep: string -> bool)
    requires SplitTypeBody(content).Some? && NoExcess(Initial, SplitTypeBody(content).value.body)
    ensures KeepsBraces(Split(SplitTypeBody(content).value.body, FieldDelimiters), keep)
  {
    hide SpanFrom, ScanStart, Inner, Split, Run;
    var body := SplitTypeBody(content).value.body;
    var from := ScanStart(content).value;
    var span := SpanFrom(Initial, content, from, None).value;
    BodyIsShut(content, from, span.0, span.1);
    RunLifted(true, Initial, body);
    RunKeepsSane(Initial, body);
    ShutsOuter(Run(Initial, body));
    ClosedLastField(body);
  }

  lemma ClosedLastField(body: string)
    requires Run(Initial, body) == Initial
    ensures var fields := Split(body, FieldDelimiters); fields == [] || Closed(fields[|fields| - 1])
  {
    hide Run, Split;
    ShutsOuter(Initial);
    BodyEnds(body);
  }

  // ------------------------------------------------------------- what the braces are, in a printed type

  /** Text that means nothing to the scan. */
  predicate Quiet(t: string) {
    forall i :: 0 <= i < |t| ==> After(Initial, t[i]) == Initial && t[i] != '{' && t[i] != '}'
  }

  lemma {:induction false} ThroughQuiet(input: string, i: nat, t: string)
    requires i + |t| <= |input| && input[i..i + |t|] == t && Quiet(t)
    ensures SpanFrom(Initial, input, i, None) == SpanFrom(Initial, input, i + |t|, None)
    decreases t
  {
    if t != [] {
      assert input[i] == input[i..i + |t|][0] == t[0];
      var next := i + 1;
      assert input[next..next + |t[1..]|] == input[i..i + |t|][1..] == t[1..];
      ThroughQuiet(input, next, t[1..]);
    }
  }

  /** Text whose every '}' closes a '{' of its own neither opens anew nor closes inside other braces. */
  lemma {:induction false} EvenIsInner(s: Scan, t: string)
    requires NoExcess(s, t)
    ensures Inner(Up(s), t)
    decreases t
  {
    if t != [] {
      StepLifted(true, s, t[0]);
      EvenIsInner(After(s, t[0]), t[1..]);
    }
  }

  lemma SpanOfPrinted(input: string, from: nat, quiet: string, body: string)
    requires var o := from + |quiet|;
             && o + 1 + |body| < |input| && input[from..o] == quiet && input[o] == '{'
             && input[o + 1..o + 1 + |body|] == body && input[o + 1 + |body|] == '}'
    requires Quiet(quiet) && NoExcess(Initial, body) && Closed(body)
    ensures SpanFrom(Initial, input, from, None) == Some((from + |quiet|, from + |quiet| + 1 + |body|))
  {
    hide Inner, NoExcess, Run;
    var o := from + |quiet|;
    ThroughQuiet(input, from, quiet);
    assert SpanFrom(Initial, input, o, None) == SpanFrom(Up(Initial), input, o + 1, Some(o));
    EvenIsInner(Initial, body);
    RunLifted(true, Initial, body);
    ShutsOuter(Initial);
    SpanIffShut(Up(Initial), input, o + 1, o, body);
  }

  /** A printed type alias falls into what stands up to its brace, its fields, and the rest. */
  lemma PrintedAlias(head: string, quiet: string, body: string, tail: string)
    requires '=' !in head && Quiet(quiet) && NoExcess(Initial, body) && Closed(body)
    ensures SplitTypeBody(head + "=" + quiet + "{" + body + "}" + tail)
            == Some(Alias(head + "=" + quiet + "{", body, "}" + tail))
  {
    hide SpanFrom, NoExcess, Closed, Quiet;
    var prefix, suffix := head + "=" + quiet + "{", "}" + tail;
    var input, from := prefix + body + suffix, |head| + 1;
    assert input == head + "=" + quiet + "{" + body + "}" + tail;
    NewParts(prefix, body, suffix);
    assert prefix[|head|] == '=' && input[|head|] == '=' && forall j :: 0 <= j < |head| ==> input[j] == head[j];
    assert IndexOf(input, '=', 0) == |head|;
    assert prefix[from..from + |quiet|] == quiet && input[from..from + |quiet|] == prefix[from..from + |quiet|];
    SpanOfPrinted(input, from, quiet, body);
    SpanIsParts(input, from, prefix, body, suffix);
  }

  /** And so does a printed interface, in a file without '='. */
  lemma PrintedInterface(head: string, quiet: string, body: string, tail: string)
    requires var input := head + InterfaceMarker + quiet + "{" + body + "}" + tail;
             '=' !in input && FindText(input, InterfaceMarker, 0) == Some(|head|)
    requires Quiet(quiet) && NoExcess(Initial, body) && Closed(body)
    ensures SplitTypeBody(head + InterfaceMarker + quiet + "{" + body + "}" + tail)
            == Some(Alias(head + InterfaceMarker + quiet + "{", body, "}" + tail))
  {
    hide SpanFrom, NoExcess, Closed, Quiet;
    var prefix, suffix := head + InterfaceMarker + quiet + "{", "}" + tail;
    var input, from := prefix + body + suffix, |head| + |InterfaceMarker|;
    assert input == head + InterfaceMarker + quiet + "{" + body + "}" + tail;
    NewParts(prefix, body, suffix);
    assert IndexOf(input, '=', 0) == |input|;
    assert prefix[from..from + |quiet|] == quiet && input[from..from + |quiet|] == prefix[from..from + |quiet|];
    SpanOfPrinted(input, from, quiet, body);
    SpanIsParts(input, from, prefix, body, suffix);
  }

  // A type whose first field has a '}' too many, which makes up for the one missing in the second.

  const WitnessFields := ["a:(})", "b:[{]"]
  const Witness := "={a:(}),b:[{]}"

  /** Without the first field the second one leaves the type open, and the second pass finds no braces at all. */
  lemma BracesCanBeLost(keep: string -> bool)
    requires forall f :: f in WitnessFields ==> (keep(f) <==> f != "a:(})")
    ensures SplitTypeBody(Witness).Some? && Split(SplitTypeBody(Witness).value.body, FieldDelimiters) == WitnessFields
    ensures !KeepsBraces(WitnessFields, keep)
    ensures SplitTypeBody(FilteredFields(Witness, keep)).None?
  {
    hide SplitTypeBody, Split, Join, SpanFrom, ScanStart, NoExcess, Closed;
    WitnessSpan();
    WitnessSplit();
    OneFieldLeft(keep);
    SecondField();
    assert "={" + "b:[{]" + "}" == "={b:[{]}";
    LeftOpen();
  }

  lemma OneFieldLeft(keep: string -> bool)
    requires !keep("a:(})") && keep("b:[{]")
    ensures Join(Filter(WitnessFields, keep), ", ") == "b:[{]"
  {
    var last: seq<string> := ["b:[{]"];
    assert WitnessFields[1..] == last && last[1..] == [];
    assert Filter(last, keep) == last;
    assert Filter(WitnessFields, keep) == last;
  }

  lemma WitnessSplit()
    ensures Split("a:(}),b:[{]", FieldDelimiters) == WitnessFields
  {
    hide Split, Stable, Inert, Separates;
    var parts := WitnessFields;
    SourceSeparators();
    CommaSeparates();
    WitnessStable();
    assert parts[1..] == ["b:[{]"];
    assert Join(parts, ",") == "a:(})" + "," + "b:[{]" == "a:(}),b:[{]";
    SplitOfJoin(parts, ",", FieldDelimiters);
  }

  lemma CommaSeparates()
    ensures Separates(",", FieldDelimiters)
  {
    assert Spaced(",", 0) && ","[0] in FieldDelimiters;
  }

  lemma WitnessStable()
    ensures Stable(WitnessFields, FieldDelimiters)
  {
    hide Arm, Closed;
    FirstField();
    SecondField();
    var last: seq<string> := ["b:[{]"];
    assert WitnessFields[1..] == last && last[1..] == [];
    assert Stable(last, FieldDelimiters);
  }

  lemma FirstField()
    ensures Arm("a:(})", FieldDelimiters) && Closed("a:(})")
  {
    assert "a:(})"[1..] == ":(})" && ":(})"[1..] == "(})";
    FirstFieldOn();
  }

  lemma FirstFieldOn()
    ensures Run(Initial, "(})") == Initial && NoCut(Initial, "(})", FieldDelimiters)
  {
    assert "(})"[1..] == "})" && "})"[1..] == ")" && ")"[1..] == "";
  }

  lemma SecondField()
    ensures Arm("b:[{]", FieldDelimiters) && !Closed("b:[{]") && NoExcess(Initial, "b:[{]")
  {
    assert "b:[{]"[1..] == ":[{]" && ":[{]"[1..] == "[{]";
    SecondFieldOn();
  }

  lemma SecondFieldOn()
    ensures Run(Initial, "[{]") == Up(Initial) && NoCut(Initial, "[{]", FieldDelimiters) && NoExcess(Initial, "[{]")
  {
    assert "[{]"[1..] == "{]" && "{]"[1..] == "]" && "]"[1..] == "";
  }

  lemma WitnessSpan()
    ensures SplitTypeBody(Witness) == Some(Alias("={", "a:(}),b:[{]", "}"))
  {
    hide SpanFrom;
    WitnessScan();
    assert IndexOf(Witness, '=', 0) == 0;
    assert Witness[..2] == "={" && Witness[2..13] == "a:(}),b:[{]" && Witness[13..] == "}";
  }

  lemma SpanStep(s: Scan, input: string, i: nat, open: Option<nat>)
    requires i < |input| && (open.Some? ==> open.value < i) && !Shuts(s, input[i], Opened(s, input[i], i, open))
    ensures SpanFrom(s, input, i, open) == SpanFrom(After(s, input[i]), input, i + 1, Opened(s, input[i], i, open))
  {
  }

  lemma WitnessScan()
    ensures SpanFrom(Initial, Witness, 1, None) == Some((1, 13))
  {
    hide SpanFrom;
    var s, up, paren := Witness, Up(Initial), Initial.(paren := 1);
    SpanStep(Initial, s, 1, None);
    SpanStep(up, s, 2, Some(1));
    SpanStep(up, s, 3, Some(1));
    SpanStep(up, s, 4, Some(1));
    SpanStep(Up(paren), s, 5, Some(1));
    SpanStep(paren, s, 6, Some(1));
    WitnessScanOn();
  }

  lemma WitnessScanOn()
    ensures SpanFrom(Initial, Witness, 7, Some(1)) == Some((1, 13))
  {
    hide SpanFrom;
    var s, bracket := Witness, Initial.(bracket := 1);
    SpanStep(Initial, s, 7, Some(1));
    SpanStep(Initial, s, 8, Some(1));
    SpanStep(Initial, s, 9, Some(1));
    SpanStep(Initial, s, 10, Some(1));
    SpanStep(bracket, s, 11, Some(1));
    SpanStep(Up(bracket), s, 12, Some(1));
    LastBrace(s, 13, 1);
  }

  lemma LastBrace(input: string, k: nat, o: nat)
    requires o < k < |input| && input[k] == '}'
    ensures SpanFrom(Up(Initial), input, k, Some(o)) == Some((o, k))
  {
  }

  lemma LeftOpen()
    ensures SplitTypeBody("={b:[{]}").None?
  {
    hide SpanFrom;
    var s, up, bracket := "={b:[{]}", Up(Initial), Up(Initial).(bracket := 1);
    assert IndexOf(s, '=', 0) == 0;
    SpanStep(Initial, s, 1, None);
    SpanStep(up, s, 2, Some(1));
    SpanStep(up, s, 3, Some(1));
    SpanStep(up, s, 4, Some(1));
    SpanStep(bracket, s, 5, Some(1));
    SpanStep(Up(bracket), s, 6, Some(1));
    SpanStep(Up(up), s, 7, Some(1));
    NothingLeft(up, s, Some(1));
  }

  lemma NothingLeft(s: Scan, input: string, open: Option<nat>)
    requires open.Some? ==> open.value < |input|
    ensures SpanFrom(s, input, |input|, open) == None
  {
  }
}
