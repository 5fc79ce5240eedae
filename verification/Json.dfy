/** JSON values as the schema exporter sees them. `serde_json` maps compare without
    regard to key order, so an object is a map here. */
module Json {
  import opened Wrappers
  import opened Text

  datatype Value =
    | Null
    | Bool(b: bool)
    | Number(text: string)
    | String(s: string)
    | Array(items: seq<Value>)
    | Object(fields: map<string, Value>)
  {
    function Get(key: string): Option<Value> {
      if Object? && key in fields then Some(fields[key]) else None
    }

    function AsString(): Option<string> {
      if String? then Some(s) else None
    }
  }

  function Children(v: Value): (cs: set<Value>)
    ensures forall c :: c in cs ==> c < v
  {
    match v
    case Object(m) => m.Values
    case Array(items) => set x | x in items
    case _ => {}
  }

  // ------------------------------------------------------------------ $ref

  function OwnRef(v: Value): set<string> {
    match v.Get("$ref")
    case Some(String(r)) => {r}
    case _ => {}
  }

  /** Every `$ref` string in `v`, at any depth. */
  function Refs(v: Value): set<string> {
    OwnRef(v) + set c, r | c in Children(v) && r in Refs(c) :: r
  }

  lemma ChildRefs(v: Value, c: Value, r: string)
    requires c in Children(v) && r in Refs(c)
    ensures r in Refs(v)
  {
  }

  lemma RefInField(fields: map<string, Value>, r: string) returns (k: string)
    requires r in Refs(Object(fields)) && ("$ref" in fields ==> !fields["$ref"].String?)
    ensures k in fields && r in Refs(fields[k])
  {
    var c :| c in Children(Object(fields)) && r in Refs(c);
    k :| k in fields && fields[k] == c;
  }

  /** Rewrites every `$ref` string by `f`, as all the `rewrite_*` functions do. */
  function MapRefs(v: Value, f: string -> string): Value {
    match v
    case Object(m) =>
      Object(map k | k in m :: if k == "$ref" && m[k].String? then String(f(m[k].s)) else MapRefs(m[k], f))
    case Array(items) => Array(seq(|items|, i requires 0 <= i < |items| => MapRefs(items[i], f)))
    case _ => v
  }

  /** Apart from strings, the children of a rewritten value are the rewritten children. */
  lemma ChildrenOfMapRefs(v: Value, f: string -> string)
    ensures forall c :: c in Children(v) && !c.String? ==> MapRefs(c, f) in Children(MapRefs(v, f))
    ensures forall d :: d in Children(MapRefs(v, f)) && !d.String? ==>
              exists c :: c in Children(v) && d == MapRefs(c, f)
  {
    var w := MapRefs(v, f);
    match v
    case Object(m) =>
      forall c | c in Children(v) && !c.String? ensures MapRefs(c, f) in Children(w) {
        var k :| k in m && m[k] == c;
        assert w.fields[k] == MapRefs(c, f);
      }
      forall d | d in Children(w) && !d.String? ensures exists c :: c in Children(v) && d == MapRefs(c, f) {
        var k :| k in w.fields && w.fields[k] == d;
        assert m[k] in Children(v) && d == MapRefs(m[k], f);
      }
    case Array(items) =>
      forall c | c in Children(v) ensures MapRefs(c, f) in Children(w) {
        var i :| 0 <= i < |items| && items[i] == c;
        assert w.items[i] == MapRefs(c, f);
      }
      forall d | d in Children(w) ensures exists c :: c in Children(v) && d == MapRefs(c, f) {
        var i :| 0 <= i < |items| && w.items[i] == d;
        assert items[i] in Children(v) && d == MapRefs(items[i], f);
      }
    case _ =>
  }

  lemma StringsHoldNoRefs(v: Value)
    requires v.String?
    ensures Refs(v) == {}
  {
  }

  /** Rewriting loses no ref ... */
  lemma {:induction false} RefSurvives(v: Value, f: string -> string, q: string)
    requires q in Refs(v)
    ensures f(q) in Refs(MapRefs(v, f))
  {
    hide MapRefs;
    OwnRefOfMapRefs(v, f);
    if q !in OwnRef(v) {
      var c :| c in Children(v) && q in Refs(c);
      RefSurvives(c, f, q);
      ChildrenOfMapRefs(v, f);
      ChildRefs(MapRefs(v, f), MapRefs(c, f), f(q));
    }
  }

  /** ... and makes none up: each ref of the result is the image of one that was there. */
  lemma {:induction false} RefOrigin(v: Value, f: string -> string, r: string) returns (q: string)
    requires r in Refs(MapRefs(v, f))
    ensures q in Refs(v) && f(q) == r
  {
    hide MapRefs;
    OwnRefOfMapRefs(v, f);
    if r in OwnRef(MapRefs(v, f)) {
      q :| q in OwnRef(v) && f(q) == r;
    } else {
      var d :| d in Children(MapRefs(v, f)) && r in Refs(d);
      ChildrenOfMapRefs(v, f);
      var c :| c in Children(v) && d == MapRefs(c, f);
      q := RefOrigin(c, f, r);
      ChildRefs(v, c, q);
    }
  }

  lemma OwnRefOfMapRefs(v: Value, f: string -> string)
    ensures OwnRef(MapRefs(v, f)) == set r | r in OwnRef(v) :: f(r)
  {
    if v.Object? && "$ref" in v.fields {
      var c := v.fields["$ref"];
      assert MapRefs(v, f).fields["$ref"] == if c.String? then String(f(c.s)) else MapRefs(c, f);
    }
  }

  /** Only the refs that occur matter. */
  lemma {:induction false} MapRefsSame(v: Value, f: string -> string, g: string -> string)
    requires forall r :: r in Refs(v) ==> f(r) == g(r)
    ensures MapRefs(v, f) == MapRefs(v, g)
  {
    forall c | c in Children(v)
      ensures MapRefs(c, f) == MapRefs(c, g)
    {
      forall r | r in Refs(c) ensures f(r) == g(r) { ChildRefs(v, c, r); }
      MapRefsSame(c, f, g);
    }
    match v
    case Object(m) =>
      forall k | k in m
        ensures MapRefs(v, f).fields[k] == MapRefs(v, g).fields[k]
      {
        assert m[k] in Children(v);
        if k == "$ref" && m[k].String? {
          assert m[k].s in OwnRef(v);
        }
      }
    case Array(items) =>
      assert MapRefs(v, f).items == MapRefs(v, g).items;
    case _ =>
  }

  // -------------------------------------------------------- resolving a pointer

  function SplitSlash(s: string): (parts: seq<string>)
    ensures parts != []
    decreases |s|
  {
    var first := FirstSegment(s);
    if first == s then [s] else [first] + SplitSlash(s[|first| + 1..])
  }

  lemma SplitSlashName(name: string)
    requires NoSlash(name)
    ensures SplitSlash(name) == [name]
  {
    FirstSegmentOf(name, []);
    assert name + [] == name;
  }

  lemma SplitSlashConcat(name: string, rest: string)
    requires NoSlash(name)
    ensures SplitSlash(name + "/" + rest) == [name] + SplitSlash(rest)
  {
    FirstSegmentOf(name, "/" + rest);
    assert name + "/" + rest == name + ("/" + rest);
    assert (name + "/" + rest)[|name| + 1..] == rest;
  }

  /** The array index a pointer token denotes: decimal digits without a leading zero. */
  function Index(token: string): Option<nat> {
    if token == "0" then Some(0)
    else if token == [] || token[0] == '0' then None
    else Digits(token, 0)
  }

  function Digits(token: string, acc: nat): Option<nat> {
    if token == [] then Some(acc)
    else if '0' <= token[0] <= '9' then Digits(token[1..], acc * 10 + (token[0] as int - '0' as int))
    else None
  }

  /** Evaluation of a JSON pointer (section 4 of RFC 6901), on tokens taken as they are. */
  function Lookup(v: Value, tokens: seq<string>): Option<Value>
    decreases tokens
  {
    if tokens == [] then Some(v)
    else match v
      case Object(m) => if tokens[0] in m then Lookup(m[tokens[0]], tokens[1..]) else None
      case Array(items) =>
        (match Index(tokens[0])
         case Some(i) => if i < |items| then Lookup(items[i], tokens[1..]) else None
         case None => None)
      case _ => None
  }

  /** What a same-document reference `#/...` names (section 8.3 of draft-handrews-json-schema-01). */
  function Resolve(root: Value, reference: string): Option<Value> {
    if "#/" <= reference then Lookup(root, SplitSlash(reference[2..])) else None
  }

  // ------------------------------------------------------- local definition refs

  const DefPrefix := "#/definitions/"

  /** `reference.strip_prefix("#/definitions/")`. */
  function DefSuffix(reference: string): Option<string> {
    if DefPrefix <= reference then Some(reference[|DefPrefix|..]) else None
  }

  /** The definition name a local ref begins with. */
  function LocalName(reference: string): string {
    match DefSuffix(reference)
    case Some(suffix) => FirstSegment(suffix)
    case None => ""
  }

  function DefRef(name: string): string {
    DefPrefix + name
  }

  /** A local ref is looked up in `definitions` by its first segment, and below that by the rest. */
  lemma ResolveDef(root: Value, suffix: string)
    ensures Resolve(root, DefRef(suffix)) == Lookup(root, ["definitions"] + SplitSlash(suffix))
  {
    assert DefRef(suffix)[2..] == "definitions" + "/" + suffix;
    SplitSlashConcat("definitions", suffix);
  }

  /** The first token of a ref's suffix is its first segment. */
  lemma FirstToken(suffix: string)
    ensures SplitSlash(suffix)[0] == FirstSegment(suffix)
  {
  }

  lemma LookupField(v: Value, tokens: seq<string>)
    requires tokens != [] && v.Get(tokens[0]).Some?
    ensures Lookup(v, tokens) == Lookup(v.fields[tokens[0]], tokens[1..])
  {
  }

  // --------------------------------------------------------------------- places

  /** One step down a value. */
  datatype PathStep = Field(key: string) | Element(index: nat)

  /** What is at the end of a path, if it leads anywhere. */
  function Walk(v: Value, path: seq<PathStep>): Option<Value>
    decreases path
  {
    if path == [] then Some(v)
    else match (v, path[0])
      case (Object(m), Field(k)) => if k in m then Walk(m[k], path[1..]) else None
      case (Array(items), Element(i)) => if i < |items| then Walk(items[i], path[1..]) else None
      case _ => None
  }

  /** At the end of the path there is an object whose `$ref` is `r`. */
  predicate RefAt(v: Value, path: seq<PathStep>, r: string) {
    match Walk(v, path)
    case Some(Object(m)) => "$ref" in m && m["$ref"] == String(r)
    case _ => false
  }

  /** The step down to a child. */
  lemma StepTo(v: Value, c: Value) returns (step: PathStep)
    requires c in Children(v)
    ensures Walk(v, [step]) == Some(c)
    ensures forall path :: Walk(v, [step] + path) == Walk(c, path)
  {
    match v
    case Object(m) =>
      var k :| k in m && m[k] == c;
      step := Field(k);
      StepDown(v, step, c);
    case Array(items) =>
      var i :| 0 <= i < |items| && items[i] == c;
      step := Element(i);
      StepDown(v, step, c);
  }

  lemma StepDown(v: Value, step: PathStep, c: Value)
    requires match (v, step)
             case (Object(m), Field(k)) => k in m && m[k] == c
             case (Array(items), Element(i)) => i < |items| && items[i] == c
             case _ => false
    ensures Walk(v, [step]) == Some(c) && forall path :: Walk(v, [step] + path) == Walk(c, path)
  {
    assert [step][1..] == [];
    forall path ensures Walk(v, [step] + path) == Walk(c, path) {
      assert ([step] + path)[1..] == path;
    }
  }

  /** The refs of a value are those found at some place in it, under however many objects and arrays. */
  lemma {:induction false} RefsArePlaces(v: Value, r: string)
    ensures r in Refs(v) <==> exists path :: RefAt(v, path, r)
  {
    if r in Refs(v) {
      if r in OwnRef(v) {
        assert RefAt(v, [], r);
      } else {
        var c :| c in Children(v) && r in Refs(c);
        RefsArePlaces(c, r);
        var path :| RefAt(c, path, r);
        var step := StepTo(v, c);
        assert RefAt(v, [step] + path, r);
      }
    }
    if path :| RefAt(v, path, r) {
      PlaceIsRef(v, path, r);
    }
  }

  lemma {:induction false} PlaceIsRef(v: Value, path: seq<PathStep>, r: string)
    requires RefAt(v, path, r)
    ensures r in Refs(v)
    decreases path
  {
    if path == [] {
      assert r in OwnRef(v);
    } else {
      match (v, path[0])
      case (Object(m), Field(k)) =>
        PlaceIsRef(m[k], path[1..], r);
        ChildRefs(v, m[k], r);
      case (Array(items), Element(i)) =>
        PlaceIsRef(items[i], path[1..], r);
        ChildRefs(v, items[i], r);
    }
  }

  /** Rewriting changes the `$ref` strings, by `f`, wherever they are, and nothing else anywhere. */
  lemma {:induction false} MapRefsPlaces(v: Value, f: string -> string, path: seq<PathStep>)
    ensures Walk(MapRefs(v, f), path)
            == match Walk(v, path)
               case Some(x) =>
                 Some(if path != [] && path[|path| - 1] == Field("$ref") && x.String? then String(f(x.s)) else MapRefs(x, f))
               case None => None
    decreases path
  {
    if path != [] {
      match (v, path[0])
      case (Object(m), Field(k)) =>
        if k in m {
          if k == "$ref" && m[k].String? {
            assert MapRefs(v, f).fields[k] == String(f(m[k].s));
            if path[1..] == [] { assert path == [Field("$ref")]; }
          } else {
            MapRefsPlaces(m[k], f, path[1..]);
            if |path| > 1 { assert path[|path| - 1] == path[1..][|path| - 2]; }
          }
        }
      case (Array(items), Element(i)) =>
        if i < |items| {
          MapRefsPlaces(items[i], f, path[1..]);
          if |path| > 1 { assert path[|path| - 1] == path[1..][|path| - 2]; }
        }
      case _ =>
    }
  }

  // ------------------------------------------------------------- pointers and places

  function Decimal(n: nat): (s: string)
    ensures s != [] && (n > 0 ==> s[0] != '0')
  {
    if n < 10 then ["0123456789"[n]] else Decimal(n / 10) + ["0123456789"[n % 10]]
  }

  lemma {:induction false} DigitsOfLast(s: string, d: char, acc: nat)
    requires '0' <= d <= '9'
    ensures Digits(s + [d], acc)
            == match Digits(s, acc) case Some(n) => Some(n * 10 + (d as int - '0' as int)) case None => None
    decreases |s|
  {
    if s == [] {
      assert s + [d] == [d] && [d][1..] == [];
    } else {
      assert (s + [d])[1..] == s[1..] + [d];
      if '0' <= s[0] <= '9' {
        DigitsOfLast(s[1..], d, acc * 10 + (s[0] as int - '0' as int));
      }
    }
  }

  lemma {:induction false} DigitsOfDecimal(n: nat)
    ensures Digits(Decimal(n), 0) == Some(n)
  {
    var d := "0123456789"[n % 10];
    assert d as int - '0' as int == n % 10 && '0' <= d <= '9';
    if n < 10 {
      assert Decimal(n) == [] + [d];
      DigitsOfLast([], d, 0);
    } else {
      DigitsOfDecimal(n / 10);
      DigitsOfLast(Decimal(n / 10), d, 0);
    }
  }

  /** A decimal token denotes its number. */
  lemma IndexOfDecimal(n: nat)
    ensures Index(Decimal(n)) == Some(n)
  {
    DigitsOfDecimal(n);
    if n == 0 {
      assert Decimal(0) == "0";
    }
  }

  function Token(step: PathStep): string {
    match step
    case Field(key) => key
    case Element(i) => Decimal(i)
  }

  function Tokens(path: seq<PathStep>): seq<string> {
    seq(|path|, i requires 0 <= i < |path| => Token(path[i]))
  }

  /** A pointer leads where its tokens say: to a field of that name, or an item of that index, one after the other. */
  lemma {:induction false} PointersLeadToPlaces(v: Value, path: seq<PathStep>)
    requires Walk(v, path).Some?
    ensures Lookup(v, Tokens(path)) == Walk(v, path)
    decreases path
  {
    if path != [] {
      var tokens := Tokens(path);
      assert tokens[0] == Token(path[0]) && tokens[1..] == Tokens(path[1..]);
      match (v, path[0])
      case (Object(m), Field(k)) => PointersLeadToPlaces(m[k], path[1..]);
      case (Array(items), Element(i)) =>
        IndexOfDecimal(i);
        PointersLeadToPlaces(items[i], path[1..]);
    }
  }
}
