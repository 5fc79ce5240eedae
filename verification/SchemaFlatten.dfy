/** `build_flat_v2_schema`: moving `definitions.v2` up one level, with the shared root
    schemas and everything outside v2 that they still reference. */
module SchemaFlatten {
  import opened Wrappers
  import opened Text
  import opened Json
  import opened Reachability

  const V2Prefix := "#/definitions/v2/"
  const SharedNames := {"ClientRequest", "EventMsg", "ServerNotification"}

  // --------------------------------------------------------- refs outside v2

  predicate IsNonV2(reference: string) {
    DefPrefix <= reference && !(V2Prefix <= reference)
  }

  /** The names that `v` references under `#/definitions/` but not under `#/definitions/v2/`. */
  function NonV2Refs(v: Value): set<string> {
    set r | r in Refs(v) && IsNonV2(r) :: r[|DefPrefix|..]
  }

  method CollectNonV2RefsInner(value: Value, refs: set<string>) returns (out: set<string>)
    ensures out == refs + NonV2Refs(value)
    decreases value
  {
    out := refs;
    var own := value.Get("$ref");
    if own.Some? && own.value.String? {
      var reference := own.value.s;
      if DefPrefix <= reference && !(V2Prefix <= reference) {
        out := out + {reference[|DefPrefix|..]};
      }
    }
    ghost var here := out;
    var todo := Children(value);
    while todo != {}
      invariant todo <= Children(value)
      invariant out == here + set c, n | c in Children(value) - todo && n in NonV2Refs(c) :: n
      decreases todo
    {
      var child :| child in todo;
      out := CollectNonV2RefsInner(child, out);
      todo := todo - {child};
    }
    forall n | n in NonV2Refs(value) ensures n in out {
      var r :| r in Refs(value) && IsNonV2(r) && r[|DefPrefix|..] == n;
      if r !in OwnRef(value) {
        var c :| c in Children(value) && r in Refs(c);
        assert n in NonV2Refs(c);
      }
    }
  }

  function NonV2Graph(defs: map<string, Value>): Graph {
    map n | n in defs :: NonV2Refs(defs[n])
  }

  /** The closure worklist. A name may be queued more than once; each is expanded once. */
  method CollectDefinitionDependencies(defs: map<string, Value>, names: set<string>) returns (seen: set<string>)
    ensures seen == Closure(NonV2Graph(defs), names)
  {
    ghost var g := NonV2Graph(defs);
    seen := {};
    var toProcess := Elements(names);
    SearchStart(g, names);
    assert Queued(toProcess) == names;
    while toProcess != []
      invariant Searching(g, names, seen, Queued(toProcess))
      decreases Closure(g, names) - seen, |toProcess|
    {
      var name := toProcess[|toProcess| - 1];
      ghost var before := Queued(toProcess);
      toProcess := toProcess[..|toProcess| - 1];
      assert before == Queued(toProcess) + {name};
      if name in seen {
        assert seen + before + Successors(g, name) == seen + {name} + Queued(toProcess);
        SearchStep(g, names, seen, before, name, Queued(toProcess));
        assert seen + {name} == seen;
        continue;
      }
      SearchStep(g, names, seen, before, name, before - {name} + (Successors(g, name) - seen - {name}));
      seen := seen + {name};
      if name !in defs {
        continue;
      }
      var deps := CollectNonV2RefsInner(defs[name], {});
      var unseen := Elements(deps - seen);
      toProcess := toProcess + unseen;
    }
    SearchDone(g, names, seen);
  }

  method Elements(s: set<string>) returns (xs: seq<string>)
    ensures forall x :: x in xs <==> x in s
  {
    xs := [];
    var todo := s;
    while todo != {}
      invariant todo <= s && forall x :: x in xs <==> x in s - todo
      decreases todo
    {
      var x :| x in todo;
      xs := xs + [x];
      todo := todo - {x};
    }
  }

  // ------------------------------------------------------------- the flat bundle

  datatype FlatError = NotAnObject | NoDefinitions | NoV2Namespace | StillNamespaced | Missing(names: set<string>)

  /** `rewrite_ref_prefix(.., "#/definitions/v2/", "#/definitions/")` on one reference. */
  function Unprefixed(reference: string): string {
    ReplaceAll(reference, V2Prefix, DefPrefix)
  }

  /** Every v2 prefix in a reference goes, wherever it stands, and nothing else does. */
  lemma EveryPrefixGoes(r: string, i: nat)
    requires forall j: nat :: j < i ==> !FoundAt(r, "#/definitions/v2/", j)
    ensures FoundAt(r, "#/definitions/v2/", i) ==>
              Unprefixed(r) == r[..i] + "#/definitions/" + Unprefixed(r[i + |"#/definitions/v2/"|..])
    ensures i >= |r| ==> Unprefixed(r) == r
  {
    if FoundAt(r, V2Prefix, i) {
      ReplacesFirst(r, V2Prefix, DefPrefix, i);
    } else if i >= |r| {
      ReplacesNothing(r, V2Prefix, DefPrefix);
    }
  }

  function Rewritten(v: Value): Value {
    MapRefs(v, Unprefixed)
  }

  function Shared(defs: map<string, Value>): map<string, Value> {
    map n | n in SharedNames && n in defs :: defs[n]
  }

  function SharedRefs(defs: map<string, Value>): set<string> {
    set s, n | s in Shared(defs) && n in NonV2Refs(defs[s]) :: n
  }

  /** The root names the shared definitions reach without passing through v2. */
  ghost function Pulled(defs: map<string, Value>): set<string> {
    Closure(NonV2Graph(defs), SharedRefs(defs))
  }

  function FlatDefinitions(defs: map<string, Value>, v2: map<string, Value>, pulled: set<string>): map<string, Value> {
    v2 + (map n | n in pulled && n != "v2" && n !in v2 && n in defs :: defs[n]) + Shared(defs)
  }

  function Title(root: map<string, Value>): string {
    if "title" in root && root["title"].String? then root["title"].s else "CodexAppServerProtocol"
  }

  function FlatRoot(root: map<string, Value>, flatDefs: map<string, Value>): Value {
    Object(root["title" := String(Title(root) + "V2")]["definitions" := Object(flatDefs)])
  }

  /** The definition names that local refs of `v` need and `defs` lacks. */
  function MissingNames(v: Value, defs: map<string, Value>): set<string> {
    set r | r in Refs(v) && DefPrefix <= r && FirstSegment(r[|DefPrefix|..]) !in defs :: FirstSegment(r[|DefPrefix|..])
  }

  function Checked(flat: Value): Result<Value, FlatError> {
    if exists r :: r in Refs(flat) && V2Prefix <= r then Err(StillNamespaced)
    else match flat.Get("definitions")
      case Some(Object(defs)) => if MissingNames(flat, defs) == {} then Ok(flat) else Err(Missing(MissingNames(flat, defs)))
      case _ => Err(NoDefinitions)
  }

  ghost function Flattened(bundle: Value): Result<Value, FlatError> {
    if !bundle.Object? then Err(NotAnObject)
    else match bundle.Get("definitions")
      case Some(Object(defs)) =>
        (match bundle.fields["definitions"].Get("v2")
         case Some(Object(v2)) => Checked(Rewritten(FlatRoot(bundle.fields, FlatDefinitions(defs, v2, Pulled(defs)))))
         case _ => Err(NoV2Namespace))
      case _ => Err(NoDefinitions)
  }

  method CollectShared(defs: map<string, Value>) returns (shared: map<string, Value>, refs: set<string>)
    ensures shared == Shared(defs) && refs == SharedRefs(defs)
  {
    shared, refs := map[], {};
    var todo := SharedNames;
    while todo != {}
      invariant todo <= SharedNames
      invariant forall n :: n in shared <==> n in SharedNames - todo && n in defs
      invariant forall n :: n in shared ==> shared[n] == defs[n]
      invariant forall s, n :: s in shared && n in NonV2Refs(defs[s]) ==> n in refs
      invariant forall n :: n in refs ==> exists s :: s in shared && n in NonV2Refs(defs[s])
      decreases todo
    {
      var name :| name in todo;
      todo := todo - {name};
      if name in defs {
        refs := CollectNonV2RefsInner(defs[name], refs);
        shared := shared[name := defs[name]];
      }
    }
    assert shared == Shared(defs);
  }

  method PullIn(defs: map<string, Value>, v2: map<string, Value>, names: set<string>) returns (flatDefs: map<string, Value>)
    ensures flatDefs == v2 + map n | n in names && n != "v2" && n !in v2 && n in defs :: defs[n]
  {
    flatDefs := v2;
    var pending := names;
    while pending != {}
      invariant pending <= names
      invariant forall n :: n in flatDefs <==> n in v2 || (n in names - pending && n != "v2" && n in defs)
      invariant forall n :: n in flatDefs ==> flatDefs[n] == if n in v2 then v2[n] else defs[n]
      decreases pending
    {
      var name :| name in pending;
      pending := pending - {name};
      if name == "v2" || name in flatDefs {
        continue;
      }
      if name in defs {
        flatDefs := flatDefs[name := defs[name]];
      }
    }
  }

  method BuildFlatV2Schema(bundle: Value) returns (r: Result<Value, FlatError>)
    ensures r == Flattened(bundle)
  {
    if !bundle.Object? {
      return Err(NotAnObject);
    }
    var root := bundle.fields;
    if "definitions" !in root || !root["definitions"].Object? {
      return Err(NoDefinitions);
    }
    var defs := root["definitions"].fields;
    if "v2" !in defs || !defs["v2"].Object? {
      return Err(NoV2Namespace);
    }
    var shared, nonV2Refs := CollectShared(defs);
    var names := CollectDefinitionDependencies(defs, nonV2Refs);
    var flatDefs := PullIn(defs, defs["v2"].fields, names);
    flatDefs := flatDefs + shared;
    r := Checked(Rewritten(FlatRoot(root, flatDefs)));
  }

  predicate IsMap(v: Value, key: string) {
    v.Get(key).Some? && v.fields[key].Object?
  }

  /** Which inputs fail for want of their parts. */
  lemma MissingParts(bundle: Value)
    ensures Flattened(bundle) == Err(NotAnObject) <==> !bundle.Object?
    ensures Flattened(bundle) == Err(NoDefinitions) <==> bundle.Object? && !IsMap(bundle, "definitions")
    ensures Flattened(bundle) == Err(NoV2Namespace) <==>
              IsMap(bundle, "definitions") && !IsMap(bundle.fields["definitions"], "v2")
  {
    hide FlatDefinitions, Pulled, Rewritten, Checked;
    if IsMap(bundle, "definitions") && IsMap(bundle.fields["definitions"], "v2") {
      var defs := bundle.fields["definitions"].fields;
      var flatDefs := FlatDefinitions(defs, defs["v2"].fields, Pulled(defs));
      HasTheseDefinitions(bundle.fields, flatDefs);
      CheckedFinds(Rewritten(FlatRoot(bundle.fields, flatDefs)));
    }
  }

  lemma HasTheseDefinitions(root: map<string, Value>, defs: map<string, Value>)
    ensures IsMap(Rewritten(FlatRoot(root, defs)), "definitions")
  {
    var flat := FlatRoot(root, defs);
    assert Rewritten(flat).fields["definitions"] == Rewritten(flat.fields["definitions"]);
  }

  /** Which of the two final checks fails, and with what names. */
  lemma CheckedFinds(flat: Value)
    requires IsMap(flat, "definitions")
    ensures match Checked(flat)
            case Ok(v) => v == flat
            case Err(StillNamespaced) => exists r :: r in Refs(flat) && V2Prefix <= r
            case Err(Missing(names)) => names != {} && names == MissingNames(flat, flat.fields["definitions"].fields)
            case _ => false
  {
    hide MissingNames;
  }

  /** On every input at all: a bundle that is returned has no namespaced ref left and lacks no definition it names. */
  lemma OkBundleIsComplete(bundle: Value, r: string)
    requires Flattened(bundle).Ok? && r in Refs(Flattened(bundle).value)
    ensures !(V2Prefix <= r)
    ensures DefPrefix <= r ==>
              match Flattened(bundle).value.Get("definitions")
              case Some(Object(defs)) => FirstSegment(r[|DefPrefix|..]) in defs
              case _ => false
  {
    var flat := Flattened(bundle).value;
    var defs := flat.fields["definitions"].fields;
    assert MissingNames(flat, defs) == {};
  }

  // --------------------------------------------------- flattening keeps meaning

  /** What a local ref says behind its prefix, with or without v2. */
  function Target(r: string): string {
    if V2Prefix <= r then r[|V2Prefix|..] else if DefPrefix <= r then r[|DefPrefix|..] else r
  }

  /** The definition it leads into ... */
  function First(r: string): string {
    FirstSegment(Target(r))
  }

  /** ... and where in there. */
  function Below(r: string): seq<string> {
    SplitSlash(Target(r))[1..]
  }

  /** Taking out v2 changes the prefix of the ref and nothing behind it. */
  predicate Straight(r: string) {
    Unprefixed(r) == DefPrefix + Target(r)
  }

  /** A reference into a v2 definition. */
  predicate IsV2Ref(r: string, v2: map<string, Value>) {
    V2Prefix <= r && Straight(r) && First(r) in v2
  }

  /** A reference into a root definition. */
  predicate IsRootRef(r: string, defs: map<string, Value>) {
    IsNonV2(r) && Straight(r) && First(r) in defs && First(r) != "v2"
  }

  predicate IsBundle(bundle: Value) {
    match bundle.Get("definitions")
    case Some(defs) => defs.Get("v2").Some? && defs.Get("v2").value.Object?
    case None => false
  }

  function Defs(bundle: Value): map<string, Value>
    requires IsBundle(bundle)
  {
    bundle.fields["definitions"].fields
  }

  function V2(bundle: Value): map<string, Value>
    requires IsBundle(bundle)
  {
    Defs(bundle)["v2"].fields
  }

  /** The root definitions that stay: the shared ones and what they pull in. */
  ghost predicate Stays(bundle: Value, n: string)
    requires IsBundle(bundle)
  {
    n in Defs(bundle) && n != "v2" && (n in SharedNames || n in Pulled(Defs(bundle)))
  }

  /** The definitions of the flat bundle as they were in the original one. */
  ghost function Kept(bundle: Value): map<string, Value>
    requires IsBundle(bundle)
  {
    FlatDefinitions(Defs(bundle), V2(bundle), Pulled(Defs(bundle)))
  }

  /** What the exporter relies on: refs occur in definitions only and lead into definitions, those of v2 into v2. */
  ghost predicate Flattenable(bundle: Value)
    requires IsBundle(bundle)
  {
    var defs, v2 := Defs(bundle), V2(bundle);
    && (forall k :: k in bundle.fields && k != "definitions" ==> Refs(bundle.fields[k]) == {})
    && "$ref" !in bundle.fields && "$ref" !in defs && "$ref" !in v2
    && (forall n, r :: n in v2 && r in Refs(v2[n]) ==> IsV2Ref(r, v2))
    && (forall n, r :: Stays(bundle, n) && r in Refs(defs[n]) ==> IsV2Ref(r, v2) || IsRootRef(r, defs))
  }

  /** Every kept ref leads into a definition that is kept, and not by way of another v2. */
  ghost predicate Complete(bundle: Value)
    requires IsBundle(bundle)
  {
    forall n, r :: n in Kept(bundle) && r in Refs(Kept(bundle)[n]) ==> First(r) in Kept(bundle) && !("v2/" <= Target(r))
  }

  /** Of two definitions with one name, in v2 and at the root, the shared one wins, and otherwise that of v2. */
  predicate V2Wins(bundle: Value, n: string)
    requires IsBundle(bundle)
  {
    n in V2(bundle) && !(n in SharedNames && n in Defs(bundle))
  }

  /** The ref leads into the definition that is kept under its name. */
  predicate NamesWinner(bundle: Value, r: string)
    requires IsBundle(bundle)
  {
    V2Prefix <= r <==> V2Wins(bundle, First(r))
  }

  /** The flat bundle keeps every v2 definition and every root definition that stays, each under its own name. */
  lemma KeptDefinitions(bundle: Value, n: string)
    requires IsBundle(bundle)
    ensures n in Kept(bundle) <==> n in V2(bundle) || Stays(bundle, n)
    ensures n in Kept(bundle) ==> if V2Wins(bundle, n) then Kept(bundle)[n] == V2(bundle)[n]
                                  else Stays(bundle, n) && Kept(bundle)[n] == Defs(bundle)[n]
  {
    assert "v2" !in SharedNames;
  }

  /** A chain of names, from a shared one: each next one is what some ref outside v2, in the definition of the one before
      it, says behind its prefix. */
  ghost predicate IsChain(defs: map<string, Value>, names: seq<string>) {
    && names != [] && names[0] in {"ClientRequest", "EventMsg", "ServerNotification"}
    && forall i :: 0 <= i < |names| - 1 ==> names[i] in defs && Leads(defs[names[i]], names[i + 1])
  }

  ghost predicate Leads(v: Value, name: string) {
    exists r :: r in Refs(v) && "#/definitions/" <= r && !("#/definitions/v2/" <= r) && r[|"#/definitions/"|..] == name
  }

  /** The flat bundle holds the v2 definitions, the shared ones, and whatever such a chain ends in: these and no others. */
  lemma KeptByChains(bundle: Value, n: string)
    requires IsBundle(bundle)
    ensures n in Kept(bundle) <==>
              || n in V2(bundle)
              || (n in Defs(bundle) && n != "v2" && exists names :: IsChain(Defs(bundle), names) && names[|names| - 1] == n)
  {
    hide Kept, Refs, Closure, Defs, V2;
    KeptDefinitions(bundle, n);
    var defs := Defs(bundle);
    if n in Pulled(defs) && n in defs {
      var names := ChainTo(defs, n);
    }
    if n in SharedNames && n in defs {
      assert IsChain(defs, [n]);
    }
    if names :| IsChain(defs, names) && names[|names| - 1] == n && n in defs {
      ChainPulls(defs, names);
    }
  }

  lemma ChainTo(defs: map<string, Value>, n: string) returns (names: seq<string>)
    requires n in Pulled(defs)
    ensures IsChain(defs, names) && names[|names| - 1] == n
  {
    hide Refs, Closure;
    var g, roots := NonV2Graph(defs), SharedRefs(defs);
    ClosureIsReachable(g, roots, n);
    var path :| IsPath(g, roots, path) && path[|path| - 1] == n;
    var s :| s in Shared(defs) && path[0] in NonV2Refs(defs[s]);
    names := [s] + path;
    forall i | 0 <= i < |names| - 1 ensures names[i] in defs && Leads(defs[names[i]], names[i + 1]) {
      if i > 0 {
        assert path[i - 1 + 1] in Successors(g, path[i - 1]);
      }
    }
  }

  lemma ChainPulls(defs: map<string, Value>, names: seq<string>)
    requires IsChain(defs, names)
    ensures names[|names| - 1] in SharedNames || names[|names| - 1] in Pulled(defs)
  {
    hide Refs, Closure;
    if |names| > 1 {
      var g, roots, path := NonV2Graph(defs), SharedRefs(defs), names[1..];
      assert Leads(defs[names[0]], names[0 + 1]);
      assert names[0] in Shared(defs) && path[0] in NonV2Refs(defs[names[0]]);
      forall i | 0 <= i < |path| - 1 ensures path[i + 1] in Successors(g, path[i]) {
        assert Leads(defs[names[i + 1]], names[i + 1 + 1]);
      }
      assert IsPath(g, roots, path) && path[|path| - 1] == names[|names| - 1];
      ClosureIsReachable(g, roots, names[|names| - 1]);
    }
  }

  lemma PrefixEnds()
    ensures |DefPrefix| == 14 && |V2Prefix| == 17 && V2Prefix[16] == '/' && V2Prefix[13] == '/'
    ensures DefPrefix <= V2Prefix && V2Prefix[14..] == "v2/"
  {
  }

  /** Refs of one segment are straight, and so are those with no further '#'. */
  lemma StraightRefs(r: string)
    requires DefPrefix <= r && (NoSlash(Target(r)) || '#' !in Target(r))
    ensures Straight(r)
  {
    PrefixEnds();
    var n := Target(r);
    if V2Prefix <= r {
      assert r[|V2Prefix|..] == n;
      if NoSlash(n) { NothingToReplace(n, V2Prefix, DefPrefix); } else { NoHash(n); }
    } else {
      assert r == DefPrefix + n;
      if NoSlash(n) {
        NothingToReplace(r, V2Prefix, DefPrefix);
      } else {
        assert r[0] == '#' && '#' !in DefPrefix[1..];
        assert r[1..] == DefPrefix[1..] + n;
        NoHash(r[1..]);
        assert [r[0]] + r[1..] == r;
      }
    }
  }

  lemma {:induction false} NoHash(s: string)
    requires '#' !in s
    ensures Unprefixed(s) == s
  {
    if |s| >= |V2Prefix| {
      assert V2Prefix[0] == '#' && s[0] != '#';
      NoHash(s[1..]);
    }
  }

  lemma FlatRef(t: string)
    ensures V2Prefix <= DefPrefix + t <==> "v2/" <= t
    ensures (DefPrefix + t)[|DefPrefix|..] == t
  {
    PrefixEnds();
    assert V2Prefix == DefPrefix + "v2/";
    assert V2Prefix <= DefPrefix + t ==> (DefPrefix + t)[..17] == V2Prefix && t[..3] == "v2/" by {
      if V2Prefix <= DefPrefix + t { assert (DefPrefix + t)[..17][14..] == t[..3]; }
    }
    assert "v2/" <= t ==> DefPrefix + t == V2Prefix + t[3..] by {
      if "v2/" <= t { assert t == "v2/" + t[3..]; }
    }
  }

  lemma ResolveTarget(root: Value, r: string)
    requires DefPrefix <= r
    ensures var path := SplitSlash(Target(r));
            Resolve(root, r) == Lookup(root, ["definitions"] + if V2Prefix <= r then ["v2"] + path else path)
  {
    PrefixEnds();
    var t := Target(r);
    if V2Prefix <= r {
      assert r == DefRef("v2" + "/" + t);
      ResolveDef(root, "v2" + "/" + t);
      SplitSlashConcat("v2", t);
    } else {
      assert r == DefRef(t);
      ResolveDef(root, t);
    }
  }

  /** A path into some definitions leads below the one its first token names. */
  lemma LookupDefinition(root: Value, defs: map<string, Value>, t: string)
    requires root.Get("definitions") == Some(Object(defs)) && FirstSegment(t) in defs
    ensures Lookup(root, ["definitions"] + SplitSlash(t)) == Lookup(defs[FirstSegment(t)], SplitSlash(t)[1..])
  {
    hide SplitSlash, FirstSegment, Lookup;
    var path := SplitSlash(t);
    var tokens := ["definitions"] + path;
    FirstToken(t);
    assert tokens[1..] == path;
    LookupField(root, tokens);
    LookupField(Object(defs), path);
  }

  lemma LookupV2(bundle: Value, t: string)
    requires IsBundle(bundle) && FirstSegment(t) in V2(bundle)
    ensures Lookup(bundle, ["definitions"] + (["v2"] + SplitSlash(t))) == Lookup(V2(bundle)[FirstSegment(t)], SplitSlash(t)[1..])
  {
    hide SplitSlash, FirstSegment, Lookup;
    var path := SplitSlash(t);
    var long := ["v2"] + path;
    var tokens := ["definitions"] + long;
    FirstToken(t);
    assert tokens[1..] == long && long[1..] == path;
    LookupField(bundle, tokens);
    LookupField(Object(Defs(bundle)), long);
    LookupField(Object(V2(bundle)), path);
  }

  /** What a rewriting makes of what a pointer leads to. */
  function Image(found: Option<Value>): Option<Value> {
    if found.Some? then Some(Rewritten(found.value)) else None
  }

  /** A pointer that passes no `$ref` leads to the rewriting of where it led before. */
  lemma {:induction false} LookupRewritten(v: Value, tokens: seq<string>)
    requires "$ref" !in tokens
    ensures Lookup(Rewritten(v), tokens) == Image(Lookup(v, tokens))
    decreases tokens
  {
    if tokens != [] {
      match v
      case Object(m) =>
        if tokens[0] in m { LookupRewritten(m[tokens[0]], tokens[1..]); }
      case Array(items) =>
        match Index(tokens[0]) {
          case Some(i) => if i < |items| { LookupRewritten(items[i], tokens[1..]); }
          case None =>
        }
      case _ =>
    }
  }

  ghost function Flat(bundle: Value): Value
    requires IsBundle(bundle)
  {
    Rewritten(FlatRoot(bundle.fields, Kept(bundle)))
  }

  function RewrittenAll(defs: map<string, Value>): map<string, Value> {
    map n | n in defs :: Rewritten(defs[n])
  }

  ghost function FlatDefs(bundle: Value): map<string, Value>
    requires IsBundle(bundle)
  {
    RewrittenAll(Kept(bundle))
  }

  lemma RewrittenDefinitions(defs: map<string, Value>)
    requires "$ref" !in defs
    ensures Rewritten(Object(defs)) == Object(RewrittenAll(defs))
  {
    assert Rewritten(Object(defs)).fields == RewrittenAll(defs);
  }

  lemma MapRefsOfField(fields: map<string, Value>, k: string, f: string -> string)
    requires k in fields && k != "$ref"
    ensures MapRefs(Object(fields), f).Get(k) == Some(MapRefs(fields[k], f))
  {
  }

  lemma FlatShape(bundle: Value)
    requires IsBundle(bundle) && "$ref" !in Kept(bundle)
    ensures Flat(bundle).Get("definitions") == Some(Object(FlatDefs(bundle)))
  {
    RewrittenDefinitions(Kept(bundle));
    FlatRootField(bundle.fields, Kept(bundle));
  }

  lemma FlatRootField(root: map<string, Value>, defs: map<string, Value>)
    ensures Rewritten(FlatRoot(root, defs)).Get("definitions") == Some(Rewritten(Object(defs)))
  {
    MapRefsOfField(FlatRoot(root, defs).fields, "definitions", Unprefixed);
  }

  /** The rest of the flat bundle: its title says V2 behind the old one, and everything else is as it was, rewritten. */
  lemma FlatKeepsTheRest(bundle: Value, k: string)
    requires IsBundle(bundle)
    ensures Flat(bundle).Object? && Flat(bundle).fields.Keys == bundle.fields.Keys + {"title", "definitions"}
    ensures forall s :: bundle.Get("title") == Some(String(s)) ==> Flat(bundle).fields["title"] == String(s + "V2")
    ensures !(bundle.Get("title").Some? && bundle.fields["title"].String?) ==>
              Flat(bundle).fields["title"] == String("CodexAppServerProtocol" + "V2")
    ensures k in bundle.fields && k != "title" && k != "definitions" && k != "$ref" ==>
              Flat(bundle).fields[k] == Rewritten(bundle.fields[k])
  {
    hide Kept;
    var root := FlatRoot(bundle.fields, Kept(bundle));
    assert root.fields["title"] == String(Title(bundle.fields) + "V2");
    assert Flat(bundle).fields["title"] == Rewritten(root.fields["title"]);
  }

  /** A kept ref leads into a definition, of v2 or at the root. */
  lemma KeptRefs(bundle: Value, n: string, r: string)
    requires IsBundle(bundle) && Flattenable(bundle)
    requires n in Kept(bundle) && r in Refs(Kept(bundle)[n])
    ensures IsV2Ref(r, V2(bundle)) || IsRootRef(r, Defs(bundle))
  {
    KeptDefinitions(bundle, n);
  }

  lemma PulledIn(bundle: Value, n: string, r: string)
    requires IsBundle(bundle) && Stays(bundle, n) && r in Refs(Defs(bundle)[n]) && IsRootRef(r, Defs(bundle))
    requires NoSlash(Target(r))
    ensures Stays(bundle, First(r)) && First(r) == Target(r)
  {
    FirstSegmentOf(Target(r), []);
    assert Target(r) + [] == Target(r);
    var defs := Defs(bundle);
    assert Target(r) in NonV2Refs(defs[n]);
    if n in Pulled(defs) {
      assert Target(r) in Successors(NonV2Graph(defs), n);
    } else {
      assert n in Shared(defs);
      assert Target(r) in SharedRefs(defs);
    }
  }

  /** Where a ref leads before and after. */
  lemma RefLeads(bundle: Value, n: string, r: string)
    requires IsBundle(bundle) && Flattenable(bundle)
    requires n in Kept(bundle) && r in Refs(Kept(bundle)[n]) && First(r) in Kept(bundle) && !("v2/" <= Target(r))
    ensures if V2Prefix <= r then First(r) in V2(bundle) else First(r) in Defs(bundle)
    ensures Resolve(bundle, r) == Lookup(if V2Prefix <= r then V2(bundle)[First(r)] else Defs(bundle)[First(r)], Below(r))
    ensures Resolve(Flat(bundle), Unprefixed(r)) == Lookup(Rewritten(Kept(bundle)[First(r)]), Below(r))
  {
    hide *;
    KeptRefs(bundle, n, r);
    RefLed(bundle, r);
    RefParts(r);
    ResolveFlat(bundle, Target(r));
    StraightAs(bundle, r);
  }

  lemma RefParts(r: string)
    ensures First(r) == FirstSegment(Target(r)) && Below(r) == SplitSlash(Target(r))[1..]
  {
  }

  lemma StraightAs(bundle: Value, r: string)
    requires IsBundle(bundle) && (IsV2Ref(r, V2(bundle)) || IsRootRef(r, Defs(bundle)))
    ensures Unprefixed(r) == DefPrefix + Target(r)
  {
  }

  lemma RefLed(bundle: Value, r: string)
    requires IsBundle(bundle) && (IsV2Ref(r, V2(bundle)) || IsRootRef(r, Defs(bundle)))
    ensures V2Prefix <= r ==> First(r) in V2(bundle)
    ensures !(V2Prefix <= r) ==> First(r) in Defs(bundle)
    ensures Resolve(bundle, r) == Lookup(if V2Prefix <= r then V2(bundle)[First(r)] else Defs(bundle)[First(r)], Below(r))
  {
    hide Lookup, Resolve, SplitSlash, FirstSegment;
    ResolveTarget(bundle, r);
    if V2Prefix <= r {
      LookupV2(bundle, Target(r));
    } else {
      LookupDefinition(bundle, Defs(bundle), Target(r));
    }
  }

  lemma ResolveFlat(bundle: Value, t: string)
    requires IsBundle(bundle) && Flattenable(bundle)
    requires FirstSegment(t) in Kept(bundle) && !("v2/" <= t)
    ensures Resolve(Flat(bundle), DefPrefix + t) == Lookup(Rewritten(Kept(bundle)[FirstSegment(t)]), SplitSlash(t)[1..])
  {
    hide Lookup, Resolve, SplitSlash, Flat, Rewritten;
    KeptDefinitions(bundle, "$ref");
    FlatShape(bundle);
    FlatRef(t);
    ResolveTarget(Flat(bundle), DefPrefix + t);
    LookupDefinition(Flat(bundle), FlatDefs(bundle), t);
  }

  /** No ref of the flat bundle lies outside its definitions. */
  lemma FlatRefOrigin(bundle: Value, q: string) returns (n: string, r: string)
    requires IsBundle(bundle) && Flattenable(bundle) && q in Refs(Flat(bundle))
    ensures n in Kept(bundle) && r in Refs(Kept(bundle)[n]) && q == Unprefixed(r)
  {
    var before := FlatRoot(bundle.fields, Kept(bundle));
    r := RefOrigin(before, Unprefixed, q);
    var c := FlatRootRefs(bundle.fields, Kept(bundle), r);
    KeptDefinitions(bundle, "$ref");
    n := c;
  }

  lemma FlatRootRefs(root: map<string, Value>, flatDefs: map<string, Value>, r: string) returns (n: string)
    requires forall k :: k in root && k != "definitions" ==> Refs(root[k]) == {}
    requires "$ref" !in root && ("$ref" in flatDefs ==> !flatDefs["$ref"].String?)
    requires r in Refs(FlatRoot(root, flatDefs))
    ensures n in flatDefs && r in Refs(flatDefs[n])
  {
    var fields := FlatRoot(root, flatDefs).fields;
    StringsHoldNoRefs(fields["title"]);
    var k := RefInField(fields, r);
    assert k == "definitions";
    n := RefInField(flatDefs, r);
  }

  /** A kept ref is a ref of the flat bundle, rewritten. */
  lemma KeptRefSurvives(bundle: Value, n: string, r: string)
    requires IsBundle(bundle) && n in Kept(bundle) && r in Refs(Kept(bundle)[n])
    ensures Unprefixed(r) in Refs(Flat(bundle))
  {
    hide Refs, Kept, MapRefs;
    var kept := Kept(bundle);
    var root := FlatRoot(bundle.fields, kept);
    assert kept[n] in Children(Object(kept));
    ChildRefs(Object(kept), kept[n], r);
    assert root.fields["definitions"] == Object(kept) && Object(kept) in Children(root);
    ChildRefs(root, Object(kept), r);
    RefSurvives(root, Unprefixed, r);
  }

  lemma FlatRefIsLocal(bundle: Value, q: string)
    requires IsBundle(bundle) && Flattenable(bundle) && Complete(bundle) && q in Refs(Flat(bundle))
    ensures !(V2Prefix <= q) && DefPrefix <= q && FirstSegment(q[|DefPrefix|..]) in Kept(bundle)
  {
    hide Refs, Flat, Kept, Flattenable;
    var n, r := FlatRefOrigin(bundle, q);
    KeptRefs(bundle, n, r);
    FlatRef(Target(r));
  }

  /** Exactly when the build succeeds. */
  lemma BuiltIffComplete(bundle: Value)
    requires IsBundle(bundle) && Flattenable(bundle)
    ensures Flattened(bundle).Ok? <==> Complete(bundle)
    ensures Flattened(bundle).Ok? ==> Flattened(bundle) == Ok(Flat(bundle))
    ensures Flat(bundle).Get("definitions") == Some(Object(FlatDefs(bundle)))
  {
    hide Flat, Kept, Flattened, Complete, Refs, Flattenable, Checked;
    NoRefName(bundle);
    FlatShape(bundle);
    FlattenedIsChecked(bundle);
    if Complete(bundle) {
      forall q | q in Refs(Flat(bundle))
        ensures !(V2Prefix <= q) && DefPrefix <= q && FirstSegment(q[|DefPrefix|..]) in FlatDefs(bundle)
      {
        FlatRefIsLocal(bundle, q);
      }
      ChecksPass(Flat(bundle), FlatDefs(bundle));
    }
    if Flattened(bundle).Ok? {
      OkIsFlat(bundle);
      BuiltIsComplete(bundle);
    }
  }

  lemma NoRefName(bundle: Value)
    requires IsBundle(bundle) && Flattenable(bundle)
    ensures "$ref" !in Kept(bundle)
  {
    KeptDefinitions(bundle, "$ref");
  }

  lemma OkIsFlat(bundle: Value)
    requires IsBundle(bundle) && Flattened(bundle).Ok?
    ensures Flattened(bundle) == Ok(Flat(bundle))
  {
    hide Flat;
    FlattenedIsChecked(bundle);
  }

  lemma BuiltIsComplete(bundle: Value)
    requires IsBundle(bundle) && Flattenable(bundle) && Flattened(bundle) == Ok(Flat(bundle))
    requires Flat(bundle).Get("definitions") == Some(Object(FlatDefs(bundle)))
    ensures Complete(bundle)
  {
    hide Flat, Kept, Flattened, Refs, Flattenable;
    forall n, r | n in Kept(bundle) && r in Refs(Kept(bundle)[n]) ensures First(r) in Kept(bundle) && !("v2/" <= Target(r)) {
      KeptRefs(bundle, n, r);
      KeptRefSurvives(bundle, n, r);
      FlatRef(Target(r));
      OkBundleIsComplete(bundle, Unprefixed(r));
    }
  }

  lemma FlattenedIsChecked(bundle: Value)
    requires IsBundle(bundle)
    ensures Flattened(bundle) == Checked(Flat(bundle))
  {
  }

  lemma ChecksPass(flat: Value, defs: map<string, Value>)
    requires flat.Get("definitions") == Some(Object(defs))
    requires forall q :: q in Refs(flat) ==>
               !(V2Prefix <= q) && DefPrefix <= q && FirstSegment(q[|DefPrefix|..]) in defs
    ensures Checked(flat) == Ok(flat)
  {
    assert MissingNames(flat, defs) == {};
  }

  /** Rewritten, `r` leads to the rewriting of what it led to before, or nowhere if it led nowhere. */
  ghost predicate KeepsMeaning(bundle: Value, r: string)
    requires IsBundle(bundle)
  {
    Resolve(Flat(bundle), Unprefixed(r)) == Image(Resolve(bundle, r))
  }

  /** `q` is the rewriting of a ref of a kept definition. */
  ghost predicate HasOrigin(bundle: Value, q: string)
    requires IsBundle(bundle)
  {
    exists n, r :: n in Kept(bundle) && r in Refs(Kept(bundle)[n]) && q == Unprefixed(r)
  }

  /** Exactly which refs keep their meaning: those that lead into the winner of their name, and those for which the loser
      has the same at that place. */
  lemma RefKeepsMeaning(bundle: Value, n: string, r: string)
    requires IsBundle(bundle) && Flattenable(bundle) && Complete(bundle)
    requires n in Kept(bundle) && r in Refs(Kept(bundle)[n]) && "$ref" !in Below(r)
    ensures var x := First(r);
            KeepsMeaning(bundle, r) <==>
              || NamesWinner(bundle, r)
              || (x in V2(bundle) && x in Defs(bundle)
                  && Image(Lookup(V2(bundle)[x], Below(r))) == Image(Lookup(Defs(bundle)[x], Below(r))))
  {
    hide Rewritten, Flat, Kept, Refs, Resolve, Unprefixed, Flattenable, Lookup, SplitSlash, Image;
    KeptRefs(bundle, n, r);
    RefLeads(bundle, n, r);
    KeptDefinitions(bundle, First(r));
    LookupRewritten(Kept(bundle)[First(r)], Below(r));
  }

  /** Flattening preserves meaning. The build succeeds exactly when every kept ref leads into a kept definition; its
      definitions are then the v2 ones and the root ones that stay, each rewritten; every ref that leads into the winner of
      its name leads in the flat bundle to the rewritten image of where it led; and the flat bundle holds no other refs. */
  lemma FlatteningPreservesMeaning(bundle: Value)
    requires IsBundle(bundle) && Flattenable(bundle)
    ensures Flattened(bundle).Ok? <==> Complete(bundle)
    ensures Flattened(bundle).Ok? ==> Flattened(bundle) == Ok(Flat(bundle))
    ensures Flat(bundle).Get("definitions") == Some(Object(FlatDefs(bundle)))
    ensures forall n :: n in Kept(bundle) <==> n in V2(bundle) || Stays(bundle, n)
    ensures Complete(bundle) ==>
              forall n, r :: n in Kept(bundle) && r in Refs(Kept(bundle)[n]) && "$ref" !in Below(r) && NamesWinner(bundle, r) ==>
                KeepsMeaning(bundle, r)
    ensures forall q :: q in Refs(Flat(bundle)) ==> HasOrigin(bundle, q)
  {
    hide Flattened, Complete, NamesWinner, KeepsMeaning, Below, Kept, Flat, Refs, Stays;
    BuiltIffComplete(bundle);
    forall n ensures n in Kept(bundle) <==> n in V2(bundle) || Stays(bundle, n) {
      KeptDefinitions(bundle, n);
    }
    forall q | q in Refs(Flat(bundle)) ensures HasOrigin(bundle, q) {
      var n, r := FlatRefOrigin(bundle, q);
    }
    if Complete(bundle) {
      forall n, r | n in Kept(bundle) && r in Refs(Kept(bundle)[n]) && "$ref" !in Below(r) && NamesWinner(bundle, r)
        ensures KeepsMeaning(bundle, r)
      {
        RefKeepsMeaning(bundle, n, r);
      }
    }
  }

  /** Refs that name whole definitions need nothing more: such a bundle is always built, and if no v2 name is that of a root
      definition that stays, every ref resolves, before and after, and keeps its meaning. */
  lemma WholeRefsKeepMeaning(bundle: Value)
    requires IsBundle(bundle) && Flattenable(bundle)
    requires forall n, r :: n in Kept(bundle) && r in Refs(Kept(bundle)[n]) ==> NoSlash(Target(r))
    ensures Flattened(bundle) == Ok(Flat(bundle))
    ensures (forall n :: !(n in V2(bundle) && Stays(bundle, n))) ==>
              forall n, r :: n in Kept(bundle) && r in Refs(Kept(bundle)[n]) ==>
                KeepsMeaning(bundle, r) && Resolve(bundle, r).Some?
  {
    hide Flattened, NamesWinner, KeepsMeaning, Kept, Flat, Refs, Stays, Resolve, Flattenable;
    forall n, r | n in Kept(bundle) && r in Refs(Kept(bundle)[n])
      ensures First(r) in Kept(bundle) && !("v2/" <= Target(r))
    {
      WholeRef(bundle, n, r);
    }
    assert Complete(bundle);
    BuiltIffComplete(bundle);
    if forall n :: !(n in V2(bundle) && Stays(bundle, n)) {
      forall n, r | n in Kept(bundle) && r in Refs(Kept(bundle)[n])
        ensures KeepsMeaning(bundle, r) && Resolve(bundle, r).Some?
      {
        WholeRef(bundle, n, r);
        RefKeepsMeaning(bundle, n, r);
        RefLeads(bundle, n, r);
      }
    }
  }

  lemma V2Slash(t: string)
    ensures "v2/" <= t ==> !NoSlash(t)
  {
    if "v2/" <= t { assert t[2] == '/'; }
  }

  lemma WholeParts(r: string)
    requires NoSlash(Target(r))
    ensures First(r) == Target(r) && Below(r) == [] && !("v2/" <= Target(r))
  {
    hide Target;
    var t := Target(r);
    FirstSegmentOf(t, []);
    assert t + [] == t;
    SplitSlashName(t);
    V2Slash(t);
  }

  lemma WholeRef(bundle: Value, n: string, r: string)
    requires IsBundle(bundle) && Flattenable(bundle)
    requires n in Kept(bundle) && r in Refs(Kept(bundle)[n]) && NoSlash(Target(r))
    ensures First(r) == Target(r) && Below(r) == [] && !("v2/" <= Target(r)) && First(r) in Kept(bundle)
    ensures (forall m :: !(m in V2(bundle) && Stays(bundle, m))) ==> NamesWinner(bundle, r)
  {
    hide Target, First, Below, Kept, Refs, Straight, Resolve;
    WholeParts(r);
    KeptRefs(bundle, n, r);
    KeptDefinitions(bundle, n);
    KeptDefinitions(bundle, First(r));
    if !(V2Prefix <= r) {
      FromRoot(bundle, n, r);
      PulledIn(bundle, n, r);
    } else {
      LeadsIntoV2(bundle, r);
    }
  }

  lemma LeadsIntoV2(bundle: Value, r: string)
    requires IsBundle(bundle) && V2Prefix <= r && (IsV2Ref(r, V2(bundle)) || IsRootRef(r, Defs(bundle)))
    ensures First(r) in V2(bundle)
    ensures (forall m :: !(m in V2(bundle) && Stays(bundle, m))) ==> V2Wins(bundle, First(r))
  {
    hide First, Straight, Pulled;
    assert "v2" !in SharedNames;
    assert First(r) in SharedNames && First(r) in Defs(bundle) ==> Stays(bundle, First(r));
  }

  /** A ref outside v2 is one of a root definition. */
  lemma FromRoot(bundle: Value, n: string, r: string)
    requires IsBundle(bundle) && Flattenable(bundle)
    requires n in Kept(bundle) && r in Refs(Kept(bundle)[n]) && !(V2Prefix <= r)
    ensures Stays(bundle, n) && r in Refs(Defs(bundle)[n]) && IsRootRef(r, Defs(bundle))
  {
    hide First, Straight, Refs, Kept, Stays;
    KeptDefinitions(bundle, n);
    V2Refs(bundle, n, r);
  }

  lemma V2Refs(bundle: Value, n: string, r: string)
    requires IsBundle(bundle) && Flattenable(bundle)
    ensures n in V2(bundle) && r in Refs(V2(bundle)[n]) ==> V2Prefix <= r
    ensures Stays(bundle, n) && r in Refs(Defs(bundle)[n]) ==> IsV2Ref(r, V2(bundle)) || IsRootRef(r, Defs(bundle))
  {
    hide First, Straight, Refs, Stays;
  }

  // A bundle with a clash: the shared ClientRequest refers to a root definition whose name v2 uses as well.

  const ClashRef := DefPrefix + "X"
  const ClashV2 := map["X" := Object(map[])]
  const ClashDefs := map["v2" := Object(ClashV2), "X" := Bool(true), "ClientRequest" := Object(map["$ref" := String(ClashRef)])]
  const ClashBundle := Object(map["definitions" := Object(ClashDefs)])

  /** In that bundle the ref gets a new meaning: what it names is pulled in, but the v2 definition takes its place. */
  lemma ClashChangesMeaning()
    ensures IsBundle(ClashBundle) && Flattenable(ClashBundle) && Flattened(ClashBundle).Ok?
    ensures "ClientRequest" in Kept(ClashBundle) && ClashRef in Refs(Kept(ClashBundle)["ClientRequest"])
    ensures !KeepsMeaning(ClashBundle, ClashRef)
  {
    hide Kept, Refs, Flattened, KeepsMeaning, Stays, Flattenable, Complete;
    ClashIsFlattenable();
    ClashStays();
    KeptDefinitions(ClashBundle, "ClientRequest");
    OneRef(ClashRef);
    ClashNames();
    ClashRefsAreWhole();
    WholeRefsKeepMeaning(ClashBundle);
    BuiltIffComplete(ClashBundle);
    RefKeepsMeaning(ClashBundle, "ClientRequest", ClashRef);
    assert Lookup(ClashV2["X"], []) == Some(Object(map[])) && Lookup(ClashDefs["X"], []) == Some(Bool(true));
  }

  lemma ClashNames()
    ensures IsNonV2(ClashRef) && Target(ClashRef) == "X" && First(ClashRef) == "X" && Below(ClashRef) == [] && Straight(ClashRef)
  {
    FlatRef("X");
    SplitSlashName("X");
    FirstToken("X");
    StraightRefs(ClashRef);
  }

  lemma ClashStays()
    ensures Stays(ClashBundle, "ClientRequest") && Stays(ClashBundle, "X")
  {
    OneRef(ClashRef);
    ClashNames();
    assert "X" in NonV2Refs(ClashDefs["ClientRequest"]);
    assert "ClientRequest" in Shared(ClashDefs);
    assert "X" in SharedRefs(ClashDefs);
  }

  lemma ClashRefsAreWhole()
    ensures forall n, r :: n in Kept(ClashBundle) && r in Refs(Kept(ClashBundle)[n]) ==> NoSlash(Target(r))
  {
    hide Refs, Stays;
    NoRefs();
    OneRef(ClashRef);
    ClashNames();
    StaysInside(ClashBundle);
    forall n, r | n in Kept(ClashBundle) && r in Refs(Kept(ClashBundle)[n]) ensures NoSlash(Target(r)) {
      KeptDefinitions(ClashBundle, n);
      assert r == ClashRef;
    }
  }

  lemma ClashIsFlattenable()
    ensures IsBundle(ClashBundle) && Flattenable(ClashBundle)
  {
    hide Refs, Stays, Straight, First, Target;
    OneRef(ClashRef);
    ClashNames();
    NoRefs();
    assert Defs(ClashBundle) == ClashDefs && V2(ClashBundle) == ClashV2;
    StaysInside(ClashBundle);
    forall n, r | Stays(ClashBundle, n) && r in Refs(ClashDefs[n]) ensures IsRootRef(r, ClashDefs) {
      assert r == ClashRef;
    }
  }

  lemma StaysInside(bundle: Value)
    requires IsBundle(bundle)
    ensures forall n :: Stays(bundle, n) ==> n in Defs(bundle) && n != "v2"
  {
  }

  lemma NoRefs()
    ensures Refs(Object(map[])) == {} && Refs(Bool(true)) == {}
  {
  }

  lemma OneRef(r: string)
    ensures Refs(Object(map["$ref" := String(r)])) == {r}
  {
    var v := Object(map["$ref" := String(r)]);
    StringsHoldNoRefs(String(r));
    forall c | c in Children(v) ensures c == String(r) {
      var k :| k in v.fields && v.fields[k] == c;
    }
    assert OwnRef(v) == {r};
  }
}
