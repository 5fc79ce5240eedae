/** `strip_method_variants_from_json_schema`: dropping root variants by method, then every
    definition that the surviving root no longer reaches. */
module SchemaStrip {
  import opened Wrappers
  import opened Text
  import opened Json
  import opened Reachability

  // ---------------------------------------------------------- method variants

  function StringLiteral(v: Value): Option<string> {
    match v.Get("const")
    case Some(String(s)) => Some(s)
    case _ =>
      match v.Get("enum")
      case Some(Array(items)) => if items == [] then None else items[0].AsString()
      case _ => None
  }

  /** The literal a schema allows: its `const`, or else the first of its `enum`, if that is a string. */
  lemma StringLiteralIs(v: Value, s: string)
    ensures StringLiteral(v) == Some(s) <==>
              || v.Get("const") == Some(String(s))
              || (!(v.Get("const").Some? && v.Get("const").value.String?)
                  && exists rest :: v.Get("enum") == Some(Array([String(s)] + rest)))
  {
    if StringLiteral(v) == Some(s) && v.Get("const") != Some(String(s)) {
      var items := v.Get("enum").value.items;
      assert items == [String(s)] + items[1..];
    }
    if rest :| v.Get("enum") == Some(Array([String(s)] + rest)) {
      assert ([String(s)] + rest)[0] == String(s);
    }
  }

  predicate IsMethodVariantInSet(v: Value, methods: set<string>) {
    match v.Get("properties")
    case Some(properties) =>
      (match properties.Get("method")
       case Some(schema) => StringLiteral(schema).Some? && StringLiteral(schema).value in methods
       case None => false)
    case None => false
  }

  /** A variant of one of the methods: its property `method` allows just that literal. */
  lemma MethodVariants(v: Value, methods: set<string>)
    ensures IsMethodVariantInSet(v, methods) <==>
              exists schema, s :: Walk(v, [Field("properties"), Field("method")]) == Some(schema) && StringLiteral(schema) == Some(s) && s in methods
  {
    hide StringLiteral;
    var path := [Field("properties"), Field("method")];
    assert path[1..] == [Field("method")] && path[1..][1..] == [];
    assert forall u: Value :: Walk(u, [Field("method")]) == u.Get("method");
  }

  function Retained(variants: seq<Value>, methods: set<string>): seq<Value> {
    if variants == [] then []
    else if IsMethodVariantInSet(variants[0], methods) then Retained(variants[1..], methods)
    else [variants[0]] + Retained(variants[1..], methods)
  }

  /** The variants that stay are those of other methods: each of them, and none else. */
  lemma {:induction false} RetainedVariants(variants: seq<Value>, methods: set<string>)
    ensures forall v :: v in Retained(variants, methods) <==> v in variants && !IsMethodVariantInSet(v, methods)
  {
    if variants != [] {
      RetainedVariants(variants[1..], methods);
    }
  }

  /** ... and they stay in order: each is at the place in the result that the number of those before it gives. */
  lemma {:induction false} RetainedInOrder(variants: seq<Value>, methods: set<string>, i: nat)
    requires i < |variants|
    ensures |Retained(variants[..i], methods)| <= |Retained(variants, methods)|
    ensures !IsMethodVariantInSet(variants[i], methods) ==>
              var at := |Retained(variants[..i], methods)|;
              at < |Retained(variants, methods)| && Retained(variants, methods)[at] == variants[i]
    ensures |Retained(variants[..i + 1], methods)|
            == |Retained(variants[..i], methods)| + if IsMethodVariantInSet(variants[i], methods) then 0 else 1
  {
    if i > 0 {
      RetainedInOrder(variants[1..], methods, i - 1);
      assert variants[..i][1..] == variants[1..][..i - 1] && variants[..i + 1][1..] == variants[1..][..i];
    } else {
      assert variants[..1][1..] == [] && variants[..0] == [];
    }
  }

  // ------------------------------------------------------ local definition names

  function OwnNames(v: Value): set<string> {
    match v.Get("$ref")
    case Some(String(r)) => if DefPrefix <= r then {LocalName(r)} else {}
    case _ => {}
  }

  /** The definition names that the local refs of `v` begin with. */
  function LocalNames(v: Value): set<string> {
    OwnNames(v) + set c, n | c in Children(v) && n in LocalNames(c) :: n
  }

  function NamesIn(vs: set<Value>): set<string> {
    set c, n | c in vs && n in LocalNames(c) :: n
  }

  lemma NamesSplit(v: Value)
    ensures OwnNames(v) + NamesIn(Children(v)) == LocalNames(v)
  {
  }

  /** Visiting the members of `all` one after the other, `todo` being the ones to come. */
  lemma NamesVisit(all: set<Value>, todo: set<Value>)
    ensures NamesIn(all - all) == {} && NamesIn(all - {}) == NamesIn(all)
    ensures forall c :: c in todo && todo <= all ==> NamesIn(all - todo) + LocalNames(c) == NamesIn(all - (todo - {c}))
  {
    assert all - {} == all;
  }

  lemma {:induction false} RefIsNamed(v: Value, r: string)
    requires r in Refs(v) && DefPrefix <= r
    ensures LocalName(r) in LocalNames(v)
  {
    if r !in OwnRef(v) {
      var c :| c in Children(v) && r in Refs(c);
      RefIsNamed(c, r);
    }
  }

  /** Each of those names does begin a local ref. */
  lemma {:induction false} NameHasRef(v: Value, n: string) returns (r: string)
    requires n in LocalNames(v)
    ensures r in Refs(v) && DefPrefix <= r && LocalName(r) == n
  {
    if n in OwnNames(v) {
      r := v.fields["$ref"].s;
    } else {
      var c :| c in Children(v) && n in LocalNames(c);
      r := NameHasRef(c, n);
      ChildRefs(v, c, r);
    }
  }

  /** So the names collected are exactly the first segments of the local refs. */
  lemma NamesAreFirstSegments(v: Value)
    ensures LocalNames(v) == set r | r in Refs(v) && DefPrefix <= r :: LocalName(r)
  {
    forall n | n in LocalNames(v) ensures exists r :: r in Refs(v) && DefPrefix <= r && LocalName(r) == n {
      var r := NameHasRef(v, n);
    }
    forall r | r in Refs(v) && DefPrefix <= r ensures LocalName(r) in LocalNames(v) {
      RefIsNamed(v, r);
    }
  }

  /** The children that the root walk enters: it skips `definitions` and `$defs` at every depth. */
  function OuterChildren(v: Value): (cs: set<Value>)
    ensures cs <= Children(v)
    ensures forall c :: c in cs ==> c < v
  {
    match v
    case Object(m) =>
      assert forall k :: k in m ==> m[k] in m.Values;
      set k | k in m && k != "definitions" && k != "$defs" :: m[k]
    case _ => Children(v)
  }

  function OuterRefs(v: Value): set<string> {
    OwnRef(v) + set c, r | c in OuterChildren(v) && r in OuterRefs(c) :: r
  }

  function OuterNames(v: Value): set<string> {
    OwnNames(v) + set c, n | c in OuterChildren(v) && n in OuterNames(c) :: n
  }

  function OuterNamesIn(vs: set<Value>): set<string> {
    set c, n | c in vs && n in OuterNames(c) :: n
  }

  lemma OuterNamesSplit(v: Value)
    ensures OuterNamesIn(OuterChildren(v)) + OwnNames(v) == OuterNames(v)
  {
  }

  lemma OuterNamesVisit(all: set<Value>, todo: set<Value>)
    ensures OuterNamesIn(all - all) == {} && OuterNamesIn(all - {}) == OuterNamesIn(all)
    ensures forall c :: c in todo && todo <= all ==>
              OuterNamesIn(all - todo) + OuterNames(c) == OuterNamesIn(all - (todo - {c}))
  {
    assert all - {} == all;
  }

  lemma {:induction false} OuterRefIsNamed(v: Value, r: string)
    requires r in OuterRefs(v) && DefPrefix <= r
    ensures LocalName(r) in OuterNames(v)
  {
    if r !in OwnRef(v) {
      var c :| c in OuterChildren(v) && r in OuterRefs(c);
      OuterRefIsNamed(c, r);
    }
  }

  /** The path passes no definition map. */
  predicate Outside(path: seq<PathStep>) {
    Field("definitions") !in path && Field("$defs") !in path
  }

  lemma OuterStep(v: Value, c: Value) returns (step: PathStep)
    requires c in OuterChildren(v)
    ensures Outside([step]) && Walk(v, [step]) == Some(c)
    ensures forall path :: Walk(v, [step] + path) == Walk(c, path)
  {
    match v
    case Object(m) =>
      var k :| k in m && k != "definitions" && k != "$defs" && m[k] == c;
      step := Field(k);
      StepDown(v, step, c);
    case Array(items) =>
      step := StepTo(v, c);
  }

  /** What the root walk sees are the refs at places outside definition maps. */
  lemma {:induction false} OuterRefsArePlaces(v: Value, r: string)
    ensures r in OuterRefs(v) <==> exists path :: Outside(path) && RefAt(v, path, r)
  {
    if r in OuterRefs(v) {
      if r in OwnRef(v) {
        assert Outside([]) && RefAt(v, [], r);
      } else {
        var c :| c in OuterChildren(v) && r in OuterRefs(c);
        OuterRefsArePlaces(c, r);
        var path :| Outside(path) && RefAt(c, path, r);
        var step := OuterStep(v, c);
        assert Outside([step] + path) && RefAt(v, [step] + path, r);
      }
    }
    if path :| Outside(path) && RefAt(v, path, r) {
      OuterPlaceIsRef(v, path, r);
    }
  }

  lemma {:induction false} OuterPlaceIsRef(v: Value, path: seq<PathStep>, r: string)
    requires Outside(path) && RefAt(v, path, r)
    ensures r in OuterRefs(v)
    decreases path
  {
    if path == [] {
      assert r in OwnRef(v);
    } else {
      assert path[0] in path && forall s :: s in path[1..] ==> s in path;
      match (v, path[0])
      case (Object(m), Field(k)) =>
        OuterPlaceIsRef(m[k], path[1..], r);
        assert m[k] in OuterChildren(v);
      case (Array(items), Element(i)) =>
        OuterPlaceIsRef(items[i], path[1..], r);
        assert items[i] in OuterChildren(v);
    }
  }

  lemma {:induction false} OuterNameHasRef(v: Value, n: string) returns (r: string)
    requires n in OuterNames(v)
    ensures r in OuterRefs(v) && DefPrefix <= r && LocalName(r) == n
  {
    if n in OwnNames(v) {
      r := v.fields["$ref"].s;
    } else {
      var c :| c in OuterChildren(v) && n in OuterNames(c);
      r := OuterNameHasRef(c, n);
    }
  }

  /** What the root walk collects are exactly the first segments of the local refs outside definition maps. */
  lemma OuterNamesAreFirstSegments(v: Value)
    ensures OuterNames(v) == set r | r in OuterRefs(v) && DefPrefix <= r :: LocalName(r)
  {
    forall n | n in OuterNames(v) ensures exists r :: r in OuterRefs(v) && DefPrefix <= r && LocalName(r) == n {
      var r := OuterNameHasRef(v, n);
    }
    forall r | r in OuterRefs(v) && DefPrefix <= r ensures LocalName(r) in OuterNames(v) {
      OuterRefIsNamed(v, r);
    }
  }

  function LocalGraph(defs: map<string, Value>): Graph {
    map n | n in defs :: LocalNames(defs[n])
  }

  // ----------------------------------------------------------------- worklist

  /** `names` were offered one by one: the new ones are in the set, and once each on the queue. */
  ghost predicate Offered(queue: seq<string>, reachable: set<string>, names: set<string>, queue': seq<string>, reachable': set<string>) {
    && reachable' == reachable + names
    && Queued(queue') == Queued(queue) + (names - reachable)
    && |queue'| - |queue| == |reachable'| - |reachable|
  }

  lemma OfferedTwice(q: seq<string>, s: set<string>, a: set<string>, q1: seq<string>, s1: set<string>, b: set<string>, q2: seq<string>, s2: set<string>)
    requires Offered(q, s, a, q1, s1) && Offered(q1, s1, b, q2, s2)
    ensures Offered(q, s, a + b, q2, s2) && Offered(q, s, b + a, q2, s2)
  {
    assert Queued(q2) == Queued(q) + (a - s) + (b - s1);
  }

  lemma OneOffered(q: seq<string>, s: set<string>, n: string)
    ensures if n in s then Offered(q, s, {n}, q, s) else Offered(q, s, {n}, q + [n], s + {n})
    ensures Offered(q, s, {}, q, s)
  {
    assert Queued(q + [n]) == Queued(q) + {n};
  }

  method CollectLocalDefinitionRefHere(value: Value, queue: seq<string>, reachable: set<string>)
    returns (queue': seq<string>, reachable': set<string>)
    ensures Offered(queue, reachable, OwnNames(value), queue', reachable')
  {
    queue', reachable' := queue, reachable;
    var own := value.Get("$ref");
    if own.None? || !own.value.String? {
      OneOffered(queue, reachable, "");
      return;
    }
    var reference := own.value.s;
    if !(DefPrefix <= reference) {
      OneOffered(queue, reachable, "");
      return;
    }
    var name := LocalName(reference);
    OneOffered(queue, reachable, name);
    if name !in reachable {
      reachable' := reachable + {name};
      queue' := queue + [name];
    }
  }

  method CollectLocalDefinitionRefs(value: Value, queue: seq<string>, reachable: set<string>)
    returns (queue': seq<string>, reachable': set<string>)
    ensures Offered(queue, reachable, LocalNames(value), queue', reachable')
    decreases value, 1
  {
    hide Offered, LocalNames, NamesIn;
    var q, s := CollectLocalDefinitionRefHere(value, queue, reachable);
    queue', reachable' := CollectFromChildren(value, q, s);
    OfferedTwice(queue, reachable, OwnNames(value), q, s, NamesIn(Children(value)), queue', reachable');
    NamesSplit(value);
  }

  method CollectFromChildren(value: Value, queue: seq<string>, reachable: set<string>)
    returns (queue': seq<string>, reachable': set<string>)
    ensures Offered(queue, reachable, NamesIn(Children(value)), queue', reachable')
    decreases value, 0
  {
    hide Offered, LocalNames, NamesIn, Children;
    queue', reachable' := queue, reachable;
    NothingOffered(queue, reachable);
    var todo := Children(value);
    NamesVisit(todo, todo);
    while todo != {}
      invariant todo <= Children(value)
      invariant Offered(queue, reachable, NamesIn(Children(value) - todo), queue', reachable')
      decreases todo
    {
      var child :| child in todo;
      var q, s := CollectLocalDefinitionRefs(child, queue', reachable');
      OfferedTwice(queue, reachable, NamesIn(Children(value) - todo), queue', reachable', LocalNames(child), q, s);
      NamesVisit(Children(value), todo);
      queue', reachable', todo := q, s, todo - {child};
    }
  }

  method CollectLocalDefinitionRefsExcludingMaps(value: Value, queue: seq<string>, reachable: set<string>)
    returns (queue': seq<string>, reachable': set<string>)
    ensures Offered(queue, reachable, OuterNames(value), queue', reachable')
    decreases value, 1
  {
    hide Offered, OuterNames, OuterNamesIn;
    var q, s := CollectFromOuterChildren(value, queue, reachable);
    queue', reachable' := CollectLocalDefinitionRefHere(value, q, s);
    OfferedTwice(queue, reachable, OuterNamesIn(OuterChildren(value)), q, s, OwnNames(value), queue', reachable');
    OuterNamesSplit(value);
  }

  method CollectFromOuterChildren(value: Value, queue: seq<string>, reachable: set<string>)
    returns (queue': seq<string>, reachable': set<string>)
    ensures Offered(queue, reachable, OuterNamesIn(OuterChildren(value)), queue', reachable')
    decreases value, 0
  {
    hide Offered, OuterNames, OuterNamesIn, OuterChildren;
    queue', reachable' := queue, reachable;
    NothingOffered(queue, reachable);
    var todo := OuterChildren(value);
    OuterNamesVisit(todo, todo);
    while todo != {}
      invariant todo <= OuterChildren(value)
      invariant Offered(queue, reachable, OuterNamesIn(OuterChildren(value) - todo), queue', reachable')
      decreases todo
    {
      var child :| child in todo;
      var q, s := CollectLocalDefinitionRefsExcludingMaps(child, queue', reachable');
      OfferedTwice(queue, reachable, OuterNamesIn(OuterChildren(value) - todo), queue', reachable', OuterNames(child), q, s);
      OuterNamesVisit(OuterChildren(value), todo);
      queue', reachable', todo := q, s, todo - {child};
    }
  }

  lemma Popped(queue: seq<string>)
    requires queue != []
    ensures Queued(queue) == Queued(queue[..|queue| - 1]) + {queue[|queue| - 1]}
  {
    assert queue == queue[..|queue| - 1] + [queue[|queue| - 1]];
  }

  lemma Unreached(all: set<string>, s: set<string>)
    ensures s <= all ==> |all - s| == |all| - |s|
  {
  }

  /** One turn of the worklist: the last name is expanded, and the measure goes down. */
  lemma Expanded(g: Graph, roots: set<string>, done: set<string>, queue: seq<string>, reachable: set<string>, queue': seq<string>, reachable': set<string>)
    requires queue != [] && Searching(g, roots, done, Queued(queue)) && reachable == done + Queued(queue)
    requires var last := |queue| - 1; Offered(queue[..last], reachable, Successors(g, queue[last]), queue', reachable')
    ensures var name := queue[|queue| - 1];
            && Searching(g, roots, done + {name}, Queued(queue'))
            && reachable' == done + {name} + Queued(queue')
    ensures |Closure(g, roots) - reachable'| + |queue'| < |Closure(g, roots) - reachable| + |queue|
  {
    var name := queue[|queue| - 1];
    Popped(queue);
    SearchStep(g, roots, done, Queued(queue), name, Queued(queue'));
    Unreached(Closure(g, roots), reachable);
    Unreached(Closure(g, roots), reachable');
  }

  ghost function ReachableFrom(schema: Value): set<string> {
    match schema.Get("definitions")
    case Some(Object(defs)) => Closure(LocalGraph(defs), OuterNames(schema))
    case _ => {}
  }

  method ReachableLocalDefinitions(schema: Value) returns (reachable: set<string>)
    ensures reachable == ReachableFrom(schema)
  {
    var entry := schema.Get("definitions");
    if entry.None? || !entry.value.Object? {
      return {};
    }
    var queue: seq<string>;
    queue, reachable := CollectLocalDefinitionRefsExcludingMaps(schema, [], {});
    assert Queued([]) == {};
    reachable := RunWorklist(entry.value.fields, queue, reachable);
  }

  /** The reachability worklist: every name is queued once, so unreached names plus queue length shrink. */
  method RunWorklist(defs: map<string, Value>, queue0: seq<string>, roots: set<string>) returns (reachable: set<string>)
    requires Queued(queue0) == roots
    ensures reachable == Closure(LocalGraph(defs), roots)
  {
    ghost var g := LocalGraph(defs);
    ghost var done: set<string> := {};
    var queue := queue0;
    reachable := roots;
    SearchStart(g, roots);
    while queue != []
      invariant Searching(g, roots, done, Queued(queue))
      invariant reachable == done + Queued(queue)
      decreases |Closure(g, roots) - reachable| + |queue|
    {
      var name := queue[|queue| - 1];
      var rest := queue[..|queue| - 1];
      var queue', reachable' := rest, reachable;
      if name in defs {
        queue', reachable' := CollectLocalDefinitionRefs(defs[name], rest, reachable);
      } else {
        NothingOffered(rest, reachable);
      }
      Expanded(g, roots, done, queue, reachable, queue', reachable');
      queue, reachable, done := queue', reachable', done + {name};
    }
    SearchDone(g, roots, done);
  }

  lemma NothingOffered(queue: seq<string>, reachable: set<string>)
    ensures Offered(queue, reachable, {}, queue, reachable)
  {
  }

  // -------------------------------------------------------------------- strip

  function WithVariants(schema: Value, methods: set<string>): Value
    requires schema.Object? && "oneOf" in schema.fields && schema.fields["oneOf"].Array?
  {
    Object(schema.fields["oneOf" := Array(Retained(schema.fields["oneOf"].items, methods))])
  }

  function Restricted(defs: map<string, Value>, names: set<string>): map<string, Value> {
    map n | n in defs && n in names :: defs[n]
  }

  predicate HasVariants(schema: Value) {
    schema.Get("oneOf").Some? && schema.fields["oneOf"].Array?
  }

  predicate HasDefinitions(schema: Value) {
    schema.Get("definitions").Some? && schema.fields["definitions"].Object?
  }

  ghost function Stripped(schema: Value, methods: set<string>): Value {
    if !HasVariants(schema) then schema
    else
      var root := WithVariants(schema, methods);
      if !HasDefinitions(schema) then root
      else Object(root.fields["definitions" := Object(Restricted(root.fields["definitions"].fields, ReachableFrom(root)))])
  }

  method StripMethodVariants(schema: Value, methods: set<string>) returns (r: Value)
    ensures r == Stripped(schema, methods)
  {
    r := schema;
    if !schema.Object? || "oneOf" !in schema.fields || !schema.fields["oneOf"].Array? {
      return;
    }
    r := WithVariants(schema, methods);
    var reachable := ReachableLocalDefinitions(r);
    if "definitions" in r.fields && r.fields["definitions"].Object? {
      r := Object(r.fields["definitions" := Object(Restricted(r.fields["definitions"].fields, reachable))]);
    }
  }

  ghost function KeptNames(schema: Value, methods: set<string>): set<string>
    requires HasVariants(schema)
  {
    ReachableFrom(WithVariants(schema, methods))
  }

  /** What the root walk sees does not depend on the definitions. */
  lemma OuterNamesIgnoreDefinitions(fields: map<string, Value>, defs: Value)
    requires "definitions" in fields
    ensures OuterRefs(Object(fields["definitions" := defs])) == OuterRefs(Object(fields))
    ensures OuterNames(Object(fields["definitions" := defs])) == OuterNames(Object(fields))
  {
    var fields' := fields["definitions" := defs];
    assert OuterChildren(Object(fields')) == OuterChildren(Object(fields)) by {
      forall c | c in OuterChildren(Object(fields)) ensures c in OuterChildren(Object(fields')) {
        var k :| k in fields && k != "definitions" && k != "$defs" && fields[k] == c;
        assert fields'[k] == c;
      }
      forall c | c in OuterChildren(Object(fields')) ensures c in OuterChildren(Object(fields)) {
        var k :| k in fields' && k != "definitions" && k != "$defs" && fields'[k] == c;
        assert fields[k] == c;
      }
    }
  }

  /** Only the variants and the definitions of a schema change, and only where it has variants; the variants that stay are
      those of other methods, whether or not there are definitions to strip. */
  lemma StripKeepsTheRest(schema: Value, methods: set<string>, k: string)
    ensures !HasVariants(schema) ==> Stripped(schema, methods) == schema
    ensures HasVariants(schema) ==>
              Stripped(schema, methods).Get("oneOf") == Some(Array(Retained(schema.fields["oneOf"].items, methods)))
    ensures k != "oneOf" && (k != "definitions" || !HasDefinitions(schema)) ==> Stripped(schema, methods).Get(k) == schema.Get(k)
  {
  }

  lemma StripShape(schema: Value, methods: set<string>)
    requires HasVariants(schema) && HasDefinitions(schema)
    ensures var out := Stripped(schema, methods);
            && HasVariants(out) && HasDefinitions(out)
            && out.fields["definitions"].fields == Restricted(schema.fields["definitions"].fields, KeptNames(schema, methods))
            && out.fields["oneOf"].items == Retained(schema.fields["oneOf"].items, methods)
            && out.fields.Keys == schema.fields.Keys
            && forall k :: k in schema.fields && k != "oneOf" && k != "definitions" ==> out.fields[k] == schema.fields[k]
  {
  }

  lemma KeptNamesOfResult(schema: Value, methods: set<string>)
    requires HasVariants(schema) && HasDefinitions(schema)
    ensures OuterNames(Stripped(schema, methods)) == OuterNames(WithVariants(schema, methods))
    ensures OuterRefs(Stripped(schema, methods)) == OuterRefs(WithVariants(schema, methods))
    ensures KeptNames(schema, methods)
         == Closure(LocalGraph(schema.fields["definitions"].fields), OuterNames(Stripped(schema, methods)))
  {
    var root, out := WithVariants(schema, methods), Stripped(schema, methods);
    OuterNamesIgnoreDefinitions(root.fields, out.fields["definitions"]);
  }

  /** The kept definitions are the existing ones among the least set of names reachable from the surviving root,
      unchanged. */
  lemma StripKeepsTheReachable(schema: Value, methods: set<string>)
    requires HasVariants(schema) && HasDefinitions(schema)
    ensures HasDefinitions(Stripped(schema, methods))
    ensures var out, defs := Stripped(schema, methods), schema.fields["definitions"].fields;
            var kept := out.fields["definitions"].fields;
            && (forall n :: n in kept <==> n in defs && Reachable(LocalGraph(defs), OuterNames(out), n))
            && (forall n :: n in kept ==> kept[n] == defs[n])
  {
    StripShape(schema, methods);
    KeptNamesOfResult(schema, methods);
    var defs, roots := schema.fields["definitions"].fields, OuterNames(Stripped(schema, methods));
    forall n ensures n in KeptNames(schema, methods) <==> Reachable(LocalGraph(defs), roots, n) {
      ClosureIsReachable(LocalGraph(defs), roots, n);
    }
  }

  /** A chain of local refs: the first lies in the root outside definition maps, each next one in the definition that the
      one before it begins with. The names are what they begin with. */
  ghost predicate IsChain(root: Value, defs: map<string, Value>, names: seq<string>) {
    && names != []
    && (exists r :: r in OuterRefs(root) && DefPrefix <= r && FirstSegment(r[|DefPrefix|..]) == names[0])
    && forall i :: 0 <= i < |names| - 1 ==> names[i] in defs && Leads(defs[names[i]], names[i + 1])
  }

  ghost predicate Leads(v: Value, name: string) {
    exists r :: r in Refs(v) && DefPrefix <= r && FirstSegment(r[|DefPrefix|..]) == name
  }

  /** A definition is kept exactly when such a chain of refs ends in it. */
  lemma StripKeepsChains(schema: Value, methods: set<string>, n: string)
    requires HasVariants(schema) && HasDefinitions(schema)
    ensures var out, defs := Stripped(schema, methods), schema.fields["definitions"].fields;
            && HasDefinitions(out)
            && (n in out.fields["definitions"].fields <==>
                  n in defs && exists names :: IsChain(out, defs, names) && names[|names| - 1] == n)
            && (n in out.fields["definitions"].fields ==> out.fields["definitions"].fields[n] == defs[n])
  {
    hide Stripped, Reachable, IsChain, LocalGraph, OuterNames;
    StripKeepsTheReachable(schema, methods);
    ChainsReach(Stripped(schema, methods), schema.fields["definitions"].fields, n);
  }

  lemma ChainsReach(root: Value, defs: map<string, Value>, n: string)
    ensures Reachable(LocalGraph(defs), OuterNames(root), n)
            <==> exists names :: IsChain(root, defs, names) && names[|names| - 1] == n
  {
    hide LocalGraph, OuterNames, OuterRefs, Leads;
    if Reachable(LocalGraph(defs), OuterNames(root), n) {
      var path :| IsPath(LocalGraph(defs), OuterNames(root), path) && path[|path| - 1] == n;
      PathIsChain(root, defs, path);
    }
    if names :| IsChain(root, defs, names) && names[|names| - 1] == n {
      PathIsChain(root, defs, names);
    }
  }

  lemma PathIsChain(root: Value, defs: map<string, Value>, names: seq<string>)
    ensures IsPath(LocalGraph(defs), OuterNames(root), names) <==> IsChain(root, defs, names)
  {
    hide LocalGraph, OuterNames, OuterRefs, Leads, Successors;
    if names != [] {
      RootLeads(root, names[0]);
      if IsPath(LocalGraph(defs), OuterNames(root), names) {
        forall i | 0 <= i < |names| - 1 ensures names[i] in defs && Leads(defs[names[i]], names[i + 1]) {
          assert names[i + 1] in Successors(LocalGraph(defs), names[i]);
          DefinitionLeads(defs, names[i], names[i + 1]);
        }
      }
      if IsChain(root, defs, names) {
        forall i | 0 <= i < |names| - 1 ensures names[i + 1] in Successors(LocalGraph(defs), names[i]) {
          assert names[i] in defs && Leads(defs[names[i]], names[i + 1]);
          DefinitionLeads(defs, names[i], names[i + 1]);
        }
      }
    }
  }

  lemma RootLeads(root: Value, n: string)
    ensures n in OuterNames(root)
            <==> exists r :: r in OuterRefs(root) && DefPrefix <= r && FirstSegment(r[|DefPrefix|..]) == n
  {
    hide OuterNames, OuterRefs, FirstSegment;
    OuterNamesAreFirstSegments(root);
  }

  lemma DefinitionLeads(defs: map<string, Value>, m: string, n: string)
    ensures n in Successors(LocalGraph(defs), m) <==> m in defs && Leads(defs[m], n)
  {
    hide LocalNames, Refs, FirstSegment;
    if m in defs { NamesAreFirstSegments(defs[m]); }
  }

  lemma ResolveThroughDefinitions(root: Value, r: string)
    requires HasDefinitions(root) && DefPrefix <= r
    ensures var defs := root.fields["definitions"].fields;
            LocalName(r) !in defs ==> Resolve(root, r) == None
    ensures var defs := root.fields["definitions"].fields;
            LocalName(r) in defs ==> Resolve(root, r) == Lookup(defs[LocalName(r)], SplitSlash(r[|DefPrefix|..])[1..])
  {
    var suffix := r[|DefPrefix|..];
    ResolveDef(root, suffix);
    assert r == DefRef(suffix);
    var tokens := ["definitions"] + SplitSlash(suffix);
    assert tokens[1..] == SplitSlash(suffix);
    assert SplitSlash(suffix)[0] == LocalName(r);
  }

  /** What becomes of any local ref: it resolves as before, unless it names a definition that was dropped. */
  lemma RefFate(schema: Value, methods: set<string>, r: string)
    requires HasVariants(schema) && HasDefinitions(schema) && DefPrefix <= r
    ensures Resolve(Stripped(schema, methods), r)
         == if LocalName(r) in KeptNames(schema, methods) then Resolve(schema, r) else None
  {
    var out := Stripped(schema, methods);
    ResolveThroughDefinitions(schema, r);
    ResolveThroughDefinitions(out, r);
  }

  /** Every local ref that is left, in the root outside `definitions`/`$defs` keys or in a kept definition,
      names exactly what it named before. */
  lemma StripKeepsRefs(schema: Value, methods: set<string>, r: string)
    requires HasVariants(schema) && HasDefinitions(schema) && DefPrefix <= r
    requires
      || r in OuterRefs(Stripped(schema, methods))
      || exists n :: n in Stripped(schema, methods).fields["definitions"].fields
                     && r in Refs(Stripped(schema, methods).fields["definitions"].fields[n])
    ensures Resolve(Stripped(schema, methods), r) == Resolve(schema, r)
  {
    var out, defs := Stripped(schema, methods), schema.fields["definitions"].fields;
    StripShape(schema, methods);
    KeptNamesOfResult(schema, methods);
    var g := LocalGraph(defs);
    if r in OuterRefs(out) {
      OuterRefIsNamed(out, r);
    } else {
      var n :| n in out.fields["definitions"].fields && r in Refs(out.fields["definitions"].fields[n]);
      RefIsNamed(defs[n], r);
      assert LocalName(r) in Successors(g, n);
    }
    RefFate(schema, methods, r);
  }

  /** A ref under a nested `$defs` key is not followed, and can be left dangling. */
  lemma NestedDefsCanDangle() returns (schema: Value, r: string)
    ensures HasVariants(schema) && HasDefinitions(schema)
    ensures r in Refs(Stripped(schema, {})) && DefPrefix <= r
    ensures Resolve(schema, r).Some? && Resolve(Stripped(schema, {}), r) == None
  {
    r := "#/definitions/B";
    var inner := Object(map["$ref" := String(r)]);
    var nested := Object(map["A" := inner]);
    var defs := map["B" := Null];
    schema := Object(map["oneOf" := Array([]), "$defs" := nested, "definitions" := Object(defs)]);
    var out := Stripped(schema, {});
    NothingReached(schema, defs);
    assert r in Refs(out) by {
      assert r in OwnRef(inner);
      assert nested.fields["A"] == inner && inner in Children(nested);
      ChildRefs(nested, inner, r);
      assert out.fields["$defs"] == nested && nested in Children(out);
      ChildRefs(out, nested, r);
    }
    NamesB(r);
    RefFate(schema, {}, r);
    ResolveThroughDefinitions(schema, r);
  }

  lemma NamesB(r: string)
    requires r == "#/definitions/B"
    ensures DefPrefix <= r && LocalName(r) == "B" && SplitSlash(r[|DefPrefix|..])[1..] == []
  {
    assert r[|DefPrefix|..] == "B";
    FirstSegmentOf("B", []);
    assert "B" + [] == "B";
    SplitSlashName("B");
  }

  lemma NothingReached(schema: Value, defs: map<string, Value>)
    requires schema.Object? && schema.fields.Keys == {"oneOf", "$defs", "definitions"}
    requires schema.fields["oneOf"] == Array([]) && schema.fields["definitions"] == Object(defs)
    ensures KeptNames(schema, {}) == {}
  {
    var root := WithVariants(schema, {});
    assert root.fields["oneOf"] == Array([]);
    forall c | c in OuterChildren(root) ensures OuterNames(c) == {} {
      assert c == Array([]);
    }
    assert OuterNames(root) == {};
    ClosureIsLeast(LocalGraph(defs), {}, {});
  }
}
