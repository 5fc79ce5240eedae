/** `build_schema_bundle`: merging generated schemas into one bundle, each namespaced
    schema and its definitions under their namespace. */
module SchemaBundle {
  import opened Wrappers
  import opened Text
  import opened Json

  const IgnoredDefinitions := {"Option<()>"}
  const SpecialDefinitions := {"ClientNotification", "ClientRequest", "EventMsg", "ServerNotification", "ServerRequest"}

  datatype Generated = Generated(namespace: Option<string>, logicalName: string, value: Value, inV1Dir: bool)

  datatype BundleError = Collision(namespace: string, name: string) | NamespaceNotAnObject(namespace: string)

  // ------------------------------------------------------------- ref rewriting

  /** `rewrite_refs_to_namespace` on one reference. */
  function IntoNamespace(ns: string): string -> string {
    (r: string) =>
      if DefPrefix <= r && !(ns + "/" <= r[|DefPrefix|..]) then DefPrefix + ns + "/" + r[|DefPrefix|..] else r
  }

  function TrimDigits(name: string): string {
    if name == [] || !('0' <= name[|name| - 1] <= '9') then name else TrimDigits(name[..|name| - 1])
  }

  function NamespaceFor(name: string, types: map<string, string>): Option<string> {
    if name in types then Some(types[name])
    else if TrimDigits(name) != name && TrimDigits(name) in types then Some(types[TrimDigits(name)])
    else None
  }

  /** `rewrite_refs_to_known_namespaces` on one reference. */
  function IntoKnownNamespace(types: map<string, string>): string -> string {
    (r: string) =>
      if DefPrefix <= r && NamespaceFor(LocalName(r), types).Some?
      then DefPrefix + NamespaceFor(LocalName(r), types).value + "/" + r[|DefPrefix|..] else r
  }

  /** `rewrite_named_ref_to_namespace` on one reference. */
  function NamedIntoNamespace(ns: string, name: string): string -> string {
    (r: string) =>
      if r == DefPrefix + name || DefPrefix + name + "/" <= r
      then DefPrefix + ns + "/" + r[|DefPrefix|..] else r
  }

  /** A local ref that points into `ns`. */
  predicate PointsInto(ns: string, r: string) {
    DefPrefix + ns + "/" <= r
  }

  lemma IntoNamespacePoints(ns: string, r: string)
    ensures DefPrefix <= IntoNamespace(ns)(r) ==> PointsInto(ns, IntoNamespace(ns)(r))
  {
    var t := IntoNamespace(ns)(r);
    if DefPrefix <= r {
      var suffix := r[|DefPrefix|..];
      assert r == DefPrefix + suffix;
      if ns + "/" <= suffix {
        assert suffix == (ns + "/") + suffix[|ns| + 1..];
        assert r == (DefPrefix + ns + "/") + suffix[|ns| + 1..];
      } else {
        assert t == (DefPrefix + ns + "/") + suffix;
      }
    }
  }

  // ------------------------------------------------------------- contributions

  /** One schema contributed to one namespace under one name. */
  datatype Item = Item(ns: string, name: string, schema: Value)

  function DefsOf(v: Value): map<string, Value> {
    match v.Get("definitions") case Some(Object(defs)) => defs case _ => map[]
  }

  function WithoutDefs(v: Value): Value {
    if v.Object? then Object(v.fields - {"definitions"}) else v
  }

  predicate Merged(name: string) {
    name !in IgnoredDefinitions && name !in SpecialDefinitions
  }

  /** Definitions of these names are never taken over. */
  lemma NotMerged(name: string)
    ensures Merged(name) <==>
              name !in {"Option<()>", "ClientNotification", "ClientRequest", "EventMsg", "ServerNotification", "ServerRequest"}
  {
  }

  /** What a schema puts into its namespace: its definitions and itself, with refs pointing into the namespace. */
  function Items(s: Generated, annotate: (Value, string) -> Value): set<Item> {
    if s.namespace.None? || s.logicalName in IgnoredDefinitions then {}
    else
      var ns := s.namespace.value;
      var value := MapRefs(s.value, IntoNamespace(ns));
      DefItems(ns, DefsOf(value), annotate) + {Item(ns, s.logicalName, WithoutDefs(value))}
  }

  function DefItems(ns: string, defs: map<string, Value>, annotate: (Value, string) -> Value): set<Item> {
    set d | d in defs && Merged(d) :: DefItem(ns, d, defs[d], annotate)
  }

  function DefItem(ns: string, d: string, schema: Value, annotate: (Value, string) -> Value): Item {
    Item(ns, d, MapRefs(annotate(schema, d), IntoNamespace(ns)))
  }

  function AllItems(schemas: seq<Generated>, annotate: (Value, string) -> Value): set<Item> {
    set s, x | s in schemas && x in Items(s, annotate) :: x
  }

  /** No name of a namespace is given two different schemas. */
  predicate Agree(items: set<Item>) {
    forall x, y :: x in items && y in items && x.ns == y.ns && x.name == y.name ==> x.schema == y.schema
  }

  function NamespaceNames(items: set<Item>): set<string> {
    set x | x in items :: x.ns
  }

  /** `defs` holds the root definitions, and under each namespace exactly its items. */
  ghost predicate Holds(defs: map<string, Value>, roots: map<string, Value>, items: set<Item>) {
    && (forall k :: k in roots ==> k in defs && defs[k] == roots[k])
    && (forall k :: k in defs ==> k in roots || k in NamespaceNames(items))
    && (forall x :: x in items ==> x.ns in defs && defs[x.ns].Get(x.name) == Some(x.schema))
    && (forall ns, name :: ns in NamespaceNames(items) && ns in defs && defs[ns].Get(name).Some? ==>
          Item(ns, name, defs[ns].fields[name]) in items)
  }

  /** There is one such map at most, whatever the order the items came in. */
  lemma HoldsIsUnique(defs: map<string, Value>, defs': map<string, Value>, roots: map<string, Value>, items: set<Item>)
    requires Holds(defs, roots, items) && Holds(defs', roots, items)
    ensures defs == defs'
  {
    forall k | k in defs ensures k in defs' && defs'[k] == defs[k] {
      if k !in roots {
        SameNamespace(defs, defs', roots, items, k);
      }
    }
    forall k | k in defs' ensures k in defs {
      if k !in roots {
        var x :| x in items && x.ns == k;
      }
    }
  }

  lemma SameNamespace(defs: map<string, Value>, defs': map<string, Value>, roots: map<string, Value>, items: set<Item>, ns: string)
    requires Holds(defs, roots, items) && Holds(defs', roots, items) && ns in NamespaceNames(items)
    ensures ns in defs && ns in defs' && defs[ns] == defs'[ns]
  {
    var x :| x in items && x.ns == ns;
    forall name | name in defs[ns].fields ensures defs'[ns].Get(name) == Some(defs[ns].fields[name]) {
      assert Item(ns, name, defs[ns].fields[name]) in items;
    }
    forall name | name in defs'[ns].fields ensures defs[ns].Get(name).Some? {
      assert Item(ns, name, defs'[ns].fields[name]) in items;
    }
    assert defs[ns].fields == defs'[ns].fields;
  }

  function Bundle(definitions: map<string, Value>): Value {
    Object(map["$schema" := String("http://json-schema.org/draft-07/schema#"),
               "title" := String("CodexAppServerProtocol"),
               "type" := String("object"),
               "definitions" := Object(definitions)])
  }

  // ----------------------------------------------------------------- insertion

  function InsertIntoNamespace(defs: map<string, Value>, ns: string, name: string, schema: Value)
    : Result<map<string, Value>, BundleError>
  {
    var entry := if ns in defs then defs[ns] else Object(map[]);
    if !entry.Object? then Err(NamespaceNotAnObject(ns))
    else if name in entry.fields then
      if entry.fields[name] == schema then Ok(defs) else Err(Collision(ns, name))
    else Ok(defs[ns := Object(entry.fields[name := schema])])
  }

  lemma NamespaceNamesAdd(items: set<Item>, x: Item)
    ensures NamespaceNames(items + {x}) == NamespaceNames(items) + {x.ns}
  {
  }

  lemma HoldsAgree(defs: map<string, Value>, roots: map<string, Value>, items: set<Item>)
    requires Holds(defs, roots, items)
    ensures Agree(items)
  {
  }

  lemma InsertNew(defs: map<string, Value>, roots: map<string, Value>, items: set<Item>, x: Item)
    requires Holds(defs, roots, items) && x.ns !in roots
    requires x.ns in defs ==> defs[x.ns].Get(x.name).None?
    ensures var r := InsertIntoNamespace(defs, x.ns, x.name, x.schema);
            r.Ok? && Holds(r.value, roots, items + {x})
  {
    NamespaceNamesAdd(items, x);
    var items' := items + {x};
    if x.ns in defs {
      var y :| y in items && y.ns == x.ns;
      assert defs[x.ns].Object?;
    }
    var fields := if x.ns in defs then defs[x.ns].fields else map[];
    var defs' := defs[x.ns := Object(fields[x.name := x.schema])];
    assert InsertIntoNamespace(defs, x.ns, x.name, x.schema) == Ok(defs');
    forall y | y in items' ensures y.ns in defs' && defs'[y.ns].Get(y.name) == Some(y.schema) {
    }
    forall ns, name | ns in NamespaceNames(items') && ns in defs' && defs'[ns].Get(name).Some?
      ensures Item(ns, name, defs'[ns].fields[name]) in items'
    {
      if ns == x.ns && name == x.name {
        assert Item(ns, name, defs'[ns].fields[name]) == x;
      } else if ns == x.ns && x.ns !in defs {
        assert name !in fields;
      } else {
        assert Item(ns, name, defs[ns].fields[name]) in items;
      }
    }
  }

  /** Inserting one more item succeeds exactly when it agrees with those already in. */
  lemma InsertItem(defs: map<string, Value>, roots: map<string, Value>, items: set<Item>, x: Item)
    requires Holds(defs, roots, items) && x.ns !in roots
    ensures var r := InsertIntoNamespace(defs, x.ns, x.name, x.schema);
            && (r.Ok? <==> Agree(items + {x}))
            && (r.Ok? ==> Holds(r.value, roots, items + {x}))
  {
    var r := InsertIntoNamespace(defs, x.ns, x.name, x.schema);
    if x.ns in defs && defs[x.ns].Get(x.name).Some? {
      var y := Item(x.ns, x.name, defs[x.ns].fields[x.name]);
      assert y in items;
      if y == x {
        assert items + {x} == items;
        HoldsAgree(defs, roots, items);
      } else {
        assert y in items + {x} && x in items + {x};
      }
    } else {
      InsertNew(defs, roots, items, x);
      HoldsAgree(r.value, roots, items + {x});
    }
  }

  // --------------------------------------------------------------------- build

  /** `collect_namespaced_types`: the first namespace to mention a name owns it. */
  function NamespacedTypes(schemas: seq<Generated>): map<string, string> {
    if schemas == [] then map[]
    else
      var before := NamespacedTypes(schemas[..|schemas| - 1]);
      var s := schemas[|schemas| - 1];
      if s.namespace.None? then before
      else (map n | n in Mentioned(s) :: s.namespace.value) + before
  }

  function Mentioned(s: Generated): set<string> {
    {s.logicalName} + DefsOf(s.value).Keys + (match s.value.Get("$defs") case Some(Object(defs)) => defs.Keys case _ => {})
  }

  /** The namespace that a definition of a root schema is left to, if any. */
  function Target(s: Generated, d: string, types: map<string, string>): Option<string> {
    if s.inV1Dir then None else NamespaceFor(d, types)
  }

  /** The names a schema without a namespace puts at the root. */
  function RootKeys(s: Generated, types: map<string, string>): set<string> {
    if s.namespace.Some? || s.logicalName in IgnoredDefinitions then {}
    else {s.logicalName} + Rooted(s, DefsOf(s.value).Keys, types)
  }

  function Rooted(s: Generated, names: set<string>, types: map<string, string>): set<string> {
    set d | d in names && Merged(d) && Target(s, d, types).None?
  }

  /** The definitions of a root schema that are left to a namespace; the schema's own refs to them are rewritten. */
  function Forced(s: Generated, names: set<string>, types: map<string, string>): set<string> {
    set d | d in names && Merged(d) && Target(s, d, types).Some?
  }

  lemma ForcedGrows(s: Generated, names: set<string>, d: string, types: map<string, string>)
    ensures Forced(s, {}, types) == {}
    ensures Forced(s, names + {d}, types)
            == Forced(s, names, types) + if Merged(d) && Target(s, d, types).Some? then {d} else {}
  {
  }

  /** The rewriting for one such name. */
  function ForcedRef(s: Generated, types: map<string, string>, d: string): string -> string {
    (r: string) => if Target(s, d, types).Some? then NamedIntoNamespace(Target(s, d, types).value, d)(r) else r
  }

  /** ... and for several, one after the other. */
  function RewrittenBy(value: Value, s: Generated, types: map<string, string>, order: seq<string>): Value {
    if order == [] then value
    else MapRefs(RewrittenBy(value, s, types, order[..|order| - 1]), ForcedRef(s, types, order[|order| - 1]))
  }

  ghost predicate IsOrder(order: seq<string>, names: set<string>) {
    (forall d :: d in order <==> d in names) && forall i, j :: 0 <= i < j < |order| ==> order[i] != order[j]
  }

  lemma RootedGrows(s: Generated, names: set<string>, d: string, types: map<string, string>)
    ensures Rooted(s, {}, types) == {}
    ensures Rooted(s, names + {d}, types)
            == Rooted(s, names, types) + if Merged(d) && Target(s, d, types).None? then {d} else {}
  {
  }

  function AllRootKeys(schemas: seq<Generated>, types: map<string, string>): set<string> {
    set s, k | s in schemas && k in RootKeys(s, types) :: k
  }

  /** What a schema without a namespace puts at the root, itself apart: its definitions that no namespace owns. */
  function RootDefs(s: Generated, defs: map<string, Value>, types: map<string, string>, annotate: (Value, string) -> Value)
    : map<string, Value>
  {
    map d | d in defs && d in Rooted(s, defs.Keys, types) :: annotate(defs[d], d)
  }

  /** The schema itself, with refs to namespaced names pointing into their namespaces. */
  function RootValue(s: Generated, types: map<string, string>): Value {
    MapRefs(s.value, IntoKnownNamespace(types))
  }

  function AddedRoots(roots: map<string, Value>, s: Generated, types: map<string, string>, annotate: (Value, string) -> Value)
    : map<string, Value>
  {
    if s.namespace.Some? || s.logicalName in IgnoredDefinitions then roots
    else (roots + RootDefs(s, DefsOf(RootValue(s, types)), types, annotate))[s.logicalName := WithoutDefs(RootValue(s, types))]
  }

  /** The root definitions: of two with one name the later replaces the earlier. */
  function AllRoots(schemas: seq<Generated>, types: map<string, string>, annotate: (Value, string) -> Value): map<string, Value> {
    if schemas == [] then map[]
    else AddedRoots(AllRoots(schemas[..|schemas| - 1], types, annotate), schemas[|schemas| - 1], types, annotate)
  }

  /** No namespace is itself a typed name, and no name holds a slash. */
  predicate Plain(schemas: seq<Generated>, types: map<string, string>) {
    && (forall ns :: ns in types.Values ==> NoSlash(ns) && NamespaceFor(ns, types).None?)
    && (forall s :: s in schemas ==> PlainNames(s))
  }

  predicate PlainNames(s: Generated) {
    forall d :: d in DefsOf(s.value) ==> NoSlash(d)
  }

  lemma DefsKeepTheirNames(v: Value, f: string -> string)
    ensures DefsOf(MapRefs(v, f)).Keys == DefsOf(v).Keys
  {
    if v.Object? && "definitions" in v.fields {
      assert MapRefs(v, f).fields["definitions"] == MapRefs(v.fields["definitions"], f);
    }
  }

  lemma MoreDisagree(items: set<Item>, more: set<Item>)
    requires items <= more && Agree(more)
    ensures Agree(items)
  {
  }

  lemma InsertRoot(defs: map<string, Value>, roots: map<string, Value>, items: set<Item>, k: string, v: Value)
    ensures roots[k := v].Keys == roots.Keys + {k}
    ensures Holds(defs, roots, items) && k !in NamespaceNames(items) ==> Holds(defs[k := v], roots[k := v], items)
  {
  }

  // What the build makes of any definitions at all, even where a root definition has the name of a namespace.

  function EntryOf(defs: map<string, Value>, ns: string): Value {
    if ns in defs then defs[ns] else Object(map[])
  }

  /** All of `added` put into one namespace: possible if there is an object there that agrees with it. */
  function InsertAll(defs: map<string, Value>, ns: string, added: map<string, Value>): Option<map<string, Value>> {
    var entry := EntryOf(defs, ns);
    if added == map[] then Some(defs)
    else if !entry.Object? then None
    else if exists k :: k in added && k in entry.fields && entry.fields[k] != added[k] then None
    else Some(defs[ns := Object(entry.fields + added)])
  }

  function AsOption(r: Result<map<string, Value>, BundleError>): Option<map<string, Value>> {
    if r.Ok? then Some(r.value) else None
  }

  lemma InsertFirst(defs: map<string, Value>, ns: string, k: string, v: Value)
    ensures AsOption(InsertIntoNamespace(defs, ns, k, v)) == InsertAll(defs, ns, map[k := v])
  {
    var entry, one := EntryOf(defs, ns), map[k := v];
    assert one[k] == v && one != map[];
    if entry.Object? {
      assert entry.fields + one == entry.fields[k := v];
      if k in entry.fields && entry.fields[k] == v {
        assert entry.fields + one == entry.fields && defs[ns := entry] == defs;
      }
    }
  }

  lemma InsertAllStep(defs: map<string, Value>, ns: string, added: map<string, Value>, k: string, v: Value)
    requires InsertAll(defs, ns, added).Some? && k !in added
    ensures AsOption(InsertIntoNamespace(InsertAll(defs, ns, added).value, ns, k, v)) == InsertAll(defs, ns, added[k := v])
  {
    if added == map[] {
      assert added[k := v] == map[k := v];
      InsertFirst(defs, ns, k, v);
    } else {
      InsertAnother(defs, ns, added, k, v);
    }
  }

  lemma InsertAnother(defs: map<string, Value>, ns: string, added: map<string, Value>, k: string, v: Value)
    requires InsertAll(defs, ns, added).Some? && k !in added && added != map[]
    ensures AsOption(InsertIntoNamespace(InsertAll(defs, ns, added).value, ns, k, v)) == InsertAll(defs, ns, added[k := v])
  {
    var entry, more := EntryOf(defs, ns), added[k := v];
    var fields := entry.fields + added;
    var out := defs[ns := Object(fields)];
    assert InsertAll(defs, ns, added) == Some(out);
    assert more[k] == v && more != map[];
    assert fields[k := v] == entry.fields + more;
    if k in entry.fields {
      assert fields[k] == entry.fields[k];
      if entry.fields[k] == v {
        assert entry.fields + more == fields;
      }
    }
    assert out[ns := Object(fields[k := v])] == defs[ns := Object(entry.fields + more)];
  }

  lemma InsertAllStops(defs: map<string, Value>, ns: string, added: map<string, Value>, more: map<string, Value>)
    requires InsertAll(defs, ns, added).None? && forall k :: k in added ==> k in more && more[k] == added[k]
    ensures InsertAll(defs, ns, more).None?
  {
    var k :| k in added;
  }

  /** The definitions of a namespaced schema, by name. */
  function DefMap(ns: string, defs: map<string, Value>, names: set<string>, annotate: (Value, string) -> Value): map<string, Value> {
    map d | d in names && d in defs && Merged(d) :: DefItem(ns, d, defs[d], annotate).schema
  }

  lemma DefMapGrows(ns: string, defs: map<string, Value>, names: set<string>, d: string, annotate: (Value, string) -> Value)
    requires d in defs && d !in names
    ensures DefMap(ns, defs, {}, annotate) == map[] && d !in DefMap(ns, defs, names, annotate)
    ensures DefMap(ns, defs, names + {d}, annotate)
            == if Merged(d) then DefMap(ns, defs, names, annotate)[d := DefItem(ns, d, defs[d], annotate).schema]
               else DefMap(ns, defs, names, annotate)
  {
  }

  lemma DefMapWithin(ns: string, defs: map<string, Value>, names: set<string>, annotate: (Value, string) -> Value)
    requires names <= defs.Keys
    ensures var some, all := DefMap(ns, defs, names, annotate), DefMap(ns, defs, defs.Keys, annotate);
            forall k :: k in some ==> k in all && all[k] == some[k]
  {
  }

  function AddedNamespaced(defs: map<string, Value>, s: Generated, annotate: (Value, string) -> Value): Option<map<string, Value>>
    requires s.namespace.Some?
  {
    var ns := s.namespace.value;
    var value := MapRefs(s.value, IntoNamespace(ns));
    match InsertAll(defs, ns, DefMap(ns, DefsOf(value), DefsOf(value).Keys, annotate))
    case None => None
    case Some(out) => AsOption(InsertIntoNamespace(out, ns, s.logicalName, WithoutDefs(value)))
  }

  /** The same definitions as items. */
  function ItemsOf(ns: string, added: map<string, Value>): set<Item> {
    set k | k in added :: Item(ns, k, added[k])
  }

  lemma ItemsOfDefMap(ns: string, defs: map<string, Value>, annotate: (Value, string) -> Value)
    ensures ItemsOf(ns, DefMap(ns, defs, defs.Keys, annotate)) == DefItems(ns, defs, annotate)
  {
    var added := DefMap(ns, defs, defs.Keys, annotate);
    forall d | d in defs && Merged(d) ensures DefItem(ns, d, defs[d], annotate) == Item(ns, d, added[d]) {
    }
  }

  /** Among definitions that hold some items, all of `added` goes in exactly when it agrees with them. */
  lemma InsertAllHolds(defs: map<string, Value>, roots: map<string, Value>, items: set<Item>, ns: string, added: map<string, Value>)
    requires Holds(defs, roots, items) && ns !in roots
    ensures var r := InsertAll(defs, ns, added);
            && (r.Some? <==> Agree(items + ItemsOf(ns, added)))
            && (r.Some? ==> Holds(r.value, roots, items + ItemsOf(ns, added)))
  {
    hide Agree, Holds, InsertAll;
    if added == map[] {
      assert items + ItemsOf(ns, added) == items;
      HoldsAgree(defs, roots, items);
      InsertNothing(defs, ns);
    } else {
      var k :| k in added;
      var less := added - {k};
      assert less[k := added[k]] == added;
      assert items + ItemsOf(ns, added) == items + ItemsOf(ns, less) + {Item(ns, k, added[k])} by { ItemsOfOneMore(ns, less, k, added[k]); }
      InsertAllHolds(defs, roots, items, ns, less);
      var some := InsertAll(defs, ns, less);
      if some.Some? {
        InsertAllStep(defs, ns, less, k, added[k]);
        InsertItem(some.value, roots, items + ItemsOf(ns, less), Item(ns, k, added[k]));
      } else {
        InsertAllStops(defs, ns, less, added);
        if Agree(items + ItemsOf(ns, added)) {
          MoreDisagree(items + ItemsOf(ns, less), items + ItemsOf(ns, added));
        }
      }
    }
  }

  lemma ItemsOfOneMore(ns: string, less: map<string, Value>, k: string, v: Value)
    requires k !in less
    ensures ItemsOf(ns, less[k := v]) == ItemsOf(ns, less) + {Item(ns, k, v)}
  {
    var more := less[k := v];
    assert more[k] == v && forall j :: j in less ==> more[j] == less[j];
  }

  lemma InsertNothing(defs: map<string, Value>, ns: string)
    ensures InsertAll(defs, ns, map[]) == Some(defs)
  {
  }

  /** Why a schema did not go in: the namespace is no object, or it or the schema itself has another definition of the name. */
  ghost predicate Explains(defs: map<string, Value>, s: Generated, annotate: (Value, string) -> Value, error: BundleError) {
    s.namespace.Some?
    && var ns := s.namespace.value;
       match error
       case NamespaceNotAnObject(n) => n == ns && !EntryOf(defs, ns).Object?
       case Collision(n, name) =>
         n == ns
         && exists x :: x in Items(s, annotate) && x.name == name
              && ((EntryOf(defs, ns).Get(name).Some? && EntryOf(defs, ns).fields[name] != x.schema)
                  || exists y :: y in Items(s, annotate) && y.name == name && y.schema != x.schema)
  }

  /** Why all of `added` does not go in. */
  predicate Stuck(defs: map<string, Value>, ns: string, added: map<string, Value>, error: BundleError) {
    match error
    case NamespaceNotAnObject(n) => n == ns && !EntryOf(defs, ns).Object?
    case Collision(n, name) =>
      n == ns && name in added && EntryOf(defs, ns).Get(name).Some? && EntryOf(defs, ns).fields[name] != added[name]
  }

  lemma StuckAt(defs: map<string, Value>, ns: string, added: map<string, Value>, k: string, v: Value)
    requires InsertAll(defs, ns, added).Some? && k !in added
    ensures var r := InsertIntoNamespace(InsertAll(defs, ns, added).value, ns, k, v);
            r.Err? ==> Stuck(defs, ns, added[k := v], r.error)
  {
    var entry := EntryOf(defs, ns);
    if added != map[] {
      assert InsertAll(defs, ns, added) == Some(defs[ns := Object(entry.fields + added)]);
    }
  }

  lemma StillStuck(defs: map<string, Value>, ns: string, added: map<string, Value>, more: map<string, Value>, error: BundleError)
    requires Stuck(defs, ns, added, error) && forall k :: k in added ==> k in more && more[k] == added[k]
    ensures Stuck(defs, ns, more, error)
  {
  }

  /** The loop over the definitions of a namespaced schema. */
  method AddDefinitions(defs: map<string, Value>, ns: string, schemaDefs: map<string, Value>, annotate: (Value, string) -> Value)
    returns (r: Result<map<string, Value>, BundleError>)
    ensures AsOption(r) == InsertAll(defs, ns, DefMap(ns, schemaDefs, schemaDefs.Keys, annotate))
    ensures r.Err? ==> Stuck(defs, ns, DefMap(ns, schemaDefs, schemaDefs.Keys, annotate), r.error)
  {
    hide InsertIntoNamespace, InsertAll, DefMap, Stuck;
    var out := defs;
    ghost var done: set<string>, added: map<string, Value> := {}, map[];
    NothingAdded(defs, ns, schemaDefs, annotate);
    var todo := schemaDefs.Keys;
    while todo != {}
      invariant todo <= schemaDefs.Keys && done == schemaDefs.Keys - todo
      invariant added == DefMap(ns, schemaDefs, done, annotate) && InsertAll(defs, ns, added) == Some(out)
      decreases todo
    {
      var d :| d in todo;
      todo := todo - {d};
      DefMapGrows(ns, schemaDefs, done, d, annotate);
      done := done + {d};
      if d in IgnoredDefinitions || d in SpecialDefinitions {
        continue;
      }
      var schema := MapRefs(annotate(schemaDefs[d], d), IntoNamespace(ns));
      InsertAllStep(defs, ns, added, d, schema);
      StuckAt(defs, ns, added, d, schema);
      added := added[d := schema];
      var inserted := InsertIntoNamespace(out, ns, d, schema);
      if inserted.Err? {
        DefMapWithin(ns, schemaDefs, done, annotate);
        InsertAllStops(defs, ns, added, DefMap(ns, schemaDefs, schemaDefs.Keys, annotate));
        StillStuck(defs, ns, added, DefMap(ns, schemaDefs, schemaDefs.Keys, annotate), inserted.error);
        return Err(inserted.error);
      }
      out := inserted.value;
    }
    assert done == schemaDefs.Keys;
    return Ok(out);
  }

  method AddNamespaced(defs: map<string, Value>, s: Generated, annotate: (Value, string) -> Value,
                       ghost roots: map<string, Value>, ghost items: set<Item>)
    returns (r: Result<map<string, Value>, BundleError>)
    requires s.namespace.Some? && s.logicalName !in IgnoredDefinitions
    ensures Holds(defs, roots, items) && s.namespace.value !in roots ==>
              && (r.Ok? <==> Agree(items + Items(s, annotate)))
              && (r.Ok? ==> Holds(r.value, roots, items + Items(s, annotate)))
    ensures AsOption(r) == AddedNamespaced(defs, s, annotate)
    ensures r.Err? ==> Explains(defs, s, annotate, r.error)
  {
    hide Holds, Agree, InsertIntoNamespace, InsertAll, DefMap, Explains;
    var ns := s.namespace.value;
    var value := MapRefs(s.value, IntoNamespace(ns));
    r := AddDefinitions(defs, ns, DefsOf(value), annotate);
    if r.Ok? {
      r := InsertIntoNamespace(r.value, ns, s.logicalName, WithoutDefs(value));
    }
    if Holds(defs, roots, items) && ns !in roots {
      AddedHolds(defs, s, annotate, roots, items);
    }
    if r.Err? {
      AddedIsExplained(defs, s, annotate, r.error);
    }
  }

  lemma AddedHolds(defs: map<string, Value>, s: Generated, annotate: (Value, string) -> Value,
                   roots: map<string, Value>, items: set<Item>)
    requires s.namespace.Some? && s.logicalName !in IgnoredDefinitions
    requires Holds(defs, roots, items) && s.namespace.value !in roots
    ensures var r := AddedNamespaced(defs, s, annotate);
            && (r.Some? <==> Agree(items + Items(s, annotate)))
            && (r.Some? ==> Holds(r.value, roots, items + Items(s, annotate)))
  {
    hide Holds, Agree, InsertIntoNamespace, InsertAll, DefMap;
    var ns := s.namespace.value;
    var value := MapRefs(s.value, IntoNamespace(ns));
    var added := DefMap(ns, DefsOf(value), DefsOf(value).Keys, annotate);
    var last := Item(ns, s.logicalName, WithoutDefs(value));
    ItemsOfDefMap(ns, DefsOf(value), annotate);
    InsertAllHolds(defs, roots, items, ns, added);
    var some := items + ItemsOf(ns, added);
    assert items + Items(s, annotate) == some + {last};
    if InsertAll(defs, ns, added).Some? {
      InsertItem(InsertAll(defs, ns, added).value, roots, some, last);
    } else if Agree(some + {last}) {
      MoreDisagree(some, some + {last});
    }
  }

  lemma AddedIsExplained(defs: map<string, Value>, s: Generated, annotate: (Value, string) -> Value, error: BundleError)
    requires s.namespace.Some? && s.logicalName !in IgnoredDefinitions
    requires var ns := s.namespace.value;
             var value := MapRefs(s.value, IntoNamespace(ns));
             var added := DefMap(ns, DefsOf(value), DefsOf(value).Keys, annotate);
             match InsertAll(defs, ns, added)
             case None => Stuck(defs, ns, added, error)
             case Some(out) => InsertIntoNamespace(out, ns, s.logicalName, WithoutDefs(value)) == Err(error)
    ensures Explains(defs, s, annotate, error)
  {
    hide DefMap, MapRefs, WithoutDefs;
    var ns := s.namespace.value;
    var value := MapRefs(s.value, IntoNamespace(ns));
    var added := DefMap(ns, DefsOf(value), DefsOf(value).Keys, annotate);
    var last := Item(ns, s.logicalName, WithoutDefs(value));
    ItemsOfDefMap(ns, DefsOf(value), annotate);
    assert last in Items(s, annotate);
    assert forall k :: k in added ==> Item(ns, k, added[k]) in ItemsOf(ns, added);
    var entry := EntryOf(defs, ns);
    if InsertAll(defs, ns, added).Some? && added != map[] {
      assert InsertAll(defs, ns, added) == Some(defs[ns := Object(entry.fields + added)]);
    }
    if error.Collision? && error.name in added {
      assert Item(ns, error.name, added[error.name]) in Items(s, annotate);
    }
  }

  lemma NothingAdded(defs: map<string, Value>, ns: string, schemaDefs: map<string, Value>, annotate: (Value, string) -> Value)
    ensures DefMap(ns, schemaDefs, {}, annotate) == map[] && InsertAll(defs, ns, map[]) == Some(defs)
  {
  }

  method AddRoot(defs: map<string, Value>, s: Generated, types: map<string, string>, annotate: (Value, string) -> Value,
                 ghost roots: map<string, Value>, ghost items: set<Item>)
    returns (out: map<string, Value>, ghost roots': map<string, Value>, ghost order: seq<string>)
    requires s.namespace.None? && s.logicalName !in IgnoredDefinitions
    ensures roots'.Keys == roots.Keys + RootKeys(s, types)
    ensures IsOrder(order, Forced(s, DefsOf(RootValue(s, types)).Keys, types))
    ensures roots' == (roots + RootDefs(s, DefsOf(RootValue(s, types)), types, annotate))
                      [s.logicalName := RewrittenBy(WithoutDefs(RootValue(s, types)), s, types, order)]
    ensures out == (defs + RootDefs(s, DefsOf(RootValue(s, types)), types, annotate))
                   [s.logicalName := RewrittenBy(WithoutDefs(RootValue(s, types)), s, types, order)]
    ensures Plain([s], types) ==> roots' == AddedRoots(roots, s, types, annotate)
    ensures Holds(defs, roots, items) && RootKeys(s, types) !! NamespaceNames(items) ==> Holds(out, roots', items)
  {
    hide Holds, NamespaceNames, Rooted, RootDefs, MapRefs, Target, Plain, WithoutDefs, DefsOf, Forced, RewrittenBy, IsOrder;
    var value := MapRefs(s.value, IntoKnownNamespace(types));
    DefsKeepTheirNames(s.value, IntoKnownNamespace(types));
    ghost var keys := RootKeys(s, types);
    assert s.logicalName in keys;
    var forced;
    out, forced, roots' := AddRootDefs(defs, s, DefsOf(value), types, annotate, roots, items);
    value, order := RewriteForced(WithoutDefs(value), s, types, forced);
    if Plain([s], types) { NothingForced(s, types, order); }
    InsertRoot(out, roots', items, s.logicalName, value);
    out, roots' := out[s.logicalName := value], roots'[s.logicalName := value];
  }

  method AddRootDefs(defs: map<string, Value>, s: Generated, schemaDefs: map<string, Value>, types: map<string, string>,
                     annotate: (Value, string) -> Value, ghost roots: map<string, Value>, ghost items: set<Item>)
    returns (out: map<string, Value>, forced: set<string>, ghost roots': map<string, Value>)
    ensures forced == Forced(s, schemaDefs.Keys, types)
    ensures roots' == roots + RootDefs(s, schemaDefs, types, annotate) && out == defs + RootDefs(s, schemaDefs, types, annotate)
    ensures roots'.Keys == roots.Keys + Rooted(s, schemaDefs.Keys, types)
    ensures Holds(defs, roots, items) && Rooted(s, schemaDefs.Keys, types) !! NamespaceNames(items) ==>
              Holds(out, roots', items)
  {
    hide Holds, NamespaceNames, Rooted, MapRefs, Target, Merged, RootDefs, Forced, IsRooted;
    out, forced, roots' := defs, {}, roots;
    ghost var all := Rooted(s, schemaDefs.Keys, types);
    ghost var ok := Holds(defs, roots, items) && all !! NamespaceNames(items);
    ghost var done: set<string> := {};
    var todo := schemaDefs.Keys;
    NothingRooted(roots, s, schemaDefs, types, annotate);
    NothingRooted(defs, s, schemaDefs, types, annotate);
    ForcedGrows(s, {}, s.logicalName, types);
    while todo != {}
      invariant todo <= schemaDefs.Keys && done == schemaDefs.Keys - todo
      invariant forced == Forced(s, done, types)
      invariant IsRooted(roots, roots', s, schemaDefs, done, types, annotate)
      invariant IsRooted(defs, out, s, schemaDefs, done, types, annotate)
      invariant ok ==> Holds(out, roots', items)
      decreases todo
    {
      var d :| d in todo;
      todo := todo - {d};
      ForcedGrows(s, done, d, types);
      RootedMore(roots, roots', s, schemaDefs, done, d, types, annotate);
      RootedMore(defs, out, s, schemaDefs, done, d, types, annotate);
      done := done + {d};
      if !Merged(d) {
        continue;
      }
      if Target(s, d, types).Some? {
        forced := forced + {d};
      } else {
        var schema := annotate(schemaDefs[d], d);
        RootedAmong(s, d, schemaDefs.Keys, types);
        InsertRoot(out, roots', items, d, schema);
        out, roots' := out[d := schema], roots'[d := schema];
      }
    }
    assert done == schemaDefs.Keys;
    RootDefsAre(roots, roots', s, schemaDefs, types, annotate);
    RootDefsAre(defs, out, s, schemaDefs, types, annotate);
  }

  /** `after` is `before` with those definitions of `names` that no namespace owns. */
  predicate IsRooted(before: map<string, Value>, after: map<string, Value>, s: Generated, defs: map<string, Value>,
                     names: set<string>, types: map<string, string>, annotate: (Value, string) -> Value)
  {
    && after.Keys == before.Keys + Rooted(s, names, types)
    && forall d :: d in after ==>
         after[d] == if d in Rooted(s, names, types) && d in defs then annotate(defs[d], d)
                     else if d in before then before[d] else after[d]
  }

  lemma RootedMore(before: map<string, Value>, after: map<string, Value>, s: Generated, defs: map<string, Value>,
                   names: set<string>, d: string, types: map<string, string>, annotate: (Value, string) -> Value)
    requires IsRooted(before, after, s, defs, names, types, annotate)
    requires d in defs
    ensures IsRooted(before, if Merged(d) && Target(s, d, types).None? then after[d := annotate(defs[d], d)] else after,
                     s, defs, names + {d}, types, annotate)
  {
    RootedGrows(s, names, d, types);
  }

  lemma RootDefsAre(before: map<string, Value>, after: map<string, Value>, s: Generated, defs: map<string, Value>,
                    types: map<string, string>, annotate: (Value, string) -> Value)
    requires IsRooted(before, after, s, defs, defs.Keys, types, annotate)
    ensures after == before + RootDefs(s, defs, types, annotate)
    ensures after.Keys == before.Keys + Rooted(s, defs.Keys, types)
  {
    assert forall d :: d in Rooted(s, defs.Keys, types) ==> d in defs;
  }

  /** In plain schemas every ref to a forced name has been rewritten already. */
  lemma NothingForced(s: Generated, types: map<string, string>, order: seq<string>)
    requires Plain([s], types) && IsOrder(order, Forced(s, DefsOf(RootValue(s, types)).Keys, types))
    ensures RewrittenBy(WithoutDefs(RootValue(s, types)), s, types, order) == WithoutDefs(RootValue(s, types))
  {
    hide MapRefs, Refs, WithoutDefs, NamedIntoNamespace, IntoKnownNamespace, DefsOf, Target;
    var value := RootValue(s, types);
    DefsKeepTheirNames(s.value, IntoKnownNamespace(types));
    assert s in [s];
    forall d, r | d in order && r in Refs(WithoutDefs(value)) ensures ForcedRef(s, types, d)(r) == r {
      FewerRefs(value, r);
      if Target(s, d, types).Some? { ForcedRefsAreDone(s, types, d, r); }
    }
    NoForcedRef(WithoutDefs(value), s, types, order);
  }

  lemma {:induction false} NoForcedRef(value: Value, s: Generated, types: map<string, string>, order: seq<string>)
    requires forall d, r :: d in order && r in Refs(value) ==> ForcedRef(s, types, d)(r) == r
    ensures RewrittenBy(value, s, types, order) == value
  {
    hide MapRefs, Refs, ForcedRef;
    if order != [] {
      var before := order[..|order| - 1];
      assert forall d :: d in before ==> d in order;
      NoForcedRef(value, s, types, before);
      MapRefsKeeps(value, ForcedRef(s, types, order[|order| - 1]));
    }
  }

  lemma RootedAmong(s: Generated, d: string, names: set<string>, types: map<string, string>)
    requires d in names && Merged(d) && Target(s, d, types).None?
    ensures d in Rooted(s, names, types)
  {
  }

  lemma NothingRooted(before: map<string, Value>, s: Generated, defs: map<string, Value>, types: map<string, string>,
                      annotate: (Value, string) -> Value)
    ensures IsRooted(before, before, s, defs, {}, types, annotate)
  {
  }

  /** Rewrites the refs to the forced names, in some order. */
  method RewriteForced(value: Value, s: Generated, types: map<string, string>, names: set<string>)
    returns (out: Value, ghost order: seq<string>)
    ensures IsOrder(order, names) && out == RewrittenBy(value, s, types, order)
  {
    hide MapRefs, ForcedRef;
    out, order := value, [];
    var forced := names;
    while forced != {}
      invariant forced <= names && IsOrder(order, names - forced)
      invariant out == RewrittenBy(value, s, types, order)
      decreases forced
    {
      var d :| d in forced;
      forced := forced - {d};
      out := MapRefs(out, ForcedRef(s, types, d));
      assert (order + [d])[..|order|] == order;
      order := order + [d];
    }
  }

  /** No schema puts a definition at the root under the name of a namespace. */
  predicate RootsApart(schemas: seq<Generated>, annotate: (Value, string) -> Value) {
    AllRootKeys(schemas, NamespacedTypes(schemas)) !! NamespaceNames(AllItems(schemas, annotate))
  }

  /** What the build promises. With the root apart, it fails exactly when two schemas disagree on a namespaced name;
      otherwise the bundle holds the root definitions, of which a later one replaces an earlier one of its name, and under
      every namespace the union of what was contributed to it. */
  ghost predicate IsBuild(schemas: seq<Generated>, annotate: (Value, string) -> Value, r: Result<Value, BundleError>) {
    RootsApart(schemas, annotate) ==>
      && (r.Ok? <==> Agree(AllItems(schemas, annotate)))
      && (r.Ok? ==>
            exists defs, roots ::
              && r.value == Bundle(defs)
              && Holds(defs, roots, AllItems(schemas, annotate))
              && roots.Keys == AllRootKeys(schemas, NamespacedTypes(schemas))
              && (Plain(schemas, NamespacedTypes(schemas)) ==> roots == AllRoots(schemas, NamespacedTypes(schemas), annotate)))
  }

  /** What one schema makes of the definitions so far. */
  ghost predicate IsStep(defs: map<string, Value>, s: Generated, types: map<string, string>, annotate: (Value, string) -> Value,
                         r: Option<map<string, Value>>)
  {
    if s.logicalName in IgnoredDefinitions then r == Some(defs)
    else if s.namespace.Some? then r == AddedNamespaced(defs, s, annotate)
    else
      exists order :: IsOrder(order, Forced(s, DefsOf(RootValue(s, types)).Keys, types))
        && r == Some((defs + RootDefs(s, DefsOf(RootValue(s, types)), types, annotate))
                     [s.logicalName := RewrittenBy(WithoutDefs(RootValue(s, types)), s, types, order)])
  }

  /** The definitions after each of the first schemas. */
  ghost predicate IsChain(schemas: seq<Generated>, types: map<string, string>, annotate: (Value, string) -> Value,
                          states: seq<map<string, Value>>)
  {
    && 0 < |states| <= |schemas| + 1 && states[0] == map[]
    && forall j :: 0 <= j < |states| - 1 ==> IsStep(states[j], schemas[j], types, annotate, Some(states[j + 1]))
  }

  /** On every input at all: the schemas are taken one by one; the build fails with the first that does not go in, and
      otherwise bundles what they make. */
  ghost predicate IsFold(schemas: seq<Generated>, annotate: (Value, string) -> Value, r: Result<Value, BundleError>) {
    var types := NamespacedTypes(schemas);
    exists states :: IsChain(schemas, types, annotate, states)
      && var last := states[|states| - 1];
         if r.Ok? then |states| == |schemas| + 1 && r.value == Bundle(last)
         else
           && |states| <= |schemas|
           && IsStep(last, schemas[|states| - 1], types, annotate, None)
           && Explains(last, schemas[|states| - 1], annotate, r.error)
  }

  lemma ChainGrows(schemas: seq<Generated>, types: map<string, string>, annotate: (Value, string) -> Value,
                   states: seq<map<string, Value>>, next: map<string, Value>)
    requires IsChain(schemas, types, annotate, states) && |states| <= |schemas|
    requires IsStep(states[|states| - 1], schemas[|states| - 1], types, annotate, Some(next))
    ensures IsChain(schemas, types, annotate, states + [next])
  {
    hide IsStep;
  }

  method BuildSchemaBundle(schemas: seq<Generated>, annotate: (Value, string) -> Value)
    returns (r: Result<Value, BundleError>)
    ensures IsBuild(schemas, annotate, r)
    ensures IsFold(schemas, annotate, r)
  {
    hide IsChain, IsOrder, Forced, Explains, RewrittenBy, RootDefs, RootValue, DefsOf, WithoutDefs, AddedNamespaced, NamespaceFor;
    hide Agree, Holds, Items, AllItems, RootKeys, AllRootKeys, RootsApart, NamespaceNames, NamespacedTypes, AddedRoots, Plain;
    var types := NamespacedTypes(schemas);
    var defs: map<string, Value> := map[];
    ghost var roots: map<string, Value> := map[];
    ghost var items: set<Item> := {};
    ghost var apart := RootsApart(schemas, annotate);
    NothingHeld(schemas, types, annotate);
    ghost var states := [defs];
    assert IsChain(schemas, types, annotate, states) by { ChainStarts(schemas, types, annotate); }
    var i := 0;
    while i < |schemas|
      invariant 0 <= i <= |schemas|
      invariant items == AllItems(schemas[..i], annotate)
      invariant roots.Keys == AllRootKeys(schemas[..i], types)
      invariant Plain(schemas, types) ==> roots == AllRoots(schemas[..i], types, annotate)
      invariant apart ==> Holds(defs, roots, items)
      invariant IsChain(schemas, types, annotate, states) && |states| == i + 1 && states[i] == defs
    {
      var s := schemas[i];
      PrefixGrows(schemas, i, types, annotate);
      KeptApart(schemas, i, annotate);
      RootsGrow(schemas, i, types, annotate);
      OneKind(s, types, annotate);
      i := i + 1;
      if s.logicalName in IgnoredDefinitions {
      } else if s.namespace.Some? {
        var added := AddNamespaced(defs, s, annotate, roots, items);
        if added.Err? {
          if apart && Agree(AllItems(schemas, annotate)) {
            MoreDisagree(items + Items(s, annotate), AllItems(schemas, annotate));
          }
          return Err(added.error);
        }
        defs, items := added.value, items + Items(s, annotate);
      } else {
        ghost var order;
        defs, roots, order := AddRoot(defs, s, types, annotate, roots, items);
      }
      ChainGrows(schemas, types, annotate, states, defs);
      states := states + [defs];
    }
    assert schemas[..i] == schemas;
    if apart { HoldsAgree(defs, roots, items); }
    r := Ok(Bundle(defs));
  }

  lemma ChainStarts(schemas: seq<Generated>, types: map<string, string>, annotate: (Value, string) -> Value)
    ensures IsChain(schemas, types, annotate, [map[]])
  {
  }

  lemma NothingHeld(schemas: seq<Generated>, types: map<string, string>, annotate: (Value, string) -> Value)
    ensures AllItems(schemas[..0], annotate) == {} && AllRootKeys(schemas[..0], types) == {}
    ensures Holds(map[], map[], {})
  {
  }

  /** A schema adds to the root or to a namespace, and an ignored one to neither. */
  lemma OneKind(s: Generated, types: map<string, string>, annotate: (Value, string) -> Value)
    ensures s.namespace.Some? || s.logicalName in IgnoredDefinitions ==> RootKeys(s, types) == {}
    ensures s.namespace.None? || s.logicalName in IgnoredDefinitions ==> Items(s, annotate) == {}
  {
  }

  lemma PrefixGrows(schemas: seq<Generated>, i: nat, types: map<string, string>, annotate: (Value, string) -> Value)
    requires i < |schemas|
    ensures AllItems(schemas[..i + 1], annotate) == AllItems(schemas[..i], annotate) + Items(schemas[i], annotate)
    ensures AllRootKeys(schemas[..i + 1], types) == AllRootKeys(schemas[..i], types) + RootKeys(schemas[i], types)
    ensures AllItems(schemas[..i + 1], annotate) <= AllItems(schemas, annotate)
    ensures AllRootKeys(schemas[..i + 1], types) <= AllRootKeys(schemas, types)
  {
    hide Items, RootKeys;
    assert schemas[..i + 1] == schemas[..i] + [schemas[i]];
  }

  lemma RootsGrow(schemas: seq<Generated>, i: nat, types: map<string, string>, annotate: (Value, string) -> Value)
    requires i < |schemas|
    ensures AllRoots(schemas[..i + 1], types, annotate) == AddedRoots(AllRoots(schemas[..i], types, annotate), schemas[i], types, annotate)
    ensures AllRoots(schemas[..0], types, annotate) == map[]
    ensures Plain(schemas, types) ==> Plain([schemas[i]], types)
    ensures schemas[i].namespace.Some? || schemas[i].logicalName in IgnoredDefinitions ==>
              AllRoots(schemas[..i + 1], types, annotate) == AllRoots(schemas[..i], types, annotate)
  {
    hide NamespaceFor, PlainNames, RootDefs;
    assert schemas[..i + 1][..i] == schemas[..i];
    assert forall s :: s in [schemas[i]] ==> s in schemas;
  }

  lemma KeptApart(schemas: seq<Generated>, i: nat, annotate: (Value, string) -> Value)
    requires i < |schemas|
    ensures var s := schemas[i];
            var types := NamespacedTypes(schemas);
            RootsApart(schemas, annotate) ==>
              && (s.namespace.Some? && s.logicalName !in IgnoredDefinitions ==>
                    s.namespace.value !in AllRootKeys(schemas[..i], types))
              && RootKeys(s, types) !! NamespaceNames(AllItems(schemas[..i], annotate))
  {
    hide RootKeys, AllRootKeys, AllItems, NamespacedTypes;
    var s := schemas[i];
    var types := NamespacedTypes(schemas);
    PrefixGrows(schemas, i, types, annotate);
    if s.namespace.Some? && s.logicalName !in IgnoredDefinitions {
      OwnNamespace(s, annotate);
      NamesGrow(Items(s, annotate), AllItems(schemas, annotate));
    }
    NamesGrow(AllItems(schemas[..i], annotate), AllItems(schemas, annotate));
  }

  lemma NamesGrow(items: set<Item>, more: set<Item>)
    ensures items <= more ==> NamespaceNames(items) <= NamespaceNames(more)
  {
  }

  lemma OwnNamespace(s: Generated, annotate: (Value, string) -> Value)
    requires s.namespace.Some? && s.logicalName !in IgnoredDefinitions
    ensures s.namespace.value in NamespaceNames(Items(s, annotate))
  {
    var x := Item(s.namespace.value, s.logicalName, WithoutDefs(MapRefs(s.value, IntoNamespace(s.namespace.value))));
    assert x in Items(s, annotate);
  }

  // ------------------------------------------------------------ what it promises

  lemma {:induction false} MapRefsKeeps(v: Value, f: string -> string)
    requires forall r :: r in Refs(v) ==> f(r) == r
    ensures MapRefs(v, f) == v
  {
    forall c | c in Children(v) ensures MapRefs(c, f) == c {
      forall r | r in Refs(c) ensures f(r) == r { ChildRefs(v, c, r); }
      MapRefsKeeps(c, f);
    }
    if v.Object? {
      forall k | k in v.fields ensures MapRefs(v, f).fields[k] == v.fields[k] {
        assert v.fields[k] in Children(v);
        if k == "$ref" && v.fields[k].String? { assert v.fields[k].s in OwnRef(v); }
      }
      assert MapRefs(v, f).fields == v.fields;
    } else if v.Array? {
      assert MapRefs(v, f).items == v.items;
    }
  }

  /** The pass over the forced names finds nothing left to do: as long as no namespace is itself a typed name,
      every ref to such a name already points into a namespace. */
  lemma ForcedRefsAreDone(s: Generated, types: map<string, string>, d: string, r: string)
    requires r in Refs(MapRefs(s.value, IntoKnownNamespace(types)))
    requires Target(s, d, types).Some? && NoSlash(d)
    requires forall ns :: ns in types.Values ==> NoSlash(ns) && NamespaceFor(ns, types).None?
    ensures NamedIntoNamespace(Target(s, d, types).value, d)(r) == r
  {
    hide MapRefs, Refs, NamespaceFor, IntoKnownNamespace, NamedIntoNamespace;
    var q := RefOrigin(s.value, IntoKnownNamespace(types), r);
    KnownRef(types, q);
    NamedRef(Target(s, d, types).value, d, r);
  }

  lemma KnownRef(types: map<string, string>, q: string)
    requires forall ns :: ns in types.Values ==> NoSlash(ns) && NamespaceFor(ns, types).None?
    ensures var r := IntoKnownNamespace(types)(q);
            DefPrefix <= r ==> NamespaceFor(LocalName(r), types).None?
  {
    hide NamespaceFor, NoSlash, LocalName;
    if DefPrefix <= q && NamespaceFor(LocalName(q), types).Some? {
      var ns := NamespaceFor(LocalName(q), types).value;
      KnownNamespaces(LocalName(q), types);
      LocalNameInside(ns, q[|DefPrefix|..]);
    }
  }

  lemma LocalNameInside(ns: string, suffix: string)
    requires NoSlash(ns)
    ensures var r := DefPrefix + ns + "/" + suffix;
            DefPrefix <= r && LocalName(r) == ns
  {
    hide NoSlash, FirstSegment;
    var r := DefPrefix + ns + "/" + suffix;
    Concat4(DefPrefix, ns, "/", suffix);
    FirstSegmentOf(ns, "/" + suffix);
  }

  lemma Concat4(a: string, b: string, c: string, d: string)
    ensures a <= a + b + c + d && (a + b + c + d)[|a|..] == b + (c + d)
  {
    assert a + b + c + d == a + (b + (c + d));
  }

  lemma NamedRef(ns: string, d: string, r: string)
    requires NoSlash(d) && (DefPrefix <= r ==> LocalName(r) != d)
    ensures NamedIntoNamespace(ns, d)(r) == r
  {
    if DefPrefix <= r && DefPrefix + d <= r {
      var rest := r[|DefPrefix + d|..];
      assert r[|DefPrefix|..] == d + rest;
      assert rest == [] || rest[0] == '/' ==> FirstSegment(d + rest) == d by {
        if rest == [] || rest[0] == '/' { FirstSegmentOf(d, rest); }
      }
    }
  }

  lemma KnownNamespaces(name: string, types: map<string, string>)
    ensures NamespaceFor(name, types).Some? ==> NamespaceFor(name, types).value in types.Values
  {
  }

  predicate AllNamespaced(schemas: seq<Generated>) {
    forall s :: s in schemas ==> s.namespace.Some?
  }

  lemma NamespacedIsApart(schemas: seq<Generated>, annotate: (Value, string) -> Value)
    requires AllNamespaced(schemas)
    ensures AllRootKeys(schemas, NamespacedTypes(schemas)) == {} && RootsApart(schemas, annotate)
  {
  }

  /** For namespaced schemas the order does not matter: both orders fail, or both give the same bundle. */
  lemma OrderDoesNotMatter(schemas: seq<Generated>, shuffled: seq<Generated>, annotate: (Value, string) -> Value,
                           r: Result<Value, BundleError>, r': Result<Value, BundleError>)
    requires AllNamespaced(schemas) && forall s :: s in schemas <==> s in shuffled
    requires IsBuild(schemas, annotate, r) && IsBuild(shuffled, annotate, r')
    ensures r.Ok? <==> Agree(AllItems(schemas, annotate))
    ensures r.Ok? <==> r'.Ok?
    ensures r.Ok? ==> r.value == r'.value
  {
    hide Holds, Agree, Items, Bundle, NamespacedTypes;
    NamespacedIsApart(schemas, annotate);
    NamespacedIsApart(shuffled, annotate);
    var items := AllItems(schemas, annotate);
    assert items == AllItems(shuffled, annotate);
    if r.Ok? {
      var defs, roots :| r.value == Bundle(defs) && Holds(defs, roots, items) && roots.Keys == {};
      var defs', roots' :| r'.value == Bundle(defs') && Holds(defs', roots', items) && roots'.Keys == {};
      assert roots == map[] && roots' == map[];
      HoldsIsUnique(defs, defs', roots, items);
    }
  }

  /** Inside a namespace every local ref points into that namespace. */
  lemma LocalRefsPointInto(schemas: seq<Generated>, annotate: (Value, string) -> Value, x: Item, r: string)
    requires x in AllItems(schemas, annotate)
    requires r in Refs(x.schema) && DefPrefix <= r
    ensures PointsInto(x.ns, r)
  {
    hide MapRefs, Refs, IntoNamespace, PointsInto, WithoutDefs;
    var v := Rewritten(schemas, annotate, x);
    FewerRefs(MapRefs(v, IntoNamespace(x.ns)), r);
    var q := RefOrigin(v, IntoNamespace(x.ns), r);
    IntoNamespacePoints(x.ns, q);
  }

  lemma Rewritten(schemas: seq<Generated>, annotate: (Value, string) -> Value, x: Item) returns (v: Value)
    requires x in AllItems(schemas, annotate)
    ensures x.schema == MapRefs(v, IntoNamespace(x.ns)) || x.schema == WithoutDefs(MapRefs(v, IntoNamespace(x.ns)))
  {
    hide MapRefs, WithoutDefs, DefItems, IntoNamespace, DefsOf;
    var s :| s in schemas && x in Items(s, annotate);
    var ns := s.namespace.value;
    var value := MapRefs(s.value, IntoNamespace(ns));
    if x in DefItems(ns, DefsOf(value), annotate) {
      v := RewrittenDef(ns, DefsOf(value), annotate, x);
    } else {
      v := s.value;
    }
  }

  lemma RewrittenDef(ns: string, defs: map<string, Value>, annotate: (Value, string) -> Value, x: Item) returns (v: Value)
    requires x in DefItems(ns, defs, annotate)
    ensures x.ns == ns && x.schema == MapRefs(v, IntoNamespace(ns))
  {
    var d :| d in defs && x == DefItem(ns, d, defs[d], annotate);
    v := annotate(defs[d], d);
    assert DefItem(ns, d, defs[d], annotate).schema == MapRefs(v, IntoNamespace(ns));
  }

  lemma FewerRefs(v: Value, r: string)
    ensures r in Refs(WithoutDefs(v)) ==> r in Refs(v)
  {
    if v.Object? && r in Refs(WithoutDefs(v)) && r !in OwnRef(v) {
      var c :| c in Children(WithoutDefs(v)) && r in Refs(c);
      ChildRefs(v, c, r);
    }
  }

  /** ... and one that led into a definition `d` of its own schema leads to the same place in that definition, rewritten,
      in the bundle. */
  lemma LocalRefsResolve(schemas: seq<Generated>, annotate: (Value, string) -> Value,
                         defs: map<string, Value>, roots: map<string, Value>, s: Generated, suffix: string)
    requires Holds(defs, roots, AllItems(schemas, annotate))
    requires s in schemas && s.namespace.Some? && s.logicalName !in IgnoredDefinitions && NoSlash(s.namespace.value)
    requires var d := FirstSegment(suffix);
             d in DefsOf(s.value) && Merged(d) && (DefsOf(s.value)[d].String? ==> d != "$ref")
    requires !(s.namespace.value + "/" <= suffix)
    ensures var into, d, below := IntoNamespace(s.namespace.value), FirstSegment(suffix), SplitSlash(suffix)[1..];
            var named := DefsOf(s.value)[d];
            && Resolve(s.value, DefRef(suffix)) == Lookup(named, below)
            && Resolve(Bundle(defs), into(DefRef(suffix)))
               == Lookup(MapRefs(annotate(MapRefs(named, into), d), into), below)
  {
    hide Holds, SplitSlash, FirstSegment, Lookup, NoSlash, Resolve;
    var ns, d := s.namespace.value, FirstSegment(suffix);
    var into := IntoNamespace(ns);
    var named := DefsOf(s.value)[d];
    DefinitionNamed(s.value, suffix);
    RewrittenDefinition(s.value, d, into);
    var x := DefItem(ns, d, MapRefs(named, into), annotate);
    assert x in Items(s, annotate);
    assert x in AllItems(schemas, annotate);
    IntoOneNamespace(ns, suffix);
    ItemResolves(defs, roots, AllItems(schemas, annotate), x, suffix);
  }

  /** A ref that begins with the namespace already is left alone. It led below a definition of that very name, if there was
      one, and leads in the bundle into what was contributed to the namespace under its next segment, or nowhere. */
  lemma PrefixedRefsAreLeftAlone(schemas: seq<Generated>, annotate: (Value, string) -> Value,
                                 defs: map<string, Value>, roots: map<string, Value>, s: Generated, rest: string)
    requires Holds(defs, roots, AllItems(schemas, annotate))
    requires s in schemas && s.namespace.Some? && s.logicalName !in IgnoredDefinitions && NoSlash(s.namespace.value)
    ensures var ns := s.namespace.value;
            var r := DefRef(ns + "/" + rest);
            && IntoNamespace(ns)(r) == r
            && (ns in DefsOf(s.value) ==> Resolve(s.value, r) == Lookup(DefsOf(s.value)[ns], SplitSlash(rest)))
            && (forall x :: x in AllItems(schemas, annotate) && x.ns == ns && x.name == FirstSegment(rest) ==>
                  Resolve(Bundle(defs), r) == Lookup(x.schema, SplitSlash(rest)[1..]))
            && ((forall x :: x in AllItems(schemas, annotate) ==> !(x.ns == ns && x.name == FirstSegment(rest))) ==>
                  Resolve(Bundle(defs), r) == None)
  {
    hide Holds, SplitSlash, FirstSegment, Lookup, NoSlash, Resolve, AllItems, Items, DefsOf;
    var ns, items := s.namespace.value, AllItems(schemas, annotate);
    var suffix := ns + "/" + rest;
    assert DefRef(suffix)[|DefPrefix|..] == suffix && ns + "/" <= suffix;
    SplitSlashConcat(ns, rest);
    FirstToken(suffix);
    assert SplitSlash(suffix)[0] == ns && SplitSlash(suffix)[1..] == SplitSlash(rest);
    if ns in DefsOf(s.value) { DefinitionNamed(s.value, suffix); }
    forall x | x in items && x.ns == ns && x.name == FirstSegment(rest)
      ensures Resolve(Bundle(defs), DefRef(suffix)) == Lookup(x.schema, SplitSlash(rest)[1..])
    {
      ItemResolves(defs, roots, items, x, rest);
    }
    if forall x :: x in items ==> !(x.ns == ns && x.name == FirstSegment(rest)) {
      HasItems(schemas, s, annotate);
      NoItemNoTarget(defs, roots, items, ns, rest);
    }
  }

  lemma HasItems(schemas: seq<Generated>, s: Generated, annotate: (Value, string) -> Value)
    requires s in schemas && s.namespace.Some? && s.logicalName !in IgnoredDefinitions
    ensures s.namespace.value in NamespaceNames(AllItems(schemas, annotate))
  {
    hide Items;
    OwnNamespace(s, annotate);
    var x :| x in Items(s, annotate) && x.ns == s.namespace.value;
    assert x in AllItems(schemas, annotate);
  }

  lemma NoItemNoTarget(defs: map<string, Value>, roots: map<string, Value>, items: set<Item>, ns: string, rest: string)
    requires Holds(defs, roots, items) && ns in NamespaceNames(items) && NoSlash(ns)
    requires forall x :: x in items ==> !(x.ns == ns && x.name == FirstSegment(rest))
    ensures Resolve(Bundle(defs), DefRef(ns + "/" + rest)) == None
  {
    hide SplitSlash, FirstSegment, NoSlash, Resolve, Lookup;
    ResolveDef(Bundle(defs), ns + "/" + rest);
    SplitSlashConcat(ns, rest);
    FirstToken(rest);
    var path := SplitSlash(rest);
    var long := [ns] + path;
    var tokens := ["definitions"] + long;
    assert tokens[1..] == long && long[1..] == path;
    var x :| x in items && x.ns == ns;
    LookupField(Bundle(defs), tokens);
    LookupField(Object(defs), long);
    NoField(defs[ns], path);
  }

  lemma NoField(v: Value, tokens: seq<string>)
    requires tokens != [] && v.Object? && v.Get(tokens[0]).None?
    ensures Lookup(v, tokens) == None
  {
  }

  /** Where the name of a namespace holds a slash, its refs are read in segments, and lead nowhere unless something else
      has the first of them for a name. */
  lemma SlashedNamespacesAreMissed(defs: map<string, Value>, ns: string, suffix: string)
    requires !NoSlash(ns) && FirstSegment(ns) !in defs
    ensures Resolve(Bundle(defs), IntoNamespace(ns)(DefRef(suffix))) == None
  {
    hide SplitSlash, FirstSegment, Lookup, Resolve;
    assert DefRef(suffix)[|DefPrefix|..] == suffix;
    if ns + "/" <= suffix {
      SlashedRefIsMissed(defs, ns, suffix);
    } else {
      IntoOneNamespace(ns, suffix);
      SlashedRefIsMissed(defs, ns, ns + "/" + suffix);
    }
  }

  lemma SlashedRefIsMissed(defs: map<string, Value>, ns: string, t: string)
    requires !NoSlash(ns) && FirstSegment(ns) !in defs && ns + "/" <= t
    ensures Resolve(Bundle(defs), DefRef(t)) == None
  {
    hide SplitSlash, Lookup, Resolve;
    var first := FirstSegment(ns);
    assert t == first + t[|first|..] && t[|first|] == ns[|first|] == '/';
    FirstSegmentOf(first, t[|first|..]);
    FirstToken(t);
    ResolveDef(Bundle(defs), t);
    var path := SplitSlash(t);
    var tokens := ["definitions"] + path;
    assert tokens[1..] == path;
    LookupField(Bundle(defs), tokens);
    NoField(Object(defs), path);
  }

  lemma RewrittenDefinition(v: Value, d: string, f: string -> string)
    requires d in DefsOf(v) && (DefsOf(v)[d].String? ==> d != "$ref")
    ensures d in DefsOf(MapRefs(v, f)) && DefsOf(MapRefs(v, f))[d] == MapRefs(DefsOf(v)[d], f)
  {
    var defs := v.fields["definitions"];
    assert MapRefs(v, f).fields["definitions"] == MapRefs(defs, f);
    assert MapRefs(defs, f).fields[d] == MapRefs(defs.fields[d], f);
  }

  lemma IntoOneNamespace(ns: string, suffix: string)
    requires !(ns + "/" <= suffix)
    ensures IntoNamespace(ns)(DefRef(suffix)) == DefRef(ns + "/" + suffix)
  {
    assert DefRef(suffix)[|DefPrefix|..] == suffix;
    assert DefPrefix + ns + "/" + suffix == DefPrefix + (ns + "/" + suffix);
  }

  lemma DefinitionNamed(v: Value, suffix: string)
    requires FirstSegment(suffix) in DefsOf(v)
    ensures Resolve(v, DefRef(suffix)) == Lookup(DefsOf(v)[FirstSegment(suffix)], SplitSlash(suffix)[1..])
  {
    hide SplitSlash, FirstSegment, Lookup, Resolve;
    ResolveDef(v, suffix);
    FirstToken(suffix);
    var path := SplitSlash(suffix);
    var tokens := ["definitions"] + path;
    assert tokens[1..] == path;
    LookupField(v, tokens);
    LookupField(v.fields["definitions"], path);
  }

  lemma ItemResolves(defs: map<string, Value>, roots: map<string, Value>, items: set<Item>, x: Item, suffix: string)
    requires Holds(defs, roots, items) && x in items && NoSlash(x.ns) && FirstSegment(suffix) == x.name
    ensures Resolve(Bundle(defs), DefRef(x.ns + "/" + suffix)) == Lookup(x.schema, SplitSlash(suffix)[1..])
  {
    hide SplitSlash, FirstSegment, Lookup, NoSlash, Resolve;
    ResolveDef(Bundle(defs), x.ns + "/" + suffix);
    SplitSlashConcat(x.ns, suffix);
    FirstToken(suffix);
    var path := SplitSlash(suffix);
    var long := [x.ns] + path;
    var tokens := ["definitions"] + long;
    assert SplitSlash(x.ns + "/" + suffix) == long;
    assert tokens[1..] == long && long[1..] == path;
    LookupField(Bundle(defs), tokens);
    LookupField(Object(defs), long);
    LookupField(defs[x.ns], path);
  }

  // ------------------------------------------------------- who owns a name, and where refs to it lead

  predicate AllDigits(s: string) {
    forall i :: 0 <= i < |s| ==> '0' <= s[i] <= '9'
  }

  predicate EndsInDigit(s: string) {
    s != [] && '0' <= s[|s| - 1] <= '9'
  }

  lemma {:induction false} TrimmedDigits(name: string) returns (digits: string)
    ensures name == TrimDigits(name) + digits && AllDigits(digits) && !EndsInDigit(TrimDigits(name))
  {
    if EndsInDigit(name) {
      digits := TrimmedDigits(name[..|name| - 1]);
      digits := digits + [name[|name| - 1]];
      assert name == TrimDigits(name) + digits;
    } else {
      digits := [];
    }
  }

  lemma {:induction false} TrimOfNumbered(base: string, digits: string)
    requires AllDigits(digits) && !EndsInDigit(base)
    ensures TrimDigits(base + digits) == base
  {
    if digits == [] {
      assert base + digits == base;
    } else {
      var name := base + digits;
      assert name[..|name| - 1] == base + digits[..|digits| - 1];
      TrimOfNumbered(base, digits[..|digits| - 1]);
    }
  }

  /** A name belongs to the namespace it is registered for, or, if it is not registered, to that of the name it numbers. */
  lemma OwnerIs(name: string, types: map<string, string>, ns: string)
    ensures NamespaceFor(name, types) == Some(ns) <==>
              || (name in types && types[name] == ns)
              || (name !in types && exists base, digits :: Numbers(name, base, digits) && base in types && types[base] == ns)
  {
    var digits := TrimmedDigits(name);
    var base := TrimDigits(name);
    if digits != [] {
      assert Numbers(name, base, digits);
    }
    if b, d :| Numbers(name, b, d) && b in types && types[b] == ns {
      TrimOfNumbered(b, d);
    }
  }

  predicate Numbers(name: string, base: string, digits: string) {
    name == base + digits && digits != [] && AllDigits(digits) && !EndsInDigit(base)
  }

  predicate Mentions(s: Generated, name: string) {
    || name == s.logicalName
    || (exists k :: k in {"definitions", "$defs"} && s.value.Get(k).Some? && s.value.fields[k].Get(name).Some?)
  }

  /** The first namespaced schema that is, or defines, something of that name. */
  ghost predicate MentionsFirst(schemas: seq<Generated>, i: nat, name: string) {
    && i < |schemas| && schemas[i].namespace.Some? && Mentions(schemas[i], name)
    && forall j :: 0 <= j < i && schemas[j].namespace.Some? ==> !Mentions(schemas[j], name)
  }

  function Registered(schemas: seq<Generated>, name: string): Option<string> {
    if name in NamespacedTypes(schemas) then Some(NamespacedTypes(schemas)[name]) else None
  }

  lemma RegisteredNext(schemas: seq<Generated>, name: string)
    ensures schemas == [] ==> Registered(schemas, name) == None
    ensures schemas != [] ==>
              var before, s := schemas[..|schemas| - 1], schemas[|schemas| - 1];
              Registered(schemas, name)
              == if Registered(before, name).Some? then Registered(before, name)
                 else if Mentions(s, name) then s.namespace else None
  {
    if schemas != [] { MentionedNames(schemas[|schemas| - 1], name); }
  }

  /** It decides the namespace that the name is registered for. */
  lemma {:induction false} FirstMentionOwns(schemas: seq<Generated>, name: string)
    ensures forall i: nat :: MentionsFirst(schemas, i, name) ==> Registered(schemas, name) == schemas[i].namespace
    ensures (forall i: nat :: !MentionsFirst(schemas, i, name)) ==> Registered(schemas, name) == None
    ensures Registered(schemas, name) == None ==>
              forall j :: 0 <= j < |schemas| && schemas[j].namespace.Some? ==> !Mentions(schemas[j], name)
  {
    hide Mentions, Registered;
    RegisteredNext(schemas, name);
    if schemas != [] {
      var last := |schemas| - 1;
      var before := schemas[..last];
      FirstMentionOwns(before, name);
      forall i: nat | i < last ensures MentionsFirst(schemas, i, name) <==> MentionsFirst(before, i, name) {
        assert forall j :: 0 <= j <= i ==> schemas[j] == before[j];
      }
      if Registered(before, name) == None {
        assert forall j :: 0 <= j < last ==> schemas[j] == before[j];
        assert MentionsFirst(schemas, last, name) <==> schemas[last].namespace.Some? && Mentions(schemas[last], name);
      } else {
        var i: nat :| MentionsFirst(before, i, name);
        assert MentionsFirst(schemas, i, name);
      }
    }
  }

  lemma MentionedNames(s: Generated, name: string)
    ensures name in Mentioned(s) <==> Mentions(s, name)
  {
    var v := s.value;
    assert name in DefsOf(v) <==> v.Get("definitions").Some? && v.fields["definitions"].Get(name).Some?;
    if Mentions(s, name) && name != s.logicalName {
      var k :| k in {"definitions", "$defs"} && v.Get(k).Some? && v.fields[k].Get(name).Some?;
    }
    if name in DefsOf(v) { assert "definitions" in {"definitions", "$defs"}; }
    assert "$defs" in {"definitions", "$defs"};
  }

  /** A ref of a root schema whose name a namespace owns leads in the bundle to the same place in what was contributed to
      the namespace under that name; and it is among the refs of the schema as it goes in. */
  lemma RootRefsResolve(defs: map<string, Value>, roots: map<string, Value>, items: set<Item>, s: Generated,
                        types: map<string, string>, suffix: string, x: Item)
    requires Holds(defs, roots, items) && x in items && x.name == FirstSegment(suffix) && NoSlash(x.ns)
    requires NamespaceFor(FirstSegment(suffix), types) == Some(x.ns)
    requires DefRef(suffix) in Refs(s.value)
    ensures var r := IntoKnownNamespace(types)(DefRef(suffix));
            && r in Refs(RootValue(s, types))
            && r == DefRef(x.ns + "/" + suffix)
            && Resolve(Bundle(defs), r) == Lookup(x.schema, SplitSlash(suffix)[1..])
  {
    hide Holds, Refs, MapRefs, Resolve, Lookup, SplitSlash, NamespaceFor;
    RefSurvives(s.value, IntoKnownNamespace(types), DefRef(suffix));
    KnownRefIs(types, suffix);
    ItemResolves(defs, roots, items, x, suffix);
  }

  /** What becomes of a local ref of a root schema. */
  lemma KnownRefIs(types: map<string, string>, suffix: string)
    ensures IntoKnownNamespace(types)(DefRef(suffix))
            == match NamespaceFor(FirstSegment(suffix), types)
               case Some(ns) => DefRef(ns + "/" + suffix)
               case None => DefRef(suffix)
  {
    hide NamespaceFor;
    assert DefRef(suffix)[|DefPrefix|..] == suffix;
    var owner := NamespaceFor(FirstSegment(suffix), types);
    if owner.Some? {
      assert DefPrefix + owner.value + "/" + suffix == DefPrefix + (owner.value + "/" + suffix);
    }
  }

  /** A ref whose name nobody owns is left as it is; if it named a definition of its schema, that definition is at the root
      once the schema is in, annotated and rewritten, and the ref leads to the same place in it. */
  lemma UnownedRefsStay(defs: map<string, Value>, s: Generated, types: map<string, string>, annotate: (Value, string) -> Value,
                        order: seq<string>, suffix: string)
    requires var d := FirstSegment(suffix);
             && NamespaceFor(d, types).None? && d in DefsOf(s.value) && Merged(d) && d != s.logicalName
             && (DefsOf(s.value)[d].String? ==> d != "$ref")
    ensures var d, below := FirstSegment(suffix), SplitSlash(suffix)[1..];
            var out := (defs + RootDefs(s, DefsOf(RootValue(s, types)), types, annotate))
                       [s.logicalName := RewrittenBy(WithoutDefs(RootValue(s, types)), s, types, order)];
            && IntoKnownNamespace(types)(DefRef(suffix)) == DefRef(suffix)
            && Resolve(s.value, DefRef(suffix)) == Lookup(DefsOf(s.value)[d], below)
            && Resolve(Bundle(out), DefRef(suffix)) == Lookup(annotate(MapRefs(DefsOf(s.value)[d], IntoKnownNamespace(types)), d), below)
  {
    hide Resolve, Lookup, SplitSlash, NamespaceFor, FirstSegment, RewrittenBy, DefsOf, RootDefs, RootValue;
    var out := (defs + RootDefs(s, DefsOf(RootValue(s, types)), types, annotate))
               [s.logicalName := RewrittenBy(WithoutDefs(RootValue(s, types)), s, types, order)];
    KnownRefIs(types, suffix);
    DefinitionNamed(s.value, suffix);
    UnownedDefinition(s, types, annotate, FirstSegment(suffix));
    BundleDefs(out);
    DefinitionNamed(Bundle(out), suffix);
  }

  lemma BundleDefs(defs: map<string, Value>)
    ensures DefsOf(Bundle(defs)) == defs
  {
  }

  lemma UnownedDefinition(s: Generated, types: map<string, string>, annotate: (Value, string) -> Value, d: string)
    requires NamespaceFor(d, types).None? && d in DefsOf(s.value) && Merged(d) && (DefsOf(s.value)[d].String? ==> d != "$ref")
    ensures var put := RootDefs(s, DefsOf(RootValue(s, types)), types, annotate);
            d in put && put[d] == annotate(MapRefs(DefsOf(s.value)[d], IntoKnownNamespace(types)), d)
  {
    hide MapRefs, NamespaceFor, Merged, DefsOf, IntoKnownNamespace;
    RewrittenDefinition(s.value, d, IntoKnownNamespace(types));
    RootedAmong(s, d, DefsOf(RootValue(s, types)).Keys, types);
  }

  /** A schema goes in without its definitions, and with everything else it has. */
  lemma WithoutDefinitions(v: Value, k: string)
    ensures WithoutDefs(v).Get("definitions") == None
    ensures k != "definitions" ==> WithoutDefs(v).Get(k) == v.Get(k)
    ensures !v.Object? ==> WithoutDefs(v) == v
  {
  }

  /** What the bundle declares of itself, besides its definitions. */
  lemma BundleDeclares(defs: map<string, Value>, k: string)
    ensures Bundle(defs).Get("$schema") == Some(String("http://json-schema.org/draft-07/schema#"))
    ensures Bundle(defs).Get("title") == Some(String("CodexAppServerProtocol"))
    ensures Bundle(defs).Get("type") == Some(String("object"))
    ensures Bundle(defs).Get(k).Some? ==> k in {"$schema", "title", "type", "definitions"}
  {
  }

  /** A namespaced schema itself is found under its name, without its definitions and with its refs rewritten. */
  lemma SchemaIsFound(schemas: seq<Generated>, annotate: (Value, string) -> Value,
                      defs: map<string, Value>, roots: map<string, Value>, s: Generated)
    requires Holds(defs, roots, AllItems(schemas, annotate))
    requires s in schemas && s.namespace.Some? && s.logicalName !in IgnoredDefinitions
    requires NoSlash(s.namespace.value) && NoSlash(s.logicalName)
    ensures Resolve(Bundle(defs), DefRef(s.namespace.value + "/" + s.logicalName))
            == Some(WithoutDefs(MapRefs(s.value, IntoNamespace(s.namespace.value))))
  {
    hide Holds, Resolve, MapRefs;
    var x := Item(s.namespace.value, s.logicalName, WithoutDefs(MapRefs(s.value, IntoNamespace(s.namespace.value))));
    assert x in Items(s, annotate) && x in AllItems(schemas, annotate);
    FirstSegmentOf(s.logicalName, []);
    assert s.logicalName + [] == s.logicalName;
    SplitSlashName(s.logicalName);
    ItemResolves(defs, roots, AllItems(schemas, annotate), x, s.logicalName);
  }

  /** Rewriting by one owned name: a ref that leads into that name leads into its namespace, and any other stays. */
  lemma NamedRefIs(ns: string, d: string, suffix: string)
    requires NoSlash(d)
    ensures NamedIntoNamespace(ns, d)(DefRef(suffix)) == if FirstSegment(suffix) == d then DefRef(ns + "/" + suffix) else DefRef(suffix)
  {
    var r := DefRef(suffix);
    assert r[|DefPrefix|..] == suffix;
    assert DefPrefix + ns + "/" + suffix == DefPrefix + (ns + "/" + suffix);
    if FirstSegment(suffix) == d {
      var rest := suffix[|d|..];
      assert suffix == d + rest;
      assert r == DefPrefix + d + rest;
      if rest != [] {
        assert rest[0] == '/' && rest == "/" + rest[1..];
        assert r == DefPrefix + d + "/" + rest[1..];
      }
    } else {
      NamedRef(ns, d, r);
    }
  }

  /** Where the refs of a root schema lead once it has been rewritten for its owned definitions, in whatever order: into
      the owner's namespace if their name is among them, and where they led otherwise. It is enough that no name holds a
      slash and that no owner is itself among the names. */
  lemma {:induction false} OwnedRefsLead(value: Value, s: Generated, types: map<string, string>, order: seq<string>, suffix: string)
    requires DefRef(suffix) in Refs(value)
    requires forall d :: d in order ==> NoSlash(d) && Target(s, d, types).Some?
    requires forall d :: d in order && Target(s, d, types).Some? ==> FirstSegment(Target(s, d, types).value + "/") !in order
    ensures var d := FirstSegment(suffix);
            (if d in order then DefRef(Target(s, d, types).value + "/" + suffix) else DefRef(suffix))
            in Refs(RewrittenBy(value, s, types, order))
  {
    hide Refs, MapRefs, Target, FirstSegment, NamedIntoNamespace, NoSlash;
    if order != [] {
      var before, e, d := order[..|order| - 1], order[|order| - 1], FirstSegment(suffix);
      assert forall k :: k in before ==> k in order;
      OwnedRefsLead(value, s, types, before, suffix);
      var now := if d in before then Target(s, d, types).value + "/" + suffix else suffix;
      if d in before { FirstSegmentKept(Target(s, d, types).value, suffix); }
      NamedRefIs(Target(s, e, types).value, e, now);
      RefSurvives(RewrittenBy(value, s, types, before), ForcedRef(s, types, e), DefRef(now));
    }
  }

  lemma FirstSegmentKept(ns: string, suffix: string)
    ensures FirstSegment(ns + "/" + suffix) == FirstSegment(ns + "/")
  {
    var first := FirstSegment(ns + "/");
    var rest := (ns + "/")[|first|..];
    assert ns + "/" == first + rest;
    assert (ns + "/")[|ns|] == '/' && rest != [];
    assert ns + "/" + suffix == first + (rest + suffix);
    FirstSegmentOf(first, rest + suffix);
  }

  /** The last schema to put something under a name at the root. */
  ghost predicate PutsLast(schemas: seq<Generated>, types: map<string, string>, i: nat, k: string) {
    && i < |schemas| && k in RootKeys(schemas[i], types)
    && forall j :: i < j < |schemas| ==> k !in RootKeys(schemas[j], types)
  }

  function At(m: map<string, Value>, k: string): Option<Value> {
    if k in m then Some(m[k]) else None
  }

  /** It decides what is there. */
  lemma {:induction false} LastRootWins(schemas: seq<Generated>, types: map<string, string>, annotate: (Value, string) -> Value, k: string)
    ensures forall i: nat :: PutsLast(schemas, types, i, k) ==>
              && At(AllRoots(schemas, types, annotate), k) == At(AddedRoots(map[], schemas[i], types, annotate), k)
              && k in AllRoots(schemas, types, annotate)
    ensures (forall i: nat :: !PutsLast(schemas, types, i, k)) ==> k !in AllRoots(schemas, types, annotate)
  {
    hide RootKeys, AddedRoots;
    if schemas != [] {
      var last := |schemas| - 1;
      var before, s := schemas[..last], schemas[last];
      LastRootWins(before, types, annotate, k);
      AddedRootsAre(AllRoots(before, types, annotate), s, types, annotate, k);
      if k in RootKeys(s, types) {
        assert PutsLast(schemas, types, last, k);
      } else {
        forall i: nat | i < last ensures PutsLast(schemas, types, i, k) <==> PutsLast(before, types, i, k) {
          assert forall j :: 0 <= j < last ==> schemas[j] == before[j];
        }
      }
    }
  }

  lemma AddedRootsAre(roots: map<string, Value>, s: Generated, types: map<string, string>, annotate: (Value, string) -> Value, k: string)
    ensures k in AddedRoots(roots, s, types, annotate) <==> k in roots || k in RootKeys(s, types)
    ensures k in RootKeys(s, types) <==> k in AddedRoots(map[], s, types, annotate)
    ensures k in AddedRoots(roots, s, types, annotate) ==>
              AddedRoots(roots, s, types, annotate)[k]
              == if k in RootKeys(s, types) then AddedRoots(map[], s, types, annotate)[k] else roots[k]
  {
    hide MapRefs, Target, WithoutDefs, Merged;
    DefsKeepTheirNames(s.value, IntoKnownNamespace(types));
  }

  /** The definitions of a schema of the v1 directory stay at the root, whoever owns their names. */
  lemma V1StaysAtTheRoot(s: Generated, types: map<string, string>)
    requires s.namespace.None? && s.inV1Dir && s.logicalName !in IgnoredDefinitions
    ensures RootKeys(s, types) == {s.logicalName} + set d | d in DefsOf(s.value) && Merged(d)
    ensures Forced(s, DefsOf(s.value).Keys, types) == {}
  {
  }

  /** Every definition of a root schema that is merged at all goes one of two ways: to the root, or, if it has an owner and does
      not come from the directory of the first version, to the owner. */
  lemma EveryDefinitionGoesOneWay(s: Generated, types: map<string, string>, d: string)
    requires s.namespace.None? && s.logicalName !in IgnoredDefinitions && d in DefsOf(s.value) && Merged(d)
    ensures d in Forced(s, DefsOf(s.value).Keys, types) <==> !s.inV1Dir && exists ns :: NamespaceFor(d, types) == Some(ns)
    ensures d in RootKeys(s, types) <==> d == s.logicalName || d !in Forced(s, DefsOf(s.value).Keys, types)
    ensures RootKeys(s, types) <= DefsOf(s.value).Keys + {s.logicalName}
  {
    hide NamespaceFor, Merged;
    var owner := NamespaceFor(d, types);
    if owner.Some? { assert owner == Some(owner.value); }
  }

  /** So the refs of a root schema that its definitions' owners are to have lead there in whatever order the build takes them. */
  lemma RefsOfTheSchemaLead(s: Generated, types: map<string, string>, order: seq<string>, suffix: string)
    requires IsOrder(order, Forced(s, DefsOf(RootValue(s, types)).Keys, types)) && PlainNames(s)
    requires forall d, ns :: d in DefsOf(s.value) && NamespaceFor(d, types) == Some(ns) ==> FirstSegment(ns + "/") !in DefsOf(s.value)
    requires DefRef(suffix) in Refs(WithoutDefs(RootValue(s, types)))
    ensures var d := FirstSegment(suffix);
            var owned := d in DefsOf(s.value) && Merged(d) && !s.inV1Dir && NamespaceFor(d, types).Some?;
            DefRef(if owned then NamespaceFor(d, types).value + "/" + suffix else suffix)
            in Refs(RewrittenBy(WithoutDefs(RootValue(s, types)), s, types, order))
  {
    hide Refs, NamespaceFor, FirstSegment, NoSlash, Merged, RootValue, WithoutDefs, DefsOf, RewrittenBy, IntoKnownNamespace, MapRefs;
    assert DefsOf(RootValue(s, types)).Keys == DefsOf(s.value).Keys by {
      RootValueDefs(s, types);
    }
    forall d | d in order ensures NoSlash(d) && Target(s, d, types).Some? && FirstSegment(Target(s, d, types).value + "/") !in order {
      assert d in Forced(s, DefsOf(s.value).Keys, types) && NamespaceFor(d, types) == Some(Target(s, d, types).value);
    }
    OwnedRefsLead(WithoutDefs(RootValue(s, types)), s, types, order, suffix);
  }

  lemma RootValueDefs(s: Generated, types: map<string, string>)
    ensures DefsOf(RootValue(s, types)).Keys == DefsOf(s.value).Keys
  {
    DefsKeepTheirNames(s.value, IntoKnownNamespace(types));
  }
}
