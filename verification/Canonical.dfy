/** `canonicalize_json`: the normal form in which schema fixtures are compared. */
module Canonical {
  import opened Wrappers
  import opened Text
  import opened CompactJson
  import opened PrettyJson
  import opened Sorting

  // ------------------------------------------------------------- the normal form

  function LookupKey(entries: seq<Entry>, key: string): Option<Json> {
    if entries == [] then None
    else if entries[0].key == key then Some(entries[0].value)
    else LookupKey(entries[1..], key)
  }

  /** `schema_array_item_sort_key`: an array is sorted only when each of its items has one. */
  function SortKey(item: Json): Option<string> {
    match item
    case Null => Some("null")
    case Bool(b) => Some(if b then "b:true" else "b:false")
    case Number(text) => Some("n:" + text)
    case Str(s) => Some("s:" + s)
    case Obj(entries) => ObjectKey(LookupKey(entries, "$ref"), LookupKey(entries, "title"))
    case Arr(_) => None
  }

  function ObjectKey(reference: Option<Json>, title: Option<Json>): Option<string> {
    if reference.Some? && reference.value.Str? then Some("ref:" + reference.value.s)
    else if title.Some? && title.value.Str? then Some("title:" + title.value.s)
    else None
  }

  predicate Sortable(items: seq<Json>) {
    forall x :: x in items ==> SortKey(x).Some?
  }

  function KeyOf(item: Json): string {
    match SortKey(item) case Some(k) => k case None => ""
  }

  /** By sort key, then by compact text. */
  predicate ItemLeq(a: Json, b: Json) {
    if KeyOf(a) == KeyOf(b) then Leq(CompactText(a), CompactText(b)) else Leq(KeyOf(a), KeyOf(b))
  }

  predicate EntryLeq(a: Entry, b: Entry) {
    Leq(a.key, b.key)
  }

  function Canon(v: Json): Json
    decreases v, 1
  {
    match v
    case Arr(items) =>
      var canonical := CanonAll(items);
      if Sortable(canonical) then Arr(Sort(ItemLeq, canonical)) else Arr(canonical)
    case Obj(entries) => Obj(Sort(EntryLeq, CanonEntries(entries)))
    case _ => v
  }

  function CanonAll(items: seq<Json>): seq<Json>
    decreases items, 0
  {
    seq(|items|, i requires 0 <= i < |items| => Canon(items[i]))
  }

  function CanonEntries(entries: seq<Entry>): seq<Entry>
    decreases entries, 0
  {
    seq(|entries|, i requires 0 <= i < |entries| => Entry(entries[i].key, Canon(entries[i].value)))
  }

  lemma CanonOfArr(items: seq<Json>)
    ensures Canon(Arr(items)) == Arr(if Sortable(CanonAll(items)) then Sort(ItemLeq, CanonAll(items)) else CanonAll(items))
  {
  }

  lemma CanonOfObj(entries: seq<Entry>)
    ensures Canon(Obj(entries)) == Obj(Sort(EntryLeq, CanonEntries(entries)))
  {
  }

  /** The source's recursion; an array is sorted only after every item has shown a key. */
  method CanonicalizeJson(value: Json) returns (r: Json)
    ensures r == Canon(value)
    decreases value, 1
  {
    match value {
      case Arr(values) =>
        var items := CanonicalizeItems(values);
        var sortable := HaveSortKeys(items);
        if !sortable {
          return Arr(items);
        }
        r := Arr(Sort(ItemLeq, items));
      case Obj(entries) =>
        var children := CanonicalizeEntries(entries);
        r := Obj(Sort(EntryLeq, children));
      case _ =>
        r := value;
    }
  }

  method CanonicalizeItems(values: seq<Json>) returns (items: seq<Json>)
    ensures items == CanonAll(values)
    decreases values, 0
  {
    hide Canon;
    items := [];
    for i := 0 to |values|
      invariant |items| == i && forall j :: 0 <= j < i ==> items[j] == Canon(values[j])
    {
      var item := CanonicalizeJson(values[i]);
      items := items + [item];
    }
  }

  method CanonicalizeEntries(entries: seq<Entry>) returns (children: seq<Entry>)
    ensures children == CanonEntries(entries)
    decreases entries, 0
  {
    hide Canon;
    children := [];
    for i := 0 to |entries|
      invariant |children| == i
      invariant forall j :: 0 <= j < i ==> children[j] == Entry(entries[j].key, Canon(entries[j].value))
    {
      var child := CanonicalizeJson(entries[i].value);
      children := children + [Entry(entries[i].key, child)];
    }
  }

  method HaveSortKeys(items: seq<Json>) returns (all: bool)
    ensures all <==> Sortable(items)
  {
    for i := 0 to |items|
      invariant forall j :: 0 <= j < i ==> SortKey(items[j]).Some?
    {
      if SortKey(items[i]).None? {
        return false;
      }
    }
    all := true;
  }

  // ----------------------------------------------------------- which values agree

  function Without<T>(xs: seq<T>, j: nat): seq<T>
    requires j < |xs|
  {
    xs[..j] + xs[j + 1..]
  }

  lemma WithoutOne<T>(xs: seq<T>, j: nat)
    requires j < |xs|
    ensures multiset(Without(xs, j)) == multiset(xs) - multiset{xs[j]}
  {
    assert xs == xs[..j] + [xs[j]] + xs[j + 1..];
  }

  lemma IndexIn<T>(x: T, xs: seq<T>) returns (j: nat)
    requires x in xs
    ensures j < |xs| && xs[j] == x
  {
    j :| 0 <= j < |xs| && xs[j] == x;
  }

  /** `a` turns into `b` by reordering object keys, and items of fully sortable arrays, at any depth. */
  ghost predicate Equivalent(a: Json, b: Json)
    decreases a, 1
  {
    match a
    case Arr(xs) => b.Arr? && if Sortable(xs) then Permuted(xs, b.items) else Pairwise(xs, b.items)
    case Obj(es) => b.Obj? && SameEntries(es, b.entries)
    case _ => a == b
  }

  ghost predicate Pairwise(xs: seq<Json>, ys: seq<Json>)
    decreases xs, 0
  {
    |xs| == |ys| && forall i :: 0 <= i < |xs| ==> Equivalent(xs[i], ys[i])
  }

  ghost predicate Permuted(xs: seq<Json>, ys: seq<Json>)
    decreases xs, 0
  {
    if xs == [] then ys == []
    else exists j :: 0 <= j < |ys| && Equivalent(xs[0], ys[j]) && Permuted(xs[1..], Without(ys, j))
  }

  ghost predicate SameEntries(es: seq<Entry>, fs: seq<Entry>)
    decreases es, 0
  {
    if es == [] then fs == []
    else exists j :: 0 <= j < |fs| && es[0].key == fs[j].key && Equivalent(es[0].value, fs[j].value)
                     && SameEntries(es[1..], Without(fs, j))
  }

  predicate AllWellFormed(items: seq<Json>) {
    forall x :: x in items ==> WellFormed(x)
  }

  // ------------------------------------------------- keys survive canonicalisation

  lemma {:induction false} LookupIsMembership(es: seq<Entry>, key: string)
    ensures match LookupKey(es, key)
            case Some(v) => Entry(key, v) in es
            case None => forall e :: e in es ==> e.key != key
  {
    if es != [] {
      LookupIsMembership(es[1..], key);
      assert es == [es[0]] + es[1..];
    }
  }

  lemma CanonEntryOf(es: seq<Entry>)
    ensures forall e :: e in es ==> Entry(e.key, Canon(e.value)) in CanonEntries(es)
    ensures forall f :: f in CanonEntries(es) ==> exists e :: e in es && f == Entry(e.key, Canon(e.value))
  {
    forall e | e in es ensures Entry(e.key, Canon(e.value)) in CanonEntries(es) {
      var i :| 0 <= i < |es| && es[i] == e;
      assert CanonEntries(es)[i] == Entry(e.key, Canon(e.value));
    }
    forall f | f in CanonEntries(es) ensures exists e :: e in es && f == Entry(e.key, Canon(e.value)) {
      var i :| 0 <= i < |es| && CanonEntries(es)[i] == f;
      assert es[i] in es;
    }
  }

  ghost predicate OneValuePerKey(es: seq<Entry>) {
    forall e, f :: e in es && f in es && e.key == f.key ==> e == f
  }

  lemma LookupCanon(es: seq<Entry>, key: string)
    requires OneValuePerKey(es)
    ensures LookupKey(Sort(EntryLeq, CanonEntries(es)), key)
         == match LookupKey(es, key) case Some(v) => Some(Canon(v)) case None => None
  {
    var sorted := Sort(EntryLeq, CanonEntries(es));
    LookupIsMembership(es, key);
    LookupIsMembership(sorted, key);
    SortedMembers(EntryLeq, CanonEntries(es));
    CanonEntryOf(es);
  }

  lemma ObjectKeySurvives(reference: Option<Json>, title: Option<Json>, reference': Option<Json>, title': Option<Json>)
    requires reference' == match reference case Some(v) => Some(Canon(v)) case None => None
    requires title' == match title case Some(v) => Some(Canon(v)) case None => None
    ensures ObjectKey(reference', title') == ObjectKey(reference, title)
  {
  }

  lemma SortKeySurvives(v: Json)
    requires WellFormed(v)
    ensures SortKey(Canon(v)) == SortKey(v)
  {
    if v.Obj? {
      var es := v.entries;
      var sorted := Sort(EntryLeq, CanonEntries(es));
      LookupCanon(es, "$ref");
      LookupCanon(es, "title");
      ObjectKeySurvives(LookupKey(es, "$ref"), LookupKey(es, "title"), LookupKey(sorted, "$ref"), LookupKey(sorted, "title"));
      assert Canon(v) == Obj(sorted);
    }
  }

  lemma CanonItems(xs: seq<Json>)
    ensures forall x :: x in xs ==> Canon(x) in CanonAll(xs)
    ensures forall y :: y in CanonAll(xs) ==> exists x :: x in xs && y == Canon(x)
  {
    forall x | x in xs ensures Canon(x) in CanonAll(xs) {
      var i :| 0 <= i < |xs| && xs[i] == x;
      assert CanonAll(xs)[i] == Canon(x);
    }
    forall y | y in CanonAll(xs) ensures exists x :: x in xs && y == Canon(x) {
      var i :| 0 <= i < |xs| && CanonAll(xs)[i] == y;
      assert xs[i] in xs;
    }
  }

  lemma SortableSurvives(xs: seq<Json>)
    requires AllWellFormed(xs)
    ensures Sortable(CanonAll(xs)) <==> Sortable(xs)
  {
    CanonItems(xs);
    forall x | x in xs ensures SortKey(Canon(x)) == SortKey(x) { SortKeySurvives(x); }
  }

  // ------------------------------------------------------ canonical values are well formed

  lemma {:induction false} CanonIsWellFormed(v: Json)
    requires WellFormed(v)
    ensures WellFormed(Canon(v))
    decreases v
  {
    match v
    case Arr(xs) =>
      forall y | y in CanonAll(xs) ensures WellFormed(y) {
        var i :| 0 <= i < |xs| && CanonAll(xs)[i] == y;
        CanonIsWellFormed(xs[i]);
      }
      SortedMembers(ItemLeq, CanonAll(xs));
    case Obj(es) =>
      CanonEntryOf(es);
      SortedMembers(EntryLeq, CanonEntries(es));
      forall f | f in CanonEntries(es) ensures WellFormed(f.value) {
        var i :| 0 <= i < |es| && CanonEntries(es)[i] == f;
        CanonIsWellFormed(es[i].value);
      }
    case _ =>
  }

  lemma SortedMembers<T>(leq: (T, T) -> bool, xs: seq<T>)
    ensures forall x :: x in Sort(leq, xs) <==> x in xs
  {
    assert forall x :: x in Sort(leq, xs) <==> x in multiset(Sort(leq, xs));
    assert forall x :: x in xs <==> x in multiset(xs);
  }

  // ------------------------------------------------------------ the orders are total

  lemma ItemOrderIsTotal(xs: multiset<Json>)
    requires forall x :: x in xs ==> WellFormed(x)
    ensures TotalOn(ItemLeq, xs)
  {
    forall x, y | x in xs && y in xs
      ensures ItemLeq(x, y) || ItemLeq(y, x)
      ensures ItemLeq(x, y) && ItemLeq(y, x) ==> x == y
    {
      LeqTotal(KeyOf(x), KeyOf(y));
      LeqTotal(CompactText(x), CompactText(y));
      if ItemLeq(x, y) && ItemLeq(y, x) {
        if KeyOf(x) != KeyOf(y) {
          LeqAntisymmetric(KeyOf(x), KeyOf(y));
        }
        LeqAntisymmetric(CompactText(x), CompactText(y));
        CompactTextIsInjective(x, y);
      }
    }
    forall x, y, z | x in xs && y in xs && z in xs && ItemLeq(x, y) && ItemLeq(y, z) ensures ItemLeq(x, z) {
      ItemLeqTransitive(x, y, z);
    }
  }

  lemma ItemLeqTransitive(x: Json, y: Json, z: Json)
    requires ItemLeq(x, y) && ItemLeq(y, z)
    ensures ItemLeq(x, z)
  {
    if KeyOf(x) == KeyOf(y) == KeyOf(z) {
      LeqTransitive(CompactText(x), CompactText(y), CompactText(z));
    } else {
      if KeyOf(x) != KeyOf(y) && KeyOf(y) != KeyOf(z) {
        LeqTransitive(KeyOf(x), KeyOf(y), KeyOf(z));
      }
      if KeyOf(x) == KeyOf(z) {
        LeqAntisymmetric(KeyOf(x), KeyOf(y));
        assert false;
      }
    }
  }

  lemma EntryOrderIsTotal(es: multiset<Entry>)
    requires forall e, f :: e in es && f in es && e.key == f.key ==> e == f
    ensures TotalOn(EntryLeq, es)
  {
    forall e, f | e in es && f in es
      ensures EntryLeq(e, f) || EntryLeq(f, e)
      ensures EntryLeq(e, f) && EntryLeq(f, e) ==> e == f
    {
      LeqTotal(e.key, f.key);
      if EntryLeq(e, f) && EntryLeq(f, e) {
        LeqAntisymmetric(e.key, f.key);
      }
    }
    forall e, f, g | e in es && f in es && g in es && EntryLeq(e, f) && EntryLeq(f, g) ensures EntryLeq(e, g) {
      LeqTransitive(e.key, f.key, g.key);
    }
  }

  lemma CanonAllOrder(xs: seq<Json>)
    requires AllWellFormed(xs)
    ensures TotalOn(ItemLeq, multiset(CanonAll(xs)))
  {
    forall y | y in multiset(CanonAll(xs)) ensures WellFormed(y) {
      var i :| 0 <= i < |xs| && CanonAll(xs)[i] == y;
      CanonIsWellFormed(xs[i]);
    }
    ItemOrderIsTotal(multiset(CanonAll(xs)));
  }

  lemma CanonEntriesOrder(es: seq<Entry>)
    requires OneValuePerKey(es)
    ensures TotalOn(EntryLeq, multiset(CanonEntries(es)))
  {
    CanonEntryOf(es);
    assert forall f :: f in multiset(CanonEntries(es)) ==> f in CanonEntries(es);
    EntryOrderIsTotal(multiset(CanonEntries(es)));
  }

  // ---------------------------------------------------------- a complete normal form

  lemma CanonConcat(xs: seq<Json>, ys: seq<Json>)
    ensures CanonAll(xs + ys) == CanonAll(xs) + CanonAll(ys)
  {
    hide Canon;
  }

  lemma CanonSlice(ys: seq<Json>, j: nat)
    requires j < |ys|
    ensures CanonAll(ys[..j]) == CanonAll(ys)[..j] && CanonAll(ys[j + 1..]) == CanonAll(ys)[j + 1..]
  {
    hide Canon;
  }

  lemma CanonWithout(ys: seq<Json>, j: nat)
    requires j < |ys|
    ensures CanonAll(Without(ys, j)) == Without(CanonAll(ys), j)
  {
    hide Canon;
    CanonConcat(ys[..j], ys[j + 1..]);
    CanonSlice(ys, j);
  }

  lemma CanonEntriesConcat(es: seq<Entry>, fs: seq<Entry>)
    ensures CanonEntries(es + fs) == CanonEntries(es) + CanonEntries(fs)
  {
    hide Canon;
  }

  lemma CanonEntriesSlice(fs: seq<Entry>, j: nat)
    requires j < |fs|
    ensures CanonEntries(fs[..j]) == CanonEntries(fs)[..j] && CanonEntries(fs[j + 1..]) == CanonEntries(fs)[j + 1..]
  {
    hide Canon;
  }

  lemma CanonEntriesWithout(fs: seq<Entry>, j: nat)
    requires j < |fs|
    ensures CanonEntries(Without(fs, j)) == Without(CanonEntries(fs), j)
  {
    hide Canon;
    CanonEntriesConcat(fs[..j], fs[j + 1..]);
    CanonEntriesSlice(fs, j);
  }

  lemma CanonTail(xs: seq<Json>)
    requires xs != []
    ensures multiset(CanonAll(xs)) == multiset{Canon(xs[0])} + multiset(CanonAll(xs[1..]))
  {
    assert CanonAll(xs) == [Canon(xs[0])] + CanonAll(xs[1..]);
  }

  lemma CanonEntriesTail(es: seq<Entry>)
    requires es != []
    ensures multiset(CanonEntries(es))
         == multiset{Entry(es[0].key, Canon(es[0].value))} + multiset(CanonEntries(es[1..]))
  {
    assert CanonEntries(es) == [Entry(es[0].key, Canon(es[0].value))] + CanonEntries(es[1..]);
  }

  /** Taking the same element away from both sides. */
  lemma TakeAway<T>(head: T, rest: multiset<T>, all: multiset<T>)
    requires head in all
    ensures multiset{head} + rest == all <==> rest == all - multiset{head}
  {
    assert all == multiset{head} + (all - multiset{head});
  }

  lemma MatchItems(xs: seq<Json>, ys: seq<Json>, j: nat)
    requires xs != [] && j < |ys| && Canon(xs[0]) == Canon(ys[j])
    ensures multiset(CanonAll(xs)) == multiset(CanonAll(ys))
       <==> multiset(CanonAll(xs[1..])) == multiset(CanonAll(Without(ys, j)))
  {
    CanonTail(xs);
    CanonWithout(ys, j);
    WithoutOne(CanonAll(ys), j);
    assert CanonAll(ys)[j] == Canon(ys[j]);
    TakeAway(Canon(xs[0]), multiset(CanonAll(xs[1..])), multiset(CanonAll(ys)));
  }

  lemma MatchEntries(es: seq<Entry>, fs: seq<Entry>, j: nat)
    requires es != [] && j < |fs| && es[0].key == fs[j].key && Canon(es[0].value) == Canon(fs[j].value)
    ensures multiset(CanonEntries(es)) == multiset(CanonEntries(fs))
       <==> multiset(CanonEntries(es[1..])) == multiset(CanonEntries(Without(fs, j)))
  {
    CanonEntriesTail(es);
    CanonEntriesWithout(fs, j);
    var head := Entry(es[0].key, Canon(es[0].value));
    WithoutOne(CanonEntries(fs), j);
    assert CanonEntries(fs)[j] == head;
    TakeAway(head, multiset(CanonEntries(es[1..])), multiset(CanonEntries(fs)));
  }

  /** Canonical forms are equal exactly when the values are equivalent. */
  lemma {:induction false} NormalForm(a: Json, b: Json)
    requires WellFormed(a) && WellFormed(b)
    ensures Canon(a) == Canon(b) <==> Equivalent(a, b)
    decreases a, 1
  {
    if a.Arr? && b.Arr? {
      NormalFormOfArrays(a.items, b.items);
    } else if a.Obj? && b.Obj? {
      NormalFormOfEntries(a.entries, b.entries);
      CanonEntriesOrder(a.entries);
      CanonEntriesOrder(b.entries);
      SortForgetsOrder(EntryLeq, CanonEntries(a.entries), CanonEntries(b.entries));
    }
  }

  lemma {:induction false} NormalFormOfArrays(xs: seq<Json>, ys: seq<Json>)
    requires AllWellFormed(xs) && AllWellFormed(ys)
    ensures Canon(Arr(xs)) == Canon(Arr(ys)) <==> Equivalent(Arr(xs), Arr(ys))
    decreases xs, 1
  {
    SortableSurvives(xs);
    SortableSurvives(ys);
    if Sortable(xs) && Sortable(ys) {
      NormalFormOfItems(xs, ys);
      CanonAllOrder(xs);
      CanonAllOrder(ys);
      SortForgetsOrder(ItemLeq, CanonAll(xs), CanonAll(ys));
    } else if Sortable(xs) {
      NormalFormOfItems(xs, ys);
      SortableOnce(CanonAll(xs), CanonAll(ys));
    } else {
      NormalFormOfPairs(xs, ys);
      if Sortable(ys) {
        SortableOnce(CanonAll(ys), CanonAll(xs));
      }
    }
  }

  /** A list of keyed items is no rearrangement of a list with an item that has no key. */
  lemma SortableOnce(xs: seq<Json>, ys: seq<Json>)
    requires Sortable(xs) && !Sortable(ys)
    ensures multiset(xs) != multiset(ys) && Sort(ItemLeq, xs) != ys
  {
    SortedMembers(ItemLeq, xs);
    if multiset(xs) == multiset(ys) {
      SameMembers(xs, ys);
    }
  }

  lemma SameMembers<T>(xs: seq<T>, ys: seq<T>)
    requires multiset(xs) == multiset(ys)
    ensures forall x :: x in xs <==> x in ys
  {
    assert forall x :: x in xs <==> x in multiset(xs);
    assert forall x :: x in ys <==> x in multiset(ys);
  }

  lemma {:induction false} NormalFormOfPairs(xs: seq<Json>, ys: seq<Json>)
    requires AllWellFormed(xs) && AllWellFormed(ys)
    ensures CanonAll(xs) == CanonAll(ys) <==> Pairwise(xs, ys)
    decreases xs, 0
  {
    if |xs| == |ys| {
      forall i | 0 <= i < |xs| ensures CanonAll(xs)[i] == CanonAll(ys)[i] <==> Equivalent(xs[i], ys[i]) {
        NormalForm(xs[i], ys[i]);
      }
    }
  }

  lemma {:induction false} NormalFormOfItems(xs: seq<Json>, ys: seq<Json>)
    requires AllWellFormed(xs) && AllWellFormed(ys)
    ensures multiset(CanonAll(xs)) == multiset(CanonAll(ys)) <==> Permuted(xs, ys)
    decreases xs, 0
  {
    if xs == [] {
      assert |multiset(CanonAll(ys))| == |ys|;
      assert multiset(CanonAll(xs)) == multiset{};
    } else {
      if multiset(CanonAll(xs)) == multiset(CanonAll(ys)) {
        SameMembers(CanonAll(xs), CanonAll(ys));
        var j := IndexIn(CanonAll(xs)[0], CanonAll(ys));
        MatchItems(xs, ys, j);
        NormalForm(xs[0], ys[j]);
        WithoutMembers(ys, j);
        NormalFormOfItems(xs[1..], Without(ys, j));
      }
      if Permuted(xs, ys) {
        var j :| 0 <= j < |ys| && Equivalent(xs[0], ys[j]) && Permuted(xs[1..], Without(ys, j));
        NormalForm(xs[0], ys[j]);
        MatchItems(xs, ys, j);
        WithoutMembers(ys, j);
        NormalFormOfItems(xs[1..], Without(ys, j));
      }
    }
  }

  lemma WithoutMembers<T>(ys: seq<T>, j: nat)
    requires j < |ys|
    ensures forall y :: y in Without(ys, j) ==> y in ys
  {
  }

  lemma {:induction false} NormalFormOfEntries(es: seq<Entry>, fs: seq<Entry>)
    requires (forall e :: e in es ==> WellFormed(e.value)) && (forall f :: f in fs ==> WellFormed(f.value))
    ensures multiset(CanonEntries(es)) == multiset(CanonEntries(fs)) <==> SameEntries(es, fs)
    decreases es, 0
  {
    if es == [] {
      assert |multiset(CanonEntries(fs))| == |fs|;
      assert multiset(CanonEntries(es)) == multiset{};
    } else {
      if multiset(CanonEntries(es)) == multiset(CanonEntries(fs)) {
        SameMembers(CanonEntries(es), CanonEntries(fs));
        var j := IndexIn(CanonEntries(es)[0], CanonEntries(fs));
        MatchEntries(es, fs, j);
        NormalForm(es[0].value, fs[j].value);
        WithoutMembers(fs, j);
        NormalFormOfEntries(es[1..], Without(fs, j));
      }
      if SameEntries(es, fs) {
        var j :| 0 <= j < |fs| && es[0].key == fs[j].key && Equivalent(es[0].value, fs[j].value) && SameEntries(es[1..], Without(fs, j));
        NormalForm(es[0].value, fs[j].value);
        MatchEntries(es, fs, j);
        WithoutMembers(fs, j);
        NormalFormOfEntries(es[1..], Without(fs, j));
      }
    }
  }

  /** Fixtures are compared as indented text: the texts of their canonical forms are equal exactly when they are equivalent. */
  lemma FixturesMatchExactlyWhenEquivalent(a: Json, b: Json)
    requires WellFormed(a) && WellFormed(b)
    ensures PrettyText(Canon(a)) == PrettyText(Canon(b)) <==> Equivalent(a, b)
  {
    CanonIsWellFormed(a);
    CanonIsWellFormed(b);
    PrettyTextIsInjective(Canon(a), Canon(b));
    NormalForm(a, b);
  }

  /** Canonicalising keeps the items of an array up to their canonical form, and their order where one of them has no key. */
  lemma ArraysKeepTheirItems(xs: seq<Json>)
    requires AllWellFormed(xs)
    ensures Canon(Arr(xs)).Arr? && multiset(Canon(Arr(xs)).items) == multiset(CanonAll(xs))
    ensures !Sortable(xs) ==> Canon(Arr(xs)).items == CanonAll(xs)
    ensures Sortable(xs) ==> Sorted(ItemLeq, Canon(Arr(xs)).items)
  {
    SortableSurvives(xs);
    if Sortable(xs) {
      CanonAllOrder(xs);
      SortSorts(ItemLeq, CanonAll(xs));
    }
  }

  /** Canonicalising twice is canonicalising once. */
  lemma {:induction false} CanonIsIdempotent(v: Json)
    requires WellFormed(v)
    ensures Canon(Canon(v)) == Canon(v)
    decreases v
  {
    match v
    case Arr(xs) =>
      forall i | 0 <= i < |xs| ensures Canon(CanonAll(xs)[i]) == CanonAll(xs)[i] {
        CanonIsIdempotent(xs[i]);
      }
      CanonOfCanonicalArray(xs);
    case Obj(es) =>
      forall i | 0 <= i < |es| ensures Canon(CanonEntries(es)[i].value) == CanonEntries(es)[i].value {
        CanonIsIdempotent(es[i].value);
      }
      CanonOfCanonicalObject(es);
    case _ =>
  }

  lemma CanonAllFixed(zs: seq<Json>)
    requires forall z :: z in zs ==> Canon(z) == z
    ensures CanonAll(zs) == zs
  {
    hide Canon;
  }

  lemma CanonEntriesFixed(gs: seq<Entry>)
    requires forall g :: g in gs ==> Canon(g.value) == g.value
    ensures CanonEntries(gs) == gs
  {
    hide Canon;
    forall i | 0 <= i < |gs| ensures CanonEntries(gs)[i] == gs[i] {
      assert gs[i] in gs;
    }
  }

  lemma CanonOfCanonicalArray(xs: seq<Json>)
    requires AllWellFormed(xs) && forall i :: 0 <= i < |xs| ==> Canon(CanonAll(xs)[i]) == CanonAll(xs)[i]
    ensures Canon(Canon(Arr(xs))) == Canon(Arr(xs))
  {
    hide Canon;
    var cx, sorted := CanonAll(xs), Sort(ItemLeq, CanonAll(xs));
    SortedMembers(ItemLeq, cx);
    CanonAllFixed(cx);
    CanonAllFixed(sorted);
    CanonAllOrder(xs);
    SortTwice(ItemLeq, cx);
    CanonOfArr(xs);
    CanonOfArr(cx);
    CanonOfArr(sorted);
  }

  lemma CanonOfCanonicalObject(es: seq<Entry>)
    requires OneValuePerKey(es)
    requires forall i :: 0 <= i < |es| ==> Canon(CanonEntries(es)[i].value) == CanonEntries(es)[i].value
    ensures Canon(Canon(Obj(es))) == Canon(Obj(es))
  {
    hide Canon;
    var ce, sorted := CanonEntries(es), Sort(EntryLeq, CanonEntries(es));
    SortedMembers(EntryLeq, ce);
    CanonEntriesFixed(sorted);
    CanonEntriesOrder(es);
    SortTwice(EntryLeq, ce);
    CanonOfObj(es);
    CanonOfObj(sorted);
  }

  // -------------------------------------------------------- which arrays are sorted, and how

  /** Some entry of the object gives `key` a string. */
  predicate HasString(v: Json, key: string) {
    v.Obj? && exists e :: e in v.entries && e.key == key && e.value.Str?
  }

  /** The string that an item is sorted by, within its kind. */
  ghost predicate SortsBy(v: Json, kind: nat, text: string) {
    match v
    case Bool(b) => kind == 0 && text == if b then "true" else "false"
    case Number(n) => kind == 1 && text == n
    case Null => kind == 2 && text == ""
    case Str(s) => kind == 4 && text == s
    case Obj(entries) =>
      if HasString(v, "$ref") then kind == 3 && Entry("$ref", Str(text)) in entries
      else kind == 5 && Entry("title", Str(text)) in entries
    case Arr(_) => false
  }

  lemma KeyIs(v: Json, kind: nat, text: string)
    requires WellFormed(v) && SortsBy(v, kind, text)
    ensures SortKey(v) == Some(KindPrefix(kind) + text)
  {
    hide WellFormed;
    match v
    case Obj(entries) =>
      LookupIsMembership(entries, "$ref");
      LookupIsMembership(entries, "title");
      OneString(v, if kind == 3 then "$ref" else "title", text);
      if kind == 5 { NoString(v, "$ref"); }
    case Null => assert "null" + "" == "null";
    case Bool(b) => assert "b:" + "true" == "b:true" && "b:" + "false" == "b:false";
    case _ =>
  }

  function KindPrefix(kind: nat): string {
    match kind case 0 => "b:" case 1 => "n:" case 2 => "null" case 3 => "ref:" case 4 => "s:" case _ => "title:"
  }

  lemma OneString(v: Json, key: string, text: string)
    requires WellFormed(v) && v.Obj? && Entry(key, Str(text)) in v.entries
    ensures LookupKey(v.entries, key) == Some(Str(text))
  {
    LookupIsMembership(v.entries, key);
  }

  lemma NoString(v: Json, key: string)
    requires v.Obj? && !HasString(v, key)
    ensures !(LookupKey(v.entries, key).Some? && LookupKey(v.entries, key).value.Str?)
  {
    LookupIsMembership(v.entries, key);
  }

  /** An item has a sort key unless it is an array, or an object without a string for `$ref` or `title`. */
  lemma KeyedItems(v: Json)
    requires WellFormed(v)
    ensures SortKey(v).Some? <==> !v.Arr? && (v.Obj? ==> HasString(v, "$ref") || HasString(v, "title"))
    ensures SortKey(v).Some? <==> exists kind, text :: SortsBy(v, kind, text)
  {
    match v
    case Obj(entries) =>
      LookupIsMembership(entries, "$ref");
      LookupIsMembership(entries, "title");
      if HasString(v, "$ref") {
        var e :| e in entries && e.key == "$ref" && e.value.Str?;
        assert e == Entry("$ref", Str(e.value.s));
        assert SortsBy(v, 3, e.value.s);
        KeyIs(v, 3, e.value.s);
      } else if HasString(v, "title") {
        var e :| e in entries && e.key == "title" && e.value.Str?;
        assert e == Entry("title", Str(e.value.s));
        assert SortsBy(v, 5, e.value.s);
        KeyIs(v, 5, e.value.s);
      } else {
        NoString(v, "$ref");
        NoString(v, "title");
      }
    case Null => assert SortsBy(v, 2, "");
    case Bool(b) => assert SortsBy(v, 0, if b then "true" else "false");
    case Number(n) => assert SortsBy(v, 1, n);
    case Str(s) => assert SortsBy(v, 4, s);
    case Arr(_) =>
  }

  /** An array is sorted exactly when none of its items is an array, and every object among them has a string for `$ref` or
      `title`; two such arrays with the same items in any order have one canonical form. */
  lemma SortedArrays(xs: seq<Json>, ys: seq<Json>)
    requires AllWellFormed(xs)
    ensures Sortable(xs) <==>
              forall x :: x in xs ==> !x.Arr? && (x.Obj? ==> HasString(x, "$ref") || HasString(x, "title"))
    ensures Sortable(xs) && multiset(xs) == multiset(ys) ==> Canon(Arr(xs)) == Canon(Arr(ys))
  {
    hide SortKey, HasString;
    forall x | x in xs ensures SortKey(x).Some? <==> !x.Arr? && (x.Obj? ==> HasString(x, "$ref") || HasString(x, "title")) {
      KeyedItems(x);
    }
    if Sortable(xs) && multiset(xs) == multiset(ys) {
      SameMembers(xs, ys);
      SortableSurvives(xs);
      SortableSurvives(ys);
      CanonOfArr(xs);
      CanonOfArr(ys);
      CanonAllOrder(xs);
      CanonAllOrder(ys);
      CanonAllSame(xs, ys);
      SortForgetsOrder(ItemLeq, CanonAll(xs), CanonAll(ys));
    }
  }

  lemma {:induction false} CanonAllSame(xs: seq<Json>, ys: seq<Json>)
    requires multiset(xs) == multiset(ys)
    ensures multiset(CanonAll(xs)) == multiset(CanonAll(ys))
  {
    if xs == [] {
      assert |multiset(ys)| == 0;
    } else {
      assert xs[0] in multiset(ys);
      var j := IndexIn(xs[0], ys);
      WithoutOne(ys, j);
      SamePart(xs);
      TakeAway(xs[0], multiset(xs[1..]), multiset(ys));
      CanonAllSame(xs[1..], Without(ys, j));
      MatchItems(xs, ys, j);
    }
  }

  /** In a sorted array booleans come first, then numbers, nulls, objects by `$ref`, strings and objects by `title`, each kind
      in the order of its text. */
  lemma SortedByKind(xs: seq<Json>, i: nat, j: nat, k: nat, a: string, l: nat, b: string)
    requires AllWellFormed(xs) && Sortable(xs) && i < j < |Canon(Arr(xs)).items|
    requires SortsBy(Canon(Arr(xs)).items[i], k, a) && SortsBy(Canon(Arr(xs)).items[j], l, b)
    ensures k < l || (k == l && Leq(a, b))
    ensures k == l && a == b ==> Leq(CompactText(Canon(Arr(xs)).items[i]), CompactText(Canon(Arr(xs)).items[j]))
  {
    hide SortKey, SortsBy, Canon, CompactText;
    ArraysKeepTheirItems(xs);
    var v := Canon(Arr(xs));
    var x, y := v.items[i], v.items[j];
    CanonIsWellFormed(Arr(xs));
    MembersAreWellFormed(v);
    SortedAt(ItemLeq, v.items, i, j);
    KeyIs(x, k, a);
    KeyIs(y, l, b);
    ItemsByKey(x, y);
    SortsByKind(x, k, a);
    SortsByKind(y, l, b);
    KindsCompare(k, a, l, b);
  }

  lemma MembersAreWellFormed(v: Json)
    requires v.Arr? && WellFormed(v)
    ensures forall x :: x in v.items ==> WellFormed(x)
  {
  }

  lemma SortsByKind(v: Json, kind: nat, text: string)
    requires SortsBy(v, kind, text)
    ensures kind <= 5
  {
  }

  lemma ItemsByKey(x: Json, y: Json)
    requires SortKey(x).Some? && SortKey(y).Some? && ItemLeq(x, y)
    ensures Leq(SortKey(x).value, SortKey(y).value)
  {
    LeqTotal(SortKey(x).value, SortKey(y).value);
  }

  lemma KindsCompare(k: nat, a: string, l: nat, b: string)
    requires k <= 5 && l <= 5 && Leq(KindPrefix(k) + a, KindPrefix(l) + b)
    ensures k < l || (k == l && Leq(a, b))
  {
    if k == l {
      LeqBehind(KindPrefix(k), a, b);
    } else if l < k {
      KindsDiffer(l, b, k, a);
    }
  }

  lemma KindsDiffer(k: nat, a: string, l: nat, b: string)
    requires k < l <= 5
    ensures !Leq(KindPrefix(l) + b, KindPrefix(k) + a)
  {
    var x, y := KindPrefix(k) + a, KindPrefix(l) + b;
    assert x[0] == KindPrefix(k)[0] && y[0] == KindPrefix(l)[0];
    if k == 1 && l == 2 {
      assert x[1..][0] == ':' && y[1..][0] == 'u';
    }
  }

  /** The entries of a canonical object come in the order of their keys. */
  lemma KeysAreSorted(es: seq<Entry>, i: nat, j: nat)
    requires OneValuePerKey(es) && i < j < |Canon(Obj(es)).entries|
    ensures Canon(Obj(es)).Obj? && Leq(Canon(Obj(es)).entries[i].key, Canon(Obj(es)).entries[j].key)
  {
    hide Canon;
    CanonOfObj(es);
    CanonEntriesOrder(es);
    SortSorts(EntryLeq, CanonEntries(es));
    SortedAt(EntryLeq, Canon(Obj(es)).entries, i, j);
  }
}
