/** Facts written to JSON and read back, with their sets, timestamps and tables. */
module FactCodec {
  import opened Text
  import opened Plans
  import opened FactBase

  datatype Json =
    | Null
    | Bool(b: bool)
    | Integer(i: int)
    | Number(n: real)
    | Str(s: string)
    | List(items: seq<Json>)
    | Obj(fields: map<string, Json>)

  datatype Entry = Entry(name: string, value: Json, source: string, observedAt: Option<string>)

  /** What the Python library supplies: timestamps, `json.dumps` of a set's items, `str`, the order sets iterate in. */
  datatype Library = Library(
    iso: Instant -> string,
    fromIso: IsoParser,
    dumps: Elem -> string,
    str: Json -> string,
    list: set<Elem> -> seq<Elem>)

  ghost predicate Lists<T(!new)>(list: set<T> -> seq<T>) {
    forall s: set<T> :: multiset(list(s)) == multiset(s)
  }

  /** All that is assumed of it: parsing and dumping lose nothing, and iteration yields each element once. */
  ghost predicate Works(l: Library) {
    && (forall t :: l.fromIso(l.iso(t)) == Some(t) && l.iso(t) != "")
    && (forall a, b :: l.dumps(a) == l.dumps(b) ==> a == b)
    && (forall s :: l.str(Str(s)) == s)
    && Lists(l.list)
  }

  /** Each character behind an `x`, and a `y` at the end. */
  function Marked(s: string): string { if s == "" then "y" else "x" + [s[0]] + Marked(s[1..]) }

  lemma {:induction false} MarkedSplits(a: string, x: string, b: string, y: string)
    requires Marked(a) + x == Marked(b) + y
    ensures a == b && x == y
  {
    var l, r := Marked(a) + x, Marked(b) + y;
    assert l[0] == (if a == "" then 'y' else 'x') && r[0] == (if b == "" then 'y' else 'x');
    if a == "" {
      assert x == l[1..] && y == r[1..];
    } else {
      assert l[1] == a[0] && r[1] == b[0];
      assert l[2..] == Marked(a[1..]) + x && r[2..] == Marked(b[1..]) + y;
      MarkedSplits(a[1..], x, b[1..], y);
      assert a == [a[0]] + a[1..] && b == [b[0]] + b[1..];
    }
  }

  function Dumped(e: Elem): string {
    match e
    case Name(n) => "n" + n
    case Ref(r) => "r" + (Marked(r.namespace) + (Marked(r.kind) + r.name))
  }

  lemma DumpsDiffer(a: Elem, b: Elem)
    requires Dumped(a) == Dumped(b)
    ensures a == b
  {
    var s, t := Dumped(a)[1..], Dumped(b)[1..];
    assert Dumped(a)[0] == Dumped(b)[0];
    match (a, b)
    case (Name(m), Name(n)) => assert m == s && n == t;
    case (Ref(q), Ref(r)) =>
      assert s == Marked(q.namespace) + (Marked(q.kind) + q.name);
      assert t == Marked(r.namespace) + (Marked(r.kind) + r.name);
      MarkedSplits(q.namespace, Marked(q.kind) + q.name, r.namespace, Marked(r.kind) + r.name);
      MarkedSplits(q.kind, q.name, r.kind, r.name);
    case _ =>
  }

  ghost function Picked<T>(s: set<T>): (r: seq<T>)
    ensures multiset(r) == multiset(s)
  {
    if s == {} then [] else
      var x :| x in s;
      assert multiset(s) == multiset{x} + multiset(s - {x});
      [x] + Picked(s - {x})
  }

  lemma SignedDecimalInjective(m: int, n: int)
    requires SignedDecimal(m) == SignedDecimal(n)
    ensures m == n
  {
    if m < 0 { assert SignedDecimal(m)[0] == '-' && SignedDecimal(m)[1..] == Decimal(-m); }
    if n < 0 { assert SignedDecimal(n)[0] == '-' && SignedDecimal(n)[1..] == Decimal(-n); }
    assert m >= 0 ==> IsDigit(SignedDecimal(m)[0]);
    assert n >= 0 ==> IsDigit(SignedDecimal(n)[0]);
    DecimalInjective(if m < 0 then -m else m, if n < 0 then -n else n);
  }

  ghost function ReadBack(s: string): Option<Instant> {
    if t :| SignedDecimal(t) == s then Some(t) else None
  }

  /** There are such libraries. */
  lemma SomeLibraryWorks()
    ensures exists l: Library :: Works(l)
  {
    var l: Library := Library(
      (t: Instant) => SignedDecimal(t), (s: string) => ReadBack(s), (e: Elem) => Dumped(e),
      (j: Json) => if j.Str? then j.s else "", (s: set<Elem>) => Picked(s));
    forall t ensures l.fromIso(l.iso(t)) == Some(t) && l.iso(t) != "" {
      var s := SignedDecimal(t);
      var u := ReadBack(s).value;
      SignedDecimalInjective(t, u);
    }
    forall a, b | l.dumps(a) == l.dumps(b) ensures a == b { DumpsDiffer(a, b); }
    assert Works(l);
  }

  // ---------------------------------------------------------------- sorted

  /** Python's stable sort, one insertion at a time. */
  function InsertBy<T>(key: T -> string, x: T, s: seq<T>): seq<T> {
    if s == [] then [x] else if StrLess(key(x), key(s[0])) then [x] + s else [s[0]] + InsertBy(key, x, s[1..])
  }

  function SortBy<T>(key: T -> string, s: seq<T>): seq<T> {
    if s == [] then [] else InsertBy(key, s[|s| - 1], SortBy(key, s[..|s| - 1]))
  }

  ghost predicate InOrder<T>(key: T -> string, s: seq<T>) {
    forall i, j :: 0 <= i < j < |s| ==> !StrLess(key(s[j]), key(s[i]))
  }

  lemma AtMostTransitive(a: string, b: string, c: string)
    requires !StrLess(b, a) && !StrLess(c, b)
    ensures !StrLess(c, a)
  {
    StrOrder();
  }

  lemma LessIsAtMost(a: string, b: string)
    requires StrLess(a, b)
    ensures !StrLess(b, a)
  {
    StrOrder();
  }

  lemma AtMostBothWays(a: string, b: string)
    requires !StrLess(b, a) && !StrLess(a, b)
    ensures a == b
  {
    StrOrder();
  }

  lemma InOrderCons<T>(key: T -> string, x: T, s: seq<T>)
    requires InOrder(key, s) && forall j :: 0 <= j < |s| ==> !StrLess(key(s[j]), key(x))
    ensures InOrder(key, [x] + s)
  {}

  lemma {:induction false} InsertedIsXOrOld<T>(key: T -> string, x: T, s: seq<T>, j: nat)
    requires j < |InsertBy(key, x, s)|
    ensures InsertBy(key, x, s)[j] == x || InsertBy(key, x, s)[j] in s
  {
    if s != [] && !StrLess(key(x), key(s[0])) && j > 0 { InsertedIsXOrOld(key, x, s[1..], j - 1); }
  }

  lemma {:induction false} InsertByKeeps<T>(key: T -> string, x: T, s: seq<T>)
    requires InOrder(key, s)
    ensures InOrder(key, InsertBy(key, x, s)) && multiset(InsertBy(key, x, s)) == multiset(s) + multiset{x}
  {
    if s != [] {
      assert s == [s[0]] + s[1..];
      if StrLess(key(x), key(s[0])) {
        LessIsAtMost(key(x), key(s[0]));
        forall j | 0 <= j < |s| ensures !StrLess(key(s[j]), key(x)) {
          if j > 0 { AtMostTransitive(key(x), key(s[0]), key(s[j])); }
        }
        InOrderCons(key, x, s);
      } else {
        InsertByKeeps(key, x, s[1..]);
        var rest := InsertBy(key, x, s[1..]);
        forall j | 0 <= j < |rest| ensures !StrLess(key(rest[j]), key(s[0])) {
          InsertedIsXOrOld(key, x, s[1..], j);
        }
        InOrderCons(key, s[0], rest);
      }
    }
  }

  lemma {:induction false} SortBySorts<T>(key: T -> string, s: seq<T>)
    ensures InOrder(key, SortBy(key, s)) && multiset(SortBy(key, s)) == multiset(s)
  {
    if s != [] {
      SortBySorts(key, s[..|s| - 1]);
      InsertByKeeps(key, s[|s| - 1], SortBy(key, s[..|s| - 1]));
      assert s == s[..|s| - 1] + [s[|s| - 1]];
    }
  }

  lemma SameFirst<T>(key: T -> string, a: seq<T>, b: seq<T>)
    requires InOrder(key, a) && InOrder(key, b) && multiset(a) == multiset(b) && a != [] && b != []
    ensures key(a[0]) == key(b[0]) && a[0] in b && b[0] in a
  {
    assert a[0] in multiset(b) && b[0] in multiset(a);
    var i :| 0 <= i < |b| && b[i] == a[0];
    var j :| 0 <= j < |a| && a[j] == b[0];
    FirstIsLeast(key, b, i);
    FirstIsLeast(key, a, j);
    AtMostBothWays(key(a[0]), key(b[0]));
  }

  lemma FirstIsLeast<T>(key: T -> string, s: seq<T>, i: nat)
    requires InOrder(key, s) && i < |s|
    ensures !StrLess(key(s[i]), key(s[0]))
  {
    CharOrder();
    LexIrreflexive(CharLess, key(s[0]));
  }

  lemma CharOrder()
    ensures StrictTotal(CharLess)
  {}

  lemma SameTails<T>(a: seq<T>, b: seq<T>)
    requires multiset(a) == multiset(b) && a != [] && b != [] && a[0] == b[0]
    ensures multiset(a[1..]) == multiset(b[1..])
  {
    TailMultiset(a);
    TailMultiset(b);
  }

  lemma TailMultiset<T>(a: seq<T>)
    requires a != []
    ensures multiset(a[1..]) == multiset(a) - multiset{a[0]}
  {
    assert a == [a[0]] + a[1..];
  }

  lemma TailInOrder<T>(key: T -> string, a: seq<T>)
    requires InOrder(key, a) && a != []
    ensures InOrder(key, a[1..])
  {}

  /** With distinct keys there is one sorted order. */
  lemma {:induction false} SortedOrderUnique<T(!new)>(key: T -> string, a: seq<T>, b: seq<T>)
    requires InOrder(key, a) && InOrder(key, b) && multiset(a) == multiset(b) && InjectiveOn(key, a)
    ensures a == b
  {
    SameLength(a, b);
    if a != [] {
      SameFirst(key, a, b);
      SameKey(key, a, b[0]);
      SameTails(a, b);
      TailInOrder(key, a);
      TailInOrder(key, b);
      TailInjective(key, a);
      SortedOrderUnique(key, a[1..], b[1..]);
      assert a == [a[0]] + a[1..] && b == [b[0]] + b[1..];
    }
  }

  ghost predicate InjectiveOn<T(!new)>(key: T -> string, s: seq<T>) {
    forall x, y :: x in s && y in s && key(x) == key(y) ==> x == y
  }

  lemma SameKey<T(!new)>(key: T -> string, s: seq<T>, y: T)
    requires InjectiveOn(key, s) && s != [] && y in s && key(s[0]) == key(y)
    ensures s[0] == y
  {}

  lemma TailInjective<T(!new)>(key: T -> string, s: seq<T>)
    requires InjectiveOn(key, s) && s != []
    ensures InjectiveOn(key, s[1..])
  {}

  lemma SortIgnoresIteration<T(!new)>(key: T -> string, a: seq<T>, b: seq<T>)
    requires multiset(a) == multiset(b) && InjectiveOn(key, a)
    ensures SortBy(key, a) == SortBy(key, b)
  {
    SortBySorts(key, a);
    SortBySorts(key, b);
    assert forall x :: x in SortBy(key, a) <==> x in multiset(SortBy(key, a));
    assert forall x :: x in a <==> x in multiset(a);
    SortedOrderUnique(key, SortBy(key, a), SortBy(key, b));
  }

  // ---------------------------------------------------------------- writing

  function RefJson(r: Resource): Json {
    Obj(map["namespace" := Str(r.namespace), "kind" := Str(r.kind), "name" := Str(r.name)])
  }

  function ElemJson(e: Elem): Json {
    match e
    case Ref(r) => RefJson(r)
    case Name(n) => Str(n)
  }

  /** Strings sort as they are; as soon as a resource would have to be compared, by their JSON. */
  function SortKey(elems: set<Elem>, l: Library): Elem -> string {
    if forall e :: e in elems ==> e.Name? then (e: Elem) => if e.Name? then e.name else "" else l.dumps
  }

  function Items(elems: set<Elem>, l: Library): seq<Elem> { SortBy(SortKey(elems, l), l.list(elems)) }

  function Serialised(v: Value, l: Library): Json
    decreases v
  {
    match v
    case Nothing => Null
    case Flag(b) => Bool(b)
    case Whole(i) => Integer(i)
    case Amount(n) => Number(n)
    case Text(s) => Str(s)
    case Time(t) => Str(l.iso(t))
    case Set(elems) => var s := Items(elems, l); List(seq(|s|, i requires 0 <= i < |s| => ElemJson(s[i])))
    case Sequence(items) => List(seq(|items|, i requires 0 <= i < |items| => Serialised(items[i], l)))
    case Table(entries) => Obj(map k | k in entries :: Serialised(entries[k], l))
  }

  function ToEntry(f: Fact, l: Library): Entry {
    Entry(f.name, Serialised(f.value, l), f.source, Some(l.iso(f.observedAt)))
  }

  function ToDict(facts: seq<Fact>, l: Library): seq<Entry> {
    seq(|facts|, i requires 0 <= i < |facts| => ToEntry(facts[i], l))
  }

  /** What is written: JSON as it is, timestamps as text, sets as lists, and every part in its place. */
  lemma WhatIsWritten(v: Value, l: Library)
    ensures match v
            case Nothing => Serialised(v, l) == Null
            case Flag(b) => Serialised(v, l) == Bool(b)
            case Whole(i) => Serialised(v, l) == Integer(i)
            case Amount(n) => Serialised(v, l) == Number(n)
            case Text(s) => Serialised(v, l) == Str(s)
            case Time(t) => Serialised(v, l) == Str(l.iso(t))
            case Set(_) => Serialised(v, l).List?
            case Sequence(items) =>
              && Serialised(v, l).List? && |Serialised(v, l).items| == |items|
              && forall i :: 0 <= i < |items| ==> Serialised(v, l).items[i] == Serialised(items[i], l)
            case Table(entries) =>
              && Serialised(v, l).Obj? && Serialised(v, l).fields.Keys == entries.Keys
              && forall k :: k in entries ==> Serialised(v, l).fields[k] == Serialised(entries[k], l)
  {}

  ghost predicate ElemAs(e: Elem, j: Json) {
    match e
    case Name(n) => j == Str(n)
    case Ref(r) =>
      && j.Obj? && j.fields.Keys == {"namespace", "kind", "name"}
      && j.fields["namespace"] == Str(r.namespace) && j.fields["kind"] == Str(r.kind) && j.fields["name"] == Str(r.name)
  }

  ghost predicate SomeElemAs(elems: set<Elem>, j: Json) { exists e :: e in elems && ElemAs(e, j) }

  ghost predicate StringsAscend(items: seq<Json>) {
    forall i, j :: 0 <= i < j < |items| ==>
      items[i].Str? && items[j].Str? && items[i].s != items[j].s && !StrLess(items[j].s, items[i].s)
  }

  /** A set is written as the list of its elements, strings in order, resources with their three fields. */
  lemma WhatASetIsWrittenAs(elems: set<Elem>, l: Library)
    requires Works(l)
    ensures var items := Serialised(Set(elems), l).items;
            && |items| == |elems| && (forall j :: j in items <==> SomeElemAs(elems, j))
            && ((forall e :: e in elems ==> e.Name?) ==> StringsAscend(items))
  {
    var s, items := Items(elems, l), Serialised(Set(elems), l).items;
    ItemsCount(elems, l);
    forall j ensures j in items <==> SomeElemAs(elems, j) { ItemIsElem(elems, l, j); }
    if forall e :: e in elems ==> e.Name? { NamesInOrder(elems, l); }
  }

  lemma ItemsCount(elems: set<Elem>, l: Library)
    requires Works(l)
    ensures multiset(Items(elems, l)) == multiset(elems) && |Items(elems, l)| == |elems|
  {
    SortBySorts(SortKey(elems, l), l.list(elems));
    assert |multiset(Items(elems, l))| == |multiset(elems)| == |elems|;
  }

  lemma ItemIsElem(elems: set<Elem>, l: Library, j: Json)
    requires Works(l)
    ensures j in Serialised(Set(elems), l).items <==> SomeElemAs(elems, j)
  {
    var s, items := Items(elems, l), Serialised(Set(elems), l).items;
    ItemsHold(elems, l);
    if j in items {
      var i :| 0 <= i < |items| && items[i] == j;
      assert s[i] in s && ElemAs(s[i], j);
    }
    if e :| e in elems && ElemAs(e, j) {
      var i :| 0 <= i < |s| && s[i] == e;
      SameElem(e, j);
      assert items[i] == j;
    }
  }

  lemma SameElem(e: Elem, j: Json)
    requires ElemAs(e, j)
    ensures j == ElemJson(e)
  {
    if e.Ref? { assert j.fields == RefJson(e.ref).fields; }
  }

  lemma NamesInOrder(elems: set<Elem>, l: Library)
    requires Works(l) && forall e :: e in elems ==> e.Name?
    ensures StringsAscend(Serialised(Set(elems), l).items)
  {
    var s, key, items := Items(elems, l), SortKey(elems, l), Serialised(Set(elems), l).items;
    SortBySorts(key, l.list(elems));
    ItemsHold(elems, l);
    ItemsCount(elems, l);
    forall i, j | 0 <= i < j < |s|
      ensures items[i].Str? && items[j].Str? && items[i].s != items[j].s && !StrLess(items[j].s, items[i].s)
    {
      assert s[i] in s && s[j] in s;
      assert key(s[i]) == s[i].name && key(s[j]) == s[j].name;
      ListedOnce(s, elems, i, j);
    }
  }

  lemma ListedOnce<T>(s: seq<T>, elems: set<T>, i: nat, j: nat)
    requires multiset(s) == multiset(elems) && i < j < |s|
    ensures s[i] != s[j]
  {
    if s[i] == s[j] { CountedTwice(s, i, j); }
  }

  /** An entry keeps the fact's name, source and time. */
  lemma WhatAnEntryIs(f: Fact, l: Library)
    ensures var e := ToEntry(f, l);
            && e.name == f.name && e.source == f.source && e.observedAt == Some(l.iso(f.observedAt))
            && e.value == Serialised(f.value, l)
  {}

  lemma ListingHolds<T(!new)>(list: set<T> -> seq<T>, s: set<T>)
    requires Lists(list)
    ensures forall x :: x in list(s) <==> x in s
  {
    forall x ensures x in list(s) <==> x in s {
      assert x in list(s) <==> x in multiset(list(s));
      assert x in s <==> x in multiset(s);
    }
  }

  /** The same but for the order sets are iterated in. */
  ghost predicate Alike(a: Library, b: Library) { Works(a) && Works(b) && a == b.(list := a.list) }

  lemma ItemsAlike(elems: set<Elem>, a: Library, b: Library)
    requires Alike(a, b)
    ensures Items(elems, a) == Items(elems, b)
  {
    ListingHolds(a.list, elems);
    assert a.dumps == b.dumps && multiset(a.list(elems)) == multiset(elems) == multiset(b.list(elems));
    if forall e :: e in elems ==> e.Name? {
      var key := (e: Elem) => if e.Name? then e.name else "";
      assert SortKey(elems, a) == key == SortKey(elems, b);
      assert InjectiveOn(key, a.list(elems));
      SortIgnoresIteration(key, a.list(elems), b.list(elems));
    } else {
      assert InjectiveOn(a.dumps, a.list(elems));
      SortIgnoresIteration(a.dumps, a.list(elems), b.list(elems));
    }
  }

  /** What is written does not depend on the iteration order of any set. */
  lemma {:induction false} SerialisedIgnoresIteration(v: Value, a: Library, b: Library)
    requires Alike(a, b)
    ensures Serialised(v, a) == Serialised(v, b)
    decreases v
  {
    match v
    case Set(elems) => ItemsAlike(elems, a, b);
    case Sequence(items) =>
      forall i | 0 <= i < |items| ensures Serialised(items[i], a) == Serialised(items[i], b) {
        SerialisedIgnoresIteration(items[i], a, b);
      }
      assert Serialised(v, a).items == Serialised(v, b).items;
    case Table(entries) =>
      forall k | k in entries ensures Serialised(entries[k], a) == Serialised(entries[k], b) {
        SerialisedIgnoresIteration(entries[k], a, b);
      }
      assert Serialised(v, a).fields == Serialised(v, b).fields;
    case _ =>
  }

  // ---------------------------------------------------------------- reading

  datatype Result<+T> = Ok(value: T) | Bad

  const RESOURCE_SET_FACT_NAMES := {"in_flight_plan_targets", "plan_targets", "inverse_targets"}
  const STRING_SET_FACT_NAMES := {"plan_target_namespaces", "declared_blast_set", "observed_blast_set"}
  const DATETIME_FACT_NAMES := {"last_migration_commit_time", "rollback_target_commit_time"}
  const KINDS := {"Deployment", "ConfigMap", "Secret"}

  predicate ReadsNames(name: string) { name in STRING_SET_FACT_NAMES || "dependents[" <= name }

  function Field(fields: map<string, Json>, name: string): Option<string> {
    if name in fields && fields[name].Str? then Some(fields[name].s) else None
  }

  /** `ResourceRef.model_validate`: None is the ValidationError. */
  function ValidateRef(fields: map<string, Json>): Option<Resource> {
    var (namespace, kind, name) := (Field(fields, "namespace"), Field(fields, "kind"), Field(fields, "name"));
    if namespace.Some? && kind.Some? && kind.value in KINDS && name.Some?
    then Some(Resource(namespace.value, kind.value, name.value)) else None
  }

  /** Items that are not objects are passed over; an object that is no resource spoils the fact. */
  function ReadRefs(items: seq<Json>): Option<set<Resource>> {
    if items == [] then Some({}) else
      var before, last := ReadRefs(items[..|items| - 1]), items[|items| - 1];
      if before.None? || !last.Obj? then before
      else if ValidateRef(last.fields).None? then None
      else Some(before.value + {ValidateRef(last.fields).value})
  }

  function Refs(refs: set<Resource>): Value { Set(set r | r in refs :: Ref(r)) }

  function ReadNames(items: seq<Json>, str: Json -> string): Value { Set(set j | j in items :: Name(str(j))) }

  /** JSON as `json.load` left it. */
  function Plain(j: Json): Value
    decreases j
  {
    match j
    case Null => Nothing
    case Bool(b) => Flag(b)
    case Integer(i) => Whole(i)
    case Number(n) => Amount(n)
    case Str(s) => Text(s)
    case List(items) => Sequence(seq(|items|, i requires 0 <= i < |items| => Plain(items[i])))
    case Obj(fields) => Table(map k | k in fields :: Plain(fields[k]))
  }

  function ReadEntry(j: Json, str: Json -> string): Value {
    if j.List? then ReadNames(j.items, str) else Plain(j)
  }

  function Deserialised(name: string, j: Json, l: Library): Result<Value> {
    if name in DATETIME_FACT_NAMES && j.Str? then
      (match l.fromIso(j.s) case Some(t) => Ok(Time(t)) case None => Bad)
    else if name in RESOURCE_SET_FACT_NAMES && j.List? then
      (match ReadRefs(j.items) case Some(refs) => Ok(Refs(refs)) case None => Bad)
    else if ReadsNames(name) && j.List? then Ok(ReadNames(j.items, l.str))
    else if name == "dependents" && j.Obj? then
      Ok(Table(map k | k in j.fields :: ReadEntry(j.fields[k], l.str)))
    else Ok(Plain(j))
  }

  function FromEntry(e: Entry, l: Library): Result<Fact> {
    var value := Deserialised(e.name, e.value, l);
    if value.Bad? || !Given(e.observedAt) then Bad
    else match l.fromIso(e.observedAt.value)
      case Some(t) => Ok(Fact(e.name, value.value, e.source, t))
      case None => Bad
  }

  function FromDict(entries: seq<Entry>, l: Library): Result<seq<Fact>> {
    if entries == [] then Ok([]) else
      var before, last := FromDict(entries[..|entries| - 1], l), FromEntry(entries[|entries| - 1], l);
      if before.Bad? || last.Bad? then Bad else Ok(before.value + [last.value])
  }

  method ReconstructRefs(items: seq<Json>) returns (r: Option<set<Resource>>)
    ensures r == ReadRefs(items)
  {
    var reconstructed: set<Resource> := {};
    for i := 0 to |items|
      invariant ReadRefs(items[..i]) == Some(reconstructed)
    {
      assert items[..i + 1][..i] == items[..i];
      if items[i].Obj? {
        var ref := ValidateRef(items[i].fields);
        if ref.None? {
          OnceBadRefs(items, i + 1);
          return None;
        }
        reconstructed := reconstructed + {ref.value};
      }
    }
    assert items[..|items|] == items;
    r := Some(reconstructed);
  }

  lemma {:induction false} OnceBadRefs(items: seq<Json>, i: nat)
    requires i <= |items| && ReadRefs(items[..i]).None?
    ensures ReadRefs(items).None?
    decreases |items| - i
  {
    if i < |items| {
      assert items[..i + 1][..i] == items[..i];
      OnceBadRefs(items, i + 1);
    } else {
      assert items[..i] == items;
    }
  }

  method FactsFromDict(entries: seq<Entry>, l: Library) returns (r: Result<seq<Fact>>)
    ensures r == FromDict(entries, l)
  {
    var facts: seq<Fact> := [];
    for i := 0 to |entries|
      invariant FromDict(entries[..i], l) == Ok(facts)
    {
      assert entries[..i + 1][..i] == entries[..i];
      var fact := FromEntry(entries[i], l);
      if fact.Bad? {
        OnceBad(entries, i + 1, l);
        return Bad;
      }
      facts := facts + [fact.value];
    }
    assert entries[..|entries|] == entries;
    r := Ok(facts);
  }

  lemma {:induction false} OnceBad(entries: seq<Entry>, i: nat, l: Library)
    requires i <= |entries| && FromDict(entries[..i], l).Bad?
    ensures FromDict(entries, l).Bad?
    decreases |entries| - i
  {
    if i < |entries| {
      assert entries[..i + 1][..i] == entries[..i];
      OnceBad(entries, i + 1, l);
    } else {
      assert entries[..i] == entries;
    }
  }

  // ---------------------------------------------------------------- round trip

  /** Resources the data model accepts. */
  predicate RealRefs(v: Value) { v.Set? ==> forall e :: e in v.elems && e.Ref? ==> e.ref.kind in KINDS }

  /** JSON through and through: no timestamp and no set anywhere inside. */
  predicate IsPlain(v: Value)
    decreases v
  {
    match v
    case Time(_) => false
    case Set(_) => false
    case Sequence(items) => forall i :: 0 <= i < |items| ==> IsPlain(items[i])
    case Table(entries) => forall k :: k in entries ==> IsPlain(entries[k])
    case _ => true
  }

  predicate IsNames(v: Value) { v.Set? && forall e :: e in v.elems ==> e.Name? }

  predicate IsRefs(v: Value) { v.Set? && forall e :: e in v.elems ==> e.Ref? }

  /** A set of strings, or JSON that is no list. */
  predicate NamesShaped(v: Value) { IsNames(v) || (IsPlain(v) && !v.Sequence?) }

  /** The value has the shape its fact's name calls for. */
  predicate Shaped(name: string, v: Value) {
    if name in DATETIME_FACT_NAMES then v.Time? || (IsPlain(v) && !v.Text?)
    else if name in RESOURCE_SET_FACT_NAMES then IsRefs(v) || (IsPlain(v) && !v.Sequence?)
    else if ReadsNames(name) then NamesShaped(v)
    else if name == "dependents" && v.Table? then forall k :: k in v.entries ==> NamesShaped(v.entries[k])
    else IsPlain(v)
  }

  lemma {:induction false} PlainIsPlain(j: Json)
    ensures IsPlain(Plain(j))
    decreases j
  {
    match j
    case List(items) => forall i | 0 <= i < |items| ensures IsPlain(Plain(items[i])) { PlainIsPlain(items[i]); }
    case Obj(fields) => forall k | k in fields ensures IsPlain(Plain(fields[k])) { PlainIsPlain(fields[k]); }
    case _ =>
  }

  /** Written and loaded again without more ado, exactly the plain values come back. */
  lemma PlainComesBack(v: Value, l: Library)
    ensures Plain(Serialised(v, l)) == v <==> IsPlain(v)
  {
    PlainIsPlain(Serialised(v, l));
    if IsPlain(v) { PlainIsKept(v, l); }
  }

  lemma {:induction false} PlainIsKept(v: Value, l: Library)
    requires IsPlain(v)
    ensures Plain(Serialised(v, l)) == v
    decreases v
  {
    match v
    case Sequence(items) =>
      forall i | 0 <= i < |items| ensures Plain(Serialised(items[i], l)) == items[i] { PlainIsKept(items[i], l); }
      assert Plain(Serialised(v, l)).items == items;
    case Table(entries) =>
      forall k | k in entries ensures Plain(Serialised(entries[k], l)) == entries[k] { PlainIsKept(entries[k], l); }
      assert Plain(Serialised(v, l)).entries == entries;
    case _ =>
  }

  lemma ItemsHold(elems: set<Elem>, l: Library)
    requires Works(l)
    ensures forall e :: e in Items(elems, l) <==> e in elems
  {
    SortBySorts(SortKey(elems, l), l.list(elems));
    ListingHolds(l.list, elems);
    forall e ensures e in Items(elems, l) <==> e in elems {
      assert e in multiset(Items(elems, l)) <==> e in multiset(l.list(elems));
    }
  }

  lemma NamesComeBack(v: Value, l: Library)
    requires Works(l) && v.Set?
    ensures ReadNames(Serialised(v, l).items, l.str) == v <==> IsNames(v)
  {
    var s, items, back := Items(v.elems, l), Serialised(v, l).items, ReadNames(Serialised(v, l).items, l.str);
    ItemsHold(v.elems, l);
    if IsNames(v) {
      forall i | 0 <= i < |s| ensures Name(l.str(items[i])) == s[i] { assert s[i] in s; }
      forall e ensures e in back.elems <==> e in v.elems {
        if e in v.elems { var i :| 0 <= i < |s| && s[i] == e; assert items[i] in items; }
        if e in back.elems { var i :| 0 <= i < |items| && Name(l.str(items[i])) == e; assert s[i] in s; }
      }
    }
  }

  /** The resources among a set's elements. */
  function RefsIn(s: seq<Elem>): set<Resource> { set e | e in s && e.Ref? :: e.ref }

  function ElemJsons(s: seq<Elem>): (r: seq<Json>)
    ensures |r| == |s| && forall i :: 0 <= i < |s| ==> r[i] == ElemJson(s[i])
  {
    seq(|s|, i requires 0 <= i < |s| => ElemJson(s[i]))
  }

  lemma RefIsRead(r: Resource)
    requires r.kind in KINDS
    ensures ValidateRef(RefJson(r).fields) == Some(r)
  {}

  lemma {:induction false} RefsRead(s: seq<Elem>)
    requires forall e :: e in s && e.Ref? ==> e.ref.kind in KINDS
    ensures ReadRefs(ElemJsons(s)) == Some(RefsIn(s))
  {
    if s != [] {
      var most, last := s[..|s| - 1], s[|s| - 1];
      RefsRead(most);
      assert s == most + [last] && ElemJsons(s)[..|s| - 1] == ElemJsons(most);
      if last.Ref? {
        RefIsRead(last.ref);
        assert RefsIn(s) == RefsIn(most) + {last.ref};
      } else {
        assert RefsIn(s) == RefsIn(most);
      }
    } else {
      assert RefsIn(s) == {};
    }
  }

  lemma RefsComeBack(v: Value, l: Library)
    requires Works(l) && v.Set? && RealRefs(v)
    ensures ReadRefs(Serialised(v, l).items).Some?
    ensures Refs(ReadRefs(Serialised(v, l).items).value) == v <==> IsRefs(v)
  {
    var s := Items(v.elems, l);
    ItemsHold(v.elems, l);
    RefsRead(s);
    assert Serialised(v, l).items == ElemJsons(s);
    var back := Refs(RefsIn(s));
    if IsRefs(v) {
      forall e ensures e in back.elems <==> e in v.elems {
        if e in v.elems { assert e.ref in RefsIn(s); }
      }
    }
  }

  lemma EntryComesBack(v: Value, l: Library)
    requires Works(l)
    ensures ReadEntry(Serialised(v, l), l.str) == v <==> NamesShaped(v)
  {
    if v.Set? {
      NamesComeBack(v, l);
    } else {
      PlainComesBack(v, l);
    }
  }

  lemma TableComesBack(v: Value, l: Library)
    requires Works(l) && v.Table?
    ensures Deserialised("dependents", Serialised(v, l), l) == Ok(v) <==> Shaped("dependents", v)
  {
    KindsOfNames("dependents");
    var back := Deserialised("dependents", Serialised(v, l), l).value;
    assert back.Table? && back.entries.Keys == v.entries.Keys;
    forall k | k in v.entries ensures back.entries[k] == v.entries[k] <==> NamesShaped(v.entries[k]) {
      EntryComesBack(v.entries[k], l);
    }
    if Shaped("dependents", v) { assert back.entries == v.entries; }
  }

  /** No name belongs to two kinds. */
  lemma KindsOfNames(name: string)
    ensures name in DATETIME_FACT_NAMES ==>
              name !in RESOURCE_SET_FACT_NAMES && !ReadsNames(name) && name != "dependents"
    ensures name in RESOURCE_SET_FACT_NAMES ==> !ReadsNames(name) && name != "dependents"
    ensures ReadsNames(name) ==> name != "dependents"
  {
    assert name in DATETIME_FACT_NAMES ==> name[0] == 'l' || name[0] == 'r';
    assert name in RESOURCE_SET_FACT_NAMES ==> name[0] == 'i' || (name[0] == 'p' && |name| == 12);
    assert name in STRING_SET_FACT_NAMES ==>
        (name[0] == 'p' && |name| == 22) || name[0] == 'o' || (name[0] == 'd' && name[2] == 'c');
    assert "dependents[" <= name ==> name[0] == "dependents["[0] && |name| >= 11;
  }

  /** A value is read back as it was exactly when its fact's name announces its shape. */
  lemma ValueRoundTrip(name: string, v: Value, l: Library)
    requires Works(l) && RealRefs(v)
    ensures Deserialised(name, Serialised(v, l), l) == Ok(v) <==> Shaped(name, v)
  {
    KindsOfNames(name);
    PlainComesBack(v, l);
    match v
    case Set(elems) =>
      NamesComeBack(v, l);
      RefsComeBack(v, l);
    case Table(_) => if name == "dependents" { TableComesBack(v, l); }
    case _ =>
  }

  lemma FactRoundTrip(f: Fact, l: Library)
    requires Works(l) && RealRefs(f.value)
    ensures FromEntry(ToEntry(f, l), l) == Ok(f) <==> Shaped(f.name, f.value)
  {
    ValueRoundTrip(f.name, f.value, l);
  }

  /** A list of facts comes back as it was exactly when every value has the shape its name calls for. */
  lemma {:induction false} FactsRoundTrip(facts: seq<Fact>, l: Library)
    requires Works(l) && forall f :: f in facts ==> RealRefs(f.value)
    ensures FromDict(ToDict(facts, l), l) == Ok(facts) <==> forall f :: f in facts ==> Shaped(f.name, f.value)
    ensures FromDict(ToDict(facts, l), l).Ok? ==> |FromDict(ToDict(facts, l), l).value| == |facts|
  {
    if facts != [] {
      var most, last := facts[..|facts| - 1], facts[|facts| - 1];
      assert facts == most + [last];
      assert ToDict(facts, l)[..|facts| - 1] == ToDict(most, l);
      FactsRoundTrip(most, l);
      FactRoundTrip(last, l);
      var back := FromDict(ToDict(facts, l), l);
      if back.Ok? {
        var before := FromDict(ToDict(most, l), l).value;
        assert back.value[..|most|] == before && back.value[|most|] == FromEntry(ToEntry(last, l), l).value;
        assert back.value == facts <==> before == most && back.value[|most|] == last;
      }
    }
  }
}
