/** Facts, their lookup by plain or subscripted name, and their reading at a solver sort. */
module FactBase {
  import opened Text
  import opened Plans

  /** Microseconds since the epoch, the resolution of a Python datetime. */
  type Instant = int

  function Timestamp(at: Instant): real { at as real / 1000000.0 }

  /** What a set may hold. */
  datatype Elem = Ref(ref: Resource) | Name(name: string)

  /** A fact's value; each Python value has one representation. */
  datatype Value =
    | Nothing
    | Flag(b: bool)
    | Whole(i: int)
    | Amount(n: real)
    | Text(s: string)
    | Time(at: Instant)
    | Set(elems: set<Elem>)
    | Sequence(items: seq<Value>)
    | Table(entries: map<string, Value>)

  datatype Fact = Fact(name: string, value: Value, source: string, observedAt: Instant)

  /** `{f.name: f for f in facts}`: the last fact of a name wins. */
  function Index(facts: seq<Fact>): map<string, Value> {
    if facts == [] then map[] else
      var last := facts[|facts| - 1];
      Index(facts[..|facts| - 1])[last.name := last.value]
  }

  ghost predicate IsLast(facts: seq<Fact>, name: string, i: int) {
    && 0 <= i < |facts| && facts[i].name == name
    && forall j :: i < j < |facts| ==> facts[j].name != name
  }

  /** Exactly the listed names are indexed, each with the value listed last. */
  lemma {:induction false} LastFactWins(facts: seq<Fact>, name: string)
    ensures name !in Index(facts) ==> forall i :: 0 <= i < |facts| ==> facts[i].name != name
    ensures name in Index(facts) ==> exists i :: IsLast(facts, name, i) && Index(facts)[name] == facts[i].value
  {
    if facts != [] {
      var n := |facts| - 1;
      LastFactWins(facts[..n], name);
      if facts[n].name == name {
        assert IsLast(facts, name, n);
      } else if name in Index(facts[..n]) {
        var i :| IsLast(facts[..n], name, i) && Index(facts[..n])[name] == facts[..n][i].value;
        assert IsLast(facts, name, i);
      }
    }
  }

  predicate IsWord(c: char) {
    'a' <= c <= 'z' || 'A' <= c <= 'Z' || '0' <= c <= '9' || c == '_'
  }

  datatype Subscript = Subscript(base: string, key: string)

  /** `base[key]`; the pattern's `$` also accepts one trailing newline. */
  function ParseSubscript(name: string): Option<Subscript> {
    var s := Chomp(name);
    var open := Position(s, '[');
    if open == 0 || open + 2 >= |s| || s[|s| - 1] != ']' then None else
      var base, key := s[..open], s[open + 1..|s| - 1];
      if (forall i :: 0 <= i < |base| ==> IsWord(base[i])) &&
         (forall i :: 0 <= i < |key| ==> IsWord(key[i]) || key[i] == '-')
      then Some(Subscript(base, key)) else None
  }

  function Lookup(facts: map<string, Value>, name: string): Option<Value> {
    if name in facts then Some(facts[name]) else
      match ParseSubscript(name)
      case Some(Subscript(base, key)) =>
        if base in facts && facts[base].Table? && key in facts[base].entries
        then Some(facts[base].entries[key]) else None
      case None => None
  }

  // ---------------------------------------------------------------- what a name stands for

  /** `^([a-zA-Z0-9_]+)\[([a-zA-Z0-9_-]+)\]$`. */
  ghost predicate Names(name: string, base: string, key: string) {
    && SameLine(name, base + "[" + key + "]") && base != "" && key != ""
    && (forall c :: c in base ==> 'a' <= c <= 'z' || 'A' <= c <= 'Z' || '0' <= c <= '9' || c == '_')
    && (forall c :: c in key ==> 'a' <= c <= 'z' || 'A' <= c <= 'Z' || '0' <= c <= '9' || c == '_' || c == '-')
  }

  ghost predicate Entry(facts: map<string, Value>, name: string, base: string, key: string, v: Value) {
    && Names(name, base, key) && base in facts
    && match facts[base] case Table(entries) => key in entries && entries[key] == v case _ => false
  }

  /** The facts give the name this value: one of its own, or else the entry it picks out of a table. */
  ghost predicate Says(facts: map<string, Value>, name: string, v: Value) {
    if name in facts then facts[name] == v else exists base, key :: Entry(facts, name, base, key, v)
  }

  lemma NamedIsParsed(name: string, base: string, key: string)
    requires Names(name, base, key)
    ensures ParseSubscript(name) == Some(Subscript(base, key))
  {
    var s := base + "[" + key + "]";
    LineIsChomped(name, s);
    OpenBracket(base, key);
    assert s[..|base|] == base && s[|base| + 1..|s| - 1] == key && s[|s| - 1] == ']';
    forall i | 0 <= i < |base| ensures IsWord(base[i]) { assert base[i] in base; }
    forall i | 0 <= i < |key| ensures IsWord(key[i]) || key[i] == '-' { assert key[i] in key; }
  }

  lemma LineIsChomped(name: string, line: string)
    requires SameLine(name, line) && line != "" && line[|line| - 1] != '\n'
    ensures Chomp(name) == line
  {}

  lemma OpenBracket(base: string, key: string)
    requires forall c :: c in base ==> c != '['
    ensures Position(base + "[" + key + "]", '[') == |base|
  {
    var s := base + "[" + key + "]";
    assert s[|base|] == '[';
    forall k | 0 <= k < |base| ensures s[k] != '[' { assert s[k] == base[k] && base[k] in base; }
  }

  lemma ParsedIsNamed(name: string, base: string, key: string)
    requires ParseSubscript(name) == Some(Subscript(base, key))
    ensures Names(name, base, key)
  {
    var line := Chomp(name);
    var open := Position(line, '[');
    assert line == line[..open] + "[" + line[open + 1..|line| - 1] + "]";
  }

  lemma SubscriptParses(name: string, base: string, key: string)
    ensures ParseSubscript(name) == Some(Subscript(base, key)) <==> Names(name, base, key)
  {
    if Names(name, base, key) { NamedIsParsed(name, base, key); }
    if ParseSubscript(name) == Some(Subscript(base, key)) { ParsedIsNamed(name, base, key); }
  }

  /** Lookup finds exactly what the facts say. */
  lemma LookupIsWhatFactsSay(facts: map<string, Value>, name: string, v: Value)
    ensures Lookup(facts, name) == Some(v) <==> Says(facts, name, v)
  {
    if name !in facts {
      forall base, key ensures Entry(facts, name, base, key, v) ==> Lookup(facts, name) == Some(v) {
        SubscriptParses(name, base, key);
      }
      if Lookup(facts, name) == Some(v) {
        var sub := ParseSubscript(name).value;
        SubscriptParses(name, sub.base, sub.key);
        assert Entry(facts, name, sub.base, sub.key, v);
      }
    }
  }

  // ---------------------------------------------------------------- reading a value at a sort

  datatype Sort = IntSort | BoolSort | RealSort | StringSort
  datatype Accessor = AsInt | AsBool | AsReal | AsString | AsDatetime
  datatype Literal = IntL(i: int) | BoolL(b: bool) | RealL(r: real) | StrL(s: string)

  function SortOf(a: Accessor): Sort {
    match a
    case AsInt => IntSort
    case AsBool => BoolSort
    case AsReal => RealSort
    case AsString => StringSort
    case AsDatetime => RealSort
  }

  type IsoParser = string -> Option<Instant>

  /** None where the accessor raises TypeError, or ValueError on a malformed timestamp. */
  function Read(a: Accessor, v: Value, iso: IsoParser): Option<Literal> {
    match (a, v)
    case (AsInt, Whole(i)) => Some(IntL(i))
    case (AsBool, Flag(b)) => Some(BoolL(b))
    case (AsReal, Whole(i)) => Some(RealL(i as real))
    case (AsReal, Amount(n)) => Some(RealL(n))
    case (AsString, Text(s)) => Some(StrL(s))
    case (AsDatetime, Time(at)) => Some(RealL(Timestamp(at)))
    case (AsDatetime, Text(s)) => (match iso(s) case Some(t) => Some(RealL(Timestamp(t))) case None => None)
    case _ => None
  }
}
