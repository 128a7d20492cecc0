/** The safety kernel: formulas over named constants, the fact context, and the verdict loop. */
module SafetyKernel {
  import opened Text
  import opened FactBase

  // ---------------------------------------------------------------- formulas

  /** Solver constants are told apart by name and sort. */
  datatype Arith =
    | IntConst(name: string)
    | RealConst(name: string)
    | Num(value: real)
    | Plus(left: Arith, right: Arith)
    | Minus(left: Arith, right: Arith)
    | Times(left: Arith, right: Arith)

  datatype Str = StrConst(name: string) | StrVal(value: string)

  datatype Formula =
    | Truth(value: bool)
    | BoolConst(name: string)
    | Le(a: Arith, b: Arith)
    | SameNumber(a: Arith, b: Arith)
    | SameString(s: Str, t: Str)
    | Equals(name: string, literal: Literal)
    | Not(f: Formula)
    | And(f: Formula, g: Formula)
    | Or(f: Formula, g: Formula)

  type Constant = (string, Sort)

  ghost function ArithConstants(a: Arith): set<Constant> {
    match a
    case IntConst(n) => {(n, IntSort)}
    case RealConst(n) => {(n, RealSort)}
    case Num(_) => {}
    case Plus(x, y) => ArithConstants(x) + ArithConstants(y)
    case Minus(x, y) => ArithConstants(x) + ArithConstants(y)
    case Times(x, y) => ArithConstants(x) + ArithConstants(y)
  }

  ghost function StrConstants(s: Str): set<Constant> {
    match s case StrConst(n) => {(n, StringSort)} case StrVal(_) => {}
  }

  ghost function Constants(f: Formula): set<Constant> {
    match f
    case Truth(_) => {}
    case BoolConst(n) => {(n, BoolSort)}
    case Le(a, b) => ArithConstants(a) + ArithConstants(b)
    case SameNumber(a, b) => ArithConstants(a) + ArithConstants(b)
    case SameString(s, t) => StrConstants(s) + StrConstants(t)
    case Equals(n, literal) => {(n, LiteralSort(literal))}
    case Not(g) => Constants(g)
    case And(g, h) => Constants(g) + Constants(h)
    case Or(g, h) => Constants(g) + Constants(h)
  }

  datatype Model = Model(
    ints: string -> int, bools: string -> bool, reals: string -> real, strs: string -> string)

  ghost function ArithValue(a: Arith, m: Model): real {
    match a
    case IntConst(n) => m.ints(n) as real
    case RealConst(n) => m.reals(n)
    case Num(v) => v
    case Plus(x, y) => ArithValue(x, m) + ArithValue(y, m)
    case Minus(x, y) => ArithValue(x, m) - ArithValue(y, m)
    case Times(x, y) => ArithValue(x, m) * ArithValue(y, m)
  }

  ghost function StrValue(s: Str, m: Model): string {
    match s case StrConst(n) => m.strs(n) case StrVal(v) => v
  }

  /** `const == value` for the constant of this name at the literal's sort. */
  ghost predicate HasValue(m: Model, name: string, literal: Literal) {
    match literal
    case IntL(i) => m.ints(name) == i
    case BoolL(b) => m.bools(name) == b
    case RealL(r) => m.reals(name) == r
    case StrL(s) => m.strs(name) == s
  }

  ghost predicate Holds(f: Formula, m: Model) {
    match f
    case Truth(v) => v
    case BoolConst(n) => m.bools(n)
    case Le(a, b) => ArithValue(a, m) <= ArithValue(b, m)
    case SameNumber(a, b) => ArithValue(a, m) == ArithValue(b, m)
    case SameString(s, t) => StrValue(s, m) == StrValue(t, m)
    case Equals(n, literal) => HasValue(m, n, literal)
    case Not(g) => !Holds(g, m)
    case And(g, h) => Holds(g, m) && Holds(h, m)
    case Or(g, h) => Holds(g, m) || Holds(h, m)
  }

  ghost predicate AgreeOn(c: Constant, m: Model, m': Model) {
    match c.1
    case IntSort => m.ints(c.0) == m'.ints(c.0)
    case BoolSort => m.bools(c.0) == m'.bools(c.0)
    case RealSort => m.reals(c.0) == m'.reals(c.0)
    case StringSort => m.strs(c.0) == m'.strs(c.0)
  }

  lemma {:induction false} ArithCoincides(a: Arith, m: Model, m': Model)
    requires forall c :: c in ArithConstants(a) ==> AgreeOn(c, m, m')
    ensures ArithValue(a, m) == ArithValue(a, m')
  {
    match a
    case IntConst(n) => assert (n, IntSort) in ArithConstants(a);
    case RealConst(n) => assert (n, RealSort) in ArithConstants(a);
    case Num(_) =>
    case Plus(x, y) => ArithCoincides(x, m, m'); ArithCoincides(y, m, m');
    case Minus(x, y) => ArithCoincides(x, m, m'); ArithCoincides(y, m, m');
    case Times(x, y) => ArithCoincides(x, m, m'); ArithCoincides(y, m, m');
  }

  lemma StrCoincides(s: Str, m: Model, m': Model)
    requires forall c :: c in StrConstants(s) ==> AgreeOn(c, m, m')
    ensures StrValue(s, m) == StrValue(s, m')
  {
    match s
    case StrConst(n) => assert (n, StringSort) in StrConstants(s);
    case StrVal(_) =>
  }

  /** A formula's truth depends on its own constants only. */
  lemma {:induction false} Coincidence(f: Formula, m: Model, m': Model)
    requires forall c :: c in Constants(f) ==> AgreeOn(c, m, m')
    ensures Holds(f, m) == Holds(f, m')
  {
    match f
    case Truth(_) =>
    case BoolConst(n) => assert (n, BoolSort) in Constants(f);
    case Le(a, b) => ArithCoincides(a, m, m'); ArithCoincides(b, m, m');
    case SameNumber(a, b) => ArithCoincides(a, m, m'); ArithCoincides(b, m, m');
    case SameString(s, t) => StrCoincides(s, m, m'); StrCoincides(t, m, m');
    case Equals(n, literal) => assert (n, LiteralSort(literal)) in Constants(f);
    case Not(g) => Coincidence(g, m, m');
    case And(g, h) => Coincidence(g, m, m'); Coincidence(h, m, m');
    case Or(g, h) => Coincidence(g, m, m'); Coincidence(h, m, m');
  }

  // ---------------------------------------------------------------- the solver

  ghost predicate IsModel(m: Model, fs: seq<Formula>) {
    forall f :: f in fs ==> Holds(f, m)
  }

  ghost predicate Satisfiable(fs: seq<Formula>) {
    exists m: Model :: IsModel(m, fs)
  }

  datatype Answer = Unsat | Sat | Unknown

  /** What the solver answers to its n-th query; it may give up but never answers wrongly. */
  type Oracle = (nat, seq<Formula>) -> Answer

  ghost predicate Sound(oracle: Oracle) {
    forall n: nat, fs :: SoundAt(oracle(n, fs), fs)
  }

  ghost predicate SoundAt(answer: Answer, fs: seq<Formula>) {
    && (answer == Unsat ==> !Satisfiable(fs))
    && (answer == Sat ==> Satisfiable(fs))
  }

  /** A solver that decides everything would be sound. */
  lemma SomeOracleDecides()
    ensures exists oracle: Oracle :: Sound(oracle) && forall n: nat, fs :: oracle(n, fs) != Unknown
  {
    var oracle: Oracle := (n: nat, fs: seq<Formula>) => Decision(fs);
    assert Sound(oracle);
    assert forall n: nat, fs :: oracle(n, fs) != Unknown;
  }

  ghost function Decision(fs: seq<Formula>): Answer { if Satisfiable(fs) then Sat else Unsat }

  function Flat(frames: seq<seq<Formula>>): seq<Formula> {
    if frames == [] then [] else frames[0] + Flat(frames[1..])
  }

  lemma FlatOfEmpty()
    ensures Flat([[]]) == []
  {
    assert Flat([[]]) == [] + Flat([[]][1..]);
  }

  lemma {:induction false} FlatSplits(frames: seq<seq<Formula>>, last: seq<Formula>)
    ensures Flat(frames + [last]) == Flat(frames) + last
  {
    if frames == [] {
      assert Flat([last]) == last + Flat([last][1..]);
    } else {
      assert (frames + [last])[1..] == frames[1..] + [last];
      FlatSplits(frames[1..], last);
    }
  }

  /** A stack of frames; a query is about everything in all of them. */
  class Solver {
    const oracle: Oracle
    var frames: seq<seq<Formula>>

    constructor (oracle: Oracle)
      ensures this.oracle == oracle && frames == [[]]
    {
      this.oracle := oracle;
      frames := [[]];
    }

    method Push()
      modifies this
      ensures frames == old(frames) + [[]]
    {
      frames := frames + [[]];
    }

    method Add(f: Formula)
      requires frames != []
      modifies this
      ensures frames == old(frames[..|frames| - 1] + [frames[|frames| - 1] + [f]])
    {
      var last := |frames| - 1;
      frames := frames[last := frames[last] + [f]];
    }

    method Pop()
      requires frames != []
      modifies this
      ensures frames == old(frames[..|frames| - 1])
    {
      frames := frames[..|frames| - 1];
    }

    method Check(n: nat) returns (answer: Answer)
      ensures answer == oracle(n, Flat(frames))
    {
      answer := oracle(n, Flat(frames));
    }

    /** Open a frame, put the assertions and one more formula into it, and ask. */
    method Ask(n: nat, assertions: seq<Formula>, goal: Formula) returns (answer: Answer)
      requires frames != []
      modifies this
      ensures frames == old(frames) + [assertions + [goal]]
      ensures answer == oracle(n, Flat(old(frames)) + assertions + [goal])
    {
      ghost var below := frames;
      Push();
      for i := 0 to |assertions|
        invariant frames == below + [assertions[..i]]
      {
        Add(assertions[i]);
        assert assertions[..i] + [assertions[i]] == assertions[..i + 1];
      }
      assert assertions[..|assertions|] == assertions;
      Add(goal);
      FlatSplits(below, assertions + [goal]);
      answer := Check(n);
      assert Flat(below) + (assertions + [goal]) == Flat(below) + assertions + [goal];
    }
  }

  // ---------------------------------------------------------------- invariants

  datatype Access = Const(accessor: Accessor, name: string) | Raw(name: string) | Require(names: seq<string>)

  /** `caught`: the invariant catches the MissingFact this access may raise. */
  datatype Step = Step(access: Access, caught: bool)

  datatype End = Return(f: Formula) | RaiseMissing(names: seq<string>) | RaiseOther

  /** What a `build` does on given facts: the accesses it makes in turn, then how it ends. */
  datatype Script = Script(steps: seq<Step>, end: End)

  /** What a veto's explanation reads, and whether it then fails in some other way. */
  datatype Rendering = Rendering(names: seq<string>, fails: bool)

  type Registered = map<string, Sort>

  /** What the invariant's code does on given facts, with the constants registered so far. */
  datatype Invariant = Invariant(
    id: string,
    build: (map<string, Value>, Registered) -> Script,
    explain: (map<string, Value>, Registered) -> Rendering)

  /** How a build ends. */
  datatype Built = Formula(f: Formula) | Missing(names: seq<string>) | Crash

  datatype Env = Env(facts: map<string, Value>, iso: IsoParser)

  function Absent(env: Env, names: seq<string>): seq<string> {
    if names == [] then [] else
      (if Lookup(env.facts, names[0]).None? then [names[0]] else []) + Absent(env, names[1..])
  }

  /** No fact stands for the name. */
  ghost predicate Unsaid(env: Env, name: string) { forall v :: !Says(env.facts, name, v) }

  lemma UnsaidMeansLacking(env: Env, name: string)
    ensures Lookup(env.facts, name).None? <==> Unsaid(env, name)
  {
    forall v { LookupIsWhatFactsSay(env.facts, name, v); }
    match Lookup(env.facts, name)
    case Some(v) => assert Says(env.facts, name, v);
    case None =>
  }

  /** Exactly the names no fact stands for, in their order. */
  lemma {:induction false} AbsentAreTheUnsaid(env: Env, names: seq<string>)
    ensures forall n :: n in Absent(env, names) <==> n in names && Unsaid(env, n)
    ensures |Absent(env, names)| <= |names|
  {
    if names != [] {
      AbsentAreTheUnsaid(env, names[1..]);
      UnsaidMeansLacking(env, names[0]);
      assert names == [names[0]] + names[1..];
    }
  }

  datatype Signal = Fine | Lacks(names: seq<string>) | Broken

  function Attempt(env: Env, a: Access): Signal {
    match a
    case Const(accessor, name) =>
      (match Lookup(env.facts, name)
       case None => Lacks([name])
       case Some(v) => if Read(accessor, v, env.iso).Some? then Fine else Broken)
    case Raw(name) => if Lookup(env.facts, name).None? then Lacks([name]) else Fine
    case Require(names) => if Absent(env, names) == [] then Fine else Lacks(Absent(env, names))
  }

  /** Does this step let the build go on? */
  predicate GoesOn(env: Env, step: Step) {
    var s := Attempt(env, step.access);
    s.Fine? || (s.Lacks? && step.caught)
  }

  /** The direct reading of a build, with no constants and no solver. */
  function Outcome(env: Env, steps: seq<Step>, end: End): Built {
    if steps == [] then
      match end
      case Return(f) => Formula(f)
      case RaiseMissing(names) => Missing(names)
      case RaiseOther => Crash
    else if GoesOn(env, steps[0]) then Outcome(env, steps[1..], end)
    else match Attempt(env, steps[0].access)
      case Lacks(names) => Missing(names)
      case _ => Crash
  }

  /** Every fact name the build asked for in vain, caught or not. */
  ghost function Asked(env: Env, steps: seq<Step>): set<string> {
    if steps == [] then {} else
      var here := match Attempt(env, steps[0].access) case Lacks(names) => ToSet(names) case _ => {};
      here + if GoesOn(env, steps[0]) then Asked(env, steps[1..]) else {}
  }

  /** Does the explanation of a veto get to its end? */
  predicate Renders(env: Env, r: Rendering) {
    !r.fails && forall i :: 0 <= i < |r.names| ==> Lookup(env.facts, r.names[i]).Some?
  }

  /** A step that is met, or whose miss is caught, lets the build go on; any other ends it. */
  lemma WhatAStepDoes(env: Env, steps: seq<Step>, end: End)
    requires steps != []
    ensures var attempt, rest := Attempt(env, steps[0].access), Outcome(env, steps[1..], end);
            match attempt
            case Fine => Outcome(env, steps, end) == rest && Asked(env, steps) == Asked(env, steps[1..])
            case Broken => Outcome(env, steps, end) == Crash && Asked(env, steps) == {}
            case Lacks(names) =>
              if steps[0].caught
              then Outcome(env, steps, end) == rest && Asked(env, steps) == ToSet(names) + Asked(env, steps[1..])
              else Outcome(env, steps, end) == Missing(names) && Asked(env, steps) == ToSet(names)
  {}

  /** A plain reading lacks its name exactly when no fact stands for it, a demand the names none stands for. */
  lemma WhatOtherAccessesLack(env: Env, name: string, names: seq<string>)
    ensures Attempt(env, Raw(name)) == if Unsaid(env, name) then Lacks([name]) else Fine
    ensures var attempt := Attempt(env, Access.Require(names));
            if exists n :: n in names && Unsaid(env, n) then
              attempt.Lacks? && forall n :: n in attempt.names <==> n in names && Unsaid(env, n)
            else attempt == Fine
  {
    UnsaidMeansLacking(env, name);
    AbsentAreTheUnsaid(env, names);
    if Absent(env, names) != [] { assert Absent(env, names)[0] in Absent(env, names); }
  }

  // ---------------------------------------------------------------- direct evaluation

  /** The model in which every constant has its fact's value. */
  ghost function FactModel(env: Env): Model {
    Model(name => IntOf(env, name), name => BoolOf(env, name), name => RealOf(env, name), name => StrOf(env, name))
  }

  ghost function IntOf(env: Env, name: string): int {
    match ReadFact(env, AsInt, name) case Some(IntL(i)) => i case _ => 0
  }

  ghost function BoolOf(env: Env, name: string): bool {
    match ReadFact(env, AsBool, name) case Some(BoolL(b)) => b case _ => false
  }

  ghost function RealOf(env: Env, name: string): real {
    match ReadFact(env, AsReal, name)
    case Some(RealL(r)) => r
    case _ => match ReadFact(env, AsDatetime, name) case Some(RealL(t)) => t case _ => 0.0
  }

  ghost function StrOf(env: Env, name: string): string {
    match ReadFact(env, AsString, name) case Some(StrL(s)) => s case _ => ""
  }

  function ReadFact(env: Env, a: Accessor, name: string): Option<Literal> {
    match Lookup(env.facts, name)
    case None => None
    case Some(v) => Read(a, v, env.iso)
  }

  ghost predicate HasItsValue(env: Env, m: Model, name: string, v: Value) {
    match v
    case Whole(i) => m.ints(name) == i && m.reals(name) == i as real
    case Flag(b) => m.bools(name) == b
    case Amount(n) => m.reals(name) == n
    case Text(s) => m.strs(name) == s && (env.iso(s).Some? ==> m.reals(name) == Seconds(env.iso(s).value))
    case Time(at) => m.reals(name) == Seconds(at)
    case _ => true
  }

  function Seconds(microseconds: int): real { microseconds as real / 1000000.0 }

  lemma FoundHasItsValue(env: Env, name: string, v: Value)
    requires Lookup(env.facts, name) == Some(v)
    ensures HasItsValue(env, FactModel(env), name, v)
  {
    if v.Time? || v.Text? { assert ReadFact(env, AsReal, name) == None; }
  }

  /** Every constant has the value the facts give its name, numbers widened and timestamps in seconds. */
  lemma FactModelHasTheFacts(env: Env, name: string, v: Value)
    requires Says(env.facts, name, v)
    ensures HasItsValue(env, FactModel(env), name, v)
  {
    LookupIsWhatFactsSay(env.facts, name, v);
    FoundHasItsValue(env, name, v);
  }

  /** The values an accessor takes; anything else is a TypeError, or a ValueError for a malformed timestamp. */
  ghost predicate Takes(env: Env, a: Accessor, v: Value) {
    match a
    case AsInt => v.Whole?
    case AsBool => v.Flag?
    case AsReal => v.Whole? || v.Amount?
    case AsString => v.Text?
    case AsDatetime => v.Time? || (v.Text? && env.iso(v.s).Some?)
  }

  /** A constant is handed out exactly for a value its accessor takes, and is lacking exactly when no fact says one. */
  lemma WhatAnAccessorAnswers(env: Env, a: Accessor, name: string)
    ensures Attempt(env, Const(a, name)).Fine? <==> exists v :: Says(env.facts, name, v) && Takes(env, a, v)
    ensures Attempt(env, Const(a, name)) == Lacks([name]) <==> Unsaid(env, name)
  {
    UnsaidMeansLacking(env, name);
    match Lookup(env.facts, name)
    case Some(v) =>
      LookupIsWhatFactsSay(env.facts, name, v);
      ReadsWhatItTakes(env, a, v);
      forall w | Says(env.facts, name, w) ensures w == v { LookupIsWhatFactsSay(env.facts, name, w); }
    case None =>
  }

  lemma ReadsWhatItTakes(env: Env, a: Accessor, v: Value)
    ensures Read(a, v, env.iso).Some? <==> Takes(env, a, v)
  {}

  ghost predicate HoldsUnderFacts(env: Env, f: Formula) { Holds(f, FactModel(env)) }

  // ---------------------------------------------------------------- the context

  datatype Ctx = Ctx(constants: Registered, assertions: seq<Formula>, missing: seq<string>)

  const EMPTY := Ctx(map[], [], [])

  function Note(missing: seq<string>, names: seq<string>): seq<string>
    decreases names
  {
    if names == [] then missing else
      Note(if names[0] in missing then missing else missing + [names[0]], names[1..])
  }

  /** The context after one access: constants are registered and asserted on first use only. */
  function After(env: Env, c: Ctx, a: Access): Ctx {
    match a
    case Const(accessor, name) =>
      (match ReadFact(env, accessor, name)
       case Some(lit) =>
         if name in c.constants then c
         else c.(constants := c.constants[name := SortOf(accessor)], assertions := c.assertions + [Equals(name, lit)])
       case None =>
         if Lookup(env.facts, name).None? then c.(missing := c.missing + [name]) else c)
    case Raw(name) => if Lookup(env.facts, name).None? then c.(missing := c.missing + [name]) else c
    case Require(names) => c.(missing := Note(c.missing, Absent(env, names)))
  }

  function AfterSteps(env: Env, c: Ctx, steps: seq<Step>): Ctx
    decreases steps
  {
    if steps == [] then c else
      var d := After(env, c, steps[0].access);
      if GoesOn(env, steps[0]) then AfterSteps(env, d, steps[1..]) else d
  }

  /** The constants a build is handed: whatever its name was first registered as. */
  ghost function Handed(env: Env, c: Ctx, steps: seq<Step>): set<Constant>
    decreases steps
  {
    if steps == [] then {} else
      var d := After(env, c, steps[0].access);
      var here :=
        match steps[0].access
        case Const(_, name) =>
          if Attempt(env, steps[0].access).Fine? && name in d.constants then {(name, d.constants[name])} else {}
        case _ => {};
      here + if GoesOn(env, steps[0]) then Handed(env, d, steps[1..]) else {}
  }

  ghost predicate Coherent(env: Env, c: Ctx) {
    && IsModel(FactModel(env), c.assertions)
    && (forall n :: n in c.constants ==> Pinned(c, n))
  }

  /** Some assertion fixes the constant registered under `n`. */
  ghost predicate Pinned(c: Ctx, n: string)
    requires n in c.constants
  {
    exists literal :: Equals(n, literal) in c.assertions && LiteralSort(literal) == c.constants[n]
  }

  function LiteralSort(l: Literal): Sort {
    match l
    case IntL(_) => IntSort
    case BoolL(_) => BoolSort
    case RealL(_) => RealSort
    case StrL(_) => StringSort
  }

  /** `d` registers all that `c` does, at the same sorts. */
  ghost predicate Extends(c: Registered, d: Registered) {
    forall n :: n in c ==> n in d && d[n] == c[n]
  }

  lemma FactsSatisfyTheirAssertion(env: Env, accessor: Accessor, name: string)
    requires ReadFact(env, accessor, name).Some?
    ensures Holds(Equals(name, ReadFact(env, accessor, name).value), FactModel(env))
    ensures LiteralSort(ReadFact(env, accessor, name).value) == SortOf(accessor)
  {}

  lemma PinnedStays(c: Ctx, d: Ctx, n: string)
    requires n in c.constants && n in d.constants && c.constants[n] == d.constants[n]
    requires c.assertions <= d.assertions && Pinned(c, n)
    ensures Pinned(d, n)
  {
    var w :| Equals(n, w) in c.assertions && LiteralSort(w) == c.constants[n];
    assert Equals(n, w) in d.assertions;
  }

  lemma AccessKeepsCoherence(env: Env, c: Ctx, a: Access)
    requires Coherent(env, c)
    ensures Coherent(env, After(env, c, a)) && Extends(c.constants, After(env, c, a).constants)
    ensures a.Const? && Attempt(env, a).Fine? ==> a.name in After(env, c, a).constants
  {
    var d := After(env, c, a);
    if a.Const? && ReadFact(env, a.accessor, a.name).Some? && a.name !in c.constants {
      FactsSatisfyTheirAssertion(env, a.accessor, a.name);
      assert Equals(a.name, ReadFact(env, a.accessor, a.name).value) in d.assertions;
    }
    forall n | n in d.constants ensures Pinned(d, n) {
      if n in c.constants { PinnedStays(c, d, n); }
    }
  }

  lemma {:induction false} StepsKeepCoherence(env: Env, c: Ctx, steps: seq<Step>)
    requires Coherent(env, c)
    ensures Coherent(env, AfterSteps(env, c, steps))
    ensures Extends(c.constants, AfterSteps(env, c, steps).constants)
    ensures forall k :: k in Handed(env, c, steps) ==> IsRegistered(AfterSteps(env, c, steps), k)
    decreases steps
  {
    if steps != [] {
      AccessKeepsCoherence(env, c, steps[0].access);
      if GoesOn(env, steps[0]) {
        StepsKeepCoherence(env, After(env, c, steps[0].access), steps[1..]);
      }
    }
  }

  ghost predicate IsRegistered(c: Ctx, k: Constant) {
    k.0 in c.constants && c.constants[k.0] == k.1
  }

  lemma {:induction false} NoteAdds(missing: seq<string>, names: seq<string>)
    ensures ToSet(Note(missing, names)) == ToSet(missing) + ToSet(names)
    decreases names
  {
    if names != [] {
      var next := if names[0] in missing then missing else missing + [names[0]];
      NoteAdds(next, names[1..]);
      assert names == [names[0]] + names[1..];
    }
  }

  lemma {:induction false} StepsRecordMissing(env: Env, c: Ctx, steps: seq<Step>)
    ensures ToSet(AfterSteps(env, c, steps).missing) == ToSet(c.missing) + Asked(env, steps)
    decreases steps
  {
    if steps != [] {
      var d := After(env, c, steps[0].access);
      match steps[0].access {
        case Require(names) => NoteAdds(c.missing, Absent(env, names));
        case _ =>
      }
      if GoesOn(env, steps[0]) {
        StepsRecordMissing(env, d, steps[1..]);
      }
    }
  }

  /** Every model of the assertions gives a registered constant its fact's value. */
  lemma ModelsAgree(env: Env, c: Ctx, m: Model, k: Constant)
    requires Coherent(env, c) && IsRegistered(c, k) && IsModel(m, c.assertions)
    ensures AgreeOn(k, m, FactModel(env))
  {
    assert Pinned(c, k.0);
    var w :| Equals(k.0, w) in c.assertions && LiteralSort(w) == k.1;
    assert Holds(Equals(k.0, w), m) && Holds(Equals(k.0, w), FactModel(env));
  }

  lemma TrueInEveryModel(env: Env, c: Ctx, f: Formula, m: Model)
    requires Coherent(env, c) && HoldsUnderFacts(env, f) && IsModel(m, c.assertions)
    requires forall k :: k in Constants(f) ==> IsRegistered(c, k)
    ensures Holds(f, m)
  {
    forall k | k in Constants(f) ensures AgreeOn(k, m, FactModel(env)) { ModelsAgree(env, c, m, k); }
    Coincidence(f, m, FactModel(env));
  }

  lemma ModelsWithoutGoal(m: Model, fs: seq<Formula>, goal: Formula)
    ensures IsModel(m, fs + [goal]) <==> IsModel(m, fs) && Holds(goal, m)
  {
    assert forall f :: f in fs + [goal] <==> f in fs || f == goal;
  }

  /** The heart of the kernel: refuting the negation under the assertions is evaluation under the facts. */
  lemma QueryDecidesFormula(env: Env, c: Ctx, f: Formula)
    requires Coherent(env, c)
    requires forall k :: k in Constants(f) ==> IsRegistered(c, k)
    ensures Satisfiable(c.assertions + [Not(f)]) <==> !HoldsUnderFacts(env, f)
  {
    ModelsWithoutGoal(FactModel(env), c.assertions, Not(f));
    if HoldsUnderFacts(env, f) {
      forall m: Model ensures !IsModel(m, c.assertions + [Not(f)]) {
        ModelsWithoutGoal(m, c.assertions, Not(f));
        if IsModel(m, c.assertions) { TrueInEveryModel(env, c, f, m); }
      }
    }
  }

  class KernelContext {
    const env: Env
    var constants: Registered
    var assertions: seq<Formula>
    var missingAccessed: seq<string>

    constructor (facts: seq<Fact>, iso: IsoParser)
      ensures env == Env(Index(facts), iso) && View() == EMPTY
    {
      env := Env(Index(facts), iso);
      constants, assertions, missingAccessed := map[], [], [];
    }

    ghost function View(): Ctx
      reads this
    {
      Ctx(constants, assertions, missingAccessed)
    }

    /** `get_fact`: a miss is recorded before it is raised. */
    method GetFact(name: string) returns (v: Option<Value>)
      modifies this`missingAccessed
      ensures v == Lookup(env.facts, name)
      ensures missingAccessed == old(missingAccessed) + if v.None? then [name] else []
    {
      v := Lookup(env.facts, name);
      if v.None? { missingAccessed := missingAccessed + [name]; }
    }

    /** `int`, `bool`, `real`, `string` and `datetime`. */
    method Constant(accessor: Accessor, name: string) returns (s: Signal)
      modifies this
      ensures View() == After(env, old(View()), Const(accessor, name))
      ensures s == Attempt(env, Const(accessor, name))
    {
      var v := GetFact(name);
      if v.None? { return Lacks([name]); }
      var literal := Read(accessor, v.value, env.iso);
      if literal.None? { return Broken; }
      if name !in constants {
        constants := constants[name := SortOf(accessor)];
        assertions := assertions + [Equals(name, literal.value)];
      }
      s := Fine;
    }

    method RequireFacts(names: seq<string>) returns (s: Signal)
      modifies this`missingAccessed
      ensures View() == After(env, old(View()), Access.Require(names))
      ensures s == Attempt(env, Access.Require(names))
    {
      var missing := Absent(env, names);
      if missing == [] { return Fine; }
      ghost var start := missingAccessed;
      assert missing[0..] == missing;
      for i := 0 to |missing|
        invariant Note(missingAccessed, missing[i..]) == Note(start, missing)
      {
        assert missing[i..][0] == missing[i] && missing[i..][1..] == missing[i + 1..];
        if missing[i] !in missingAccessed { missingAccessed := missingAccessed + [missing[i]]; }
      }
      s := Lacks(missing);
    }

    method Perform(a: Access) returns (s: Signal)
      modifies this
      ensures View() == After(env, old(View()), a) && s == Attempt(env, a)
    {
      match a
      case Const(accessor, name) => s := Constant(accessor, name);
      case Raw(name) =>
        var v := GetFact(name);
        s := if v.None? then Lacks([name]) else Fine;
      case Require(names) => s := RequireFacts(names);
    }

    /** Run an invariant's `build`. */
    method Build(script: Script) returns (b: Built)
      modifies this
      ensures View() == AfterSteps(env, old(View()), script.steps)
      ensures b == Outcome(env, script.steps, script.end)
    {
      ghost var start := View();
      assert script.steps[0..] == script.steps;
      var i := 0;
      while i < |script.steps|
        invariant 0 <= i <= |script.steps|
        invariant AfterSteps(env, View(), script.steps[i..]) == AfterSteps(env, start, script.steps)
        invariant Outcome(env, script.steps[i..], script.end) == Outcome(env, script.steps, script.end)
      {
        var step := script.steps[i];
        assert script.steps[i..][0] == step && script.steps[i..][1..] == script.steps[i + 1..];
        var s := Perform(step.access);
        if s.Broken? { return Crash; }
        if s.Lacks? && !step.caught { return Missing(s.names); }
        i := i + 1;
      }
      b := match script.end
        case Return(f) => Formula(f)
        case RaiseMissing(names) => Missing(names)
        case RaiseOther => Crash;
    }

    /** Read what the explanation of a veto reads; nothing is changed unless it raises. */
    method Explain(r: Rendering) returns (ok: bool)
      modifies this`missingAccessed
      ensures ok == Renders(env, r)
      ensures ok ==> missingAccessed == old(missingAccessed)
    {
      for i := 0 to |r.names|
        invariant missingAccessed == old(missingAccessed)
        invariant forall j :: 0 <= j < i ==> Lookup(env.facts, r.names[j]).Some?
      {
        var v := GetFact(r.names[i]);
        if v.None? { return false; }
      }
      ok := !r.fails;
    }
  }

  // ---------------------------------------------------------------- the verdict loop

  datatype InvariantResult = InvariantResult(id: string, satisfied: Option<bool>)
  datatype Verdict = Pass | Veto | Uncertain
  datatype Ruling = Ruled(verdict: Verdict, results: seq<InvariantResult>, missing: seq<string>) | Raised

  datatype Examined = Blew | Undetermined | Settled(satisfied: Option<bool>)

  /** One call of `verify`: the facts, the invariants, the clock checks and the solver's answers. */
  datatype Session = Session(
    facts: seq<Fact>, iso: IsoParser, invariants: seq<Invariant>, late: nat -> bool, oracle: Oracle)
  {
    function World(): Env { Env(Index(facts), iso) }

    ghost function ScriptAt(i: nat): Script
      requires i < |invariants|
      decreases i, 1
    {
      invariants[i].build(World().facts, CtxAt(i).constants)
    }

    /** The context after the first `i` builds. */
    ghost function CtxAt(i: nat): Ctx
      requires i <= |invariants|
      decreases i, 0
    {
      if i == 0 then EMPTY else AfterSteps(World(), CtxAt(i - 1), ScriptAt(i - 1).steps)
    }

    ghost function Direct(i: nat): Built
      requires i < |invariants|
    {
      Outcome(World(), ScriptAt(i).steps, ScriptAt(i).end)
    }

    ghost function Answered(i: nat, f: Formula): Answer
      requires i < |invariants|
    {
      oracle(i, CtxAt(i + 1).assertions + [Not(f)])
    }

    /** The explanation invariant `i` would give of a veto gets to its end. */
    ghost predicate Explained(i: nat)
      requires i < |invariants|
    {
      Renders(World(), invariants[i].explain(World().facts, CtxAt(i + 1).constants))
    }

    /** The missing facts invariant `i` asked for or raised. */
    ghost function Wanting(i: nat): set<string>
      requires i < |invariants|
    {
      Asked(World(), ScriptAt(i).steps) + match Direct(i) case Missing(names) => ToSet(names) case _ => {}
    }

    ghost function WantingUpTo(i: nat): set<string>
      requires i <= |invariants|
    {
      set j, x | 0 <= j < i && x in Wanting(j) :: x
    }

    /** In time, nothing missing, the solver decided, and the formula is true of the facts. */
    ghost predicate Passes(i: nat)
      requires i < |invariants|
    {
      && !late(i) && Wanting(i) == {}
      && match Direct(i)
         case Formula(f) => HoldsUnderFacts(World(), f) && Answered(i, f) != Unknown
         case Missing(names) => true
         case Crash => false
    }

    /** The solver decided that the formula is false of the facts. */
    ghost predicate Falsified(i: nat)
      requires i < |invariants|
    {
      Direct(i).Formula? && !HoldsUnderFacts(World(), Direct(i).f) && Answered(i, Direct(i).f) != Unknown
    }

    /** As `Passes`, but the formula is false of the facts, and that can be explained. */
    ghost predicate Refuted(i: nat)
      requires i < |invariants|
    {
      !late(i) && Wanting(i) == {} && Falsified(i) && Explained(i)
    }

    ghost predicate VetoedAt(k: nat) {
      k < |invariants| && (forall i :: 0 <= i < k ==> Passes(i)) && Refuted(k)
    }

    ghost predicate AllPass() { forall i :: 0 <= i < |invariants| ==> Passes(i) }

    /** The loop goes on after invariant `i`. */
    ghost predicate GotPast(i: nat)
      requires i < |invariants|
    {
      && !late(i)
      && match Direct(i)
         case Formula(f) =>
           && Answered(i, f) != Unknown
           && (HoldsUnderFacts(World(), f) || (Explained(i) && WantingUpTo(i + 1) != {}))
         case Missing(_) => true
         case Crash => false
    }

    /** The build raises, or the explanation of its veto does. */
    ghost predicate Blows(i: nat)
      requires i < |invariants|
    {
      Direct(i) == Crash || (Falsified(i) && !Explained(i))
    }

    ghost function Ending(i: nat): Examined
      requires i < |invariants|
    {
      if Blows(i) then Blew
      else if Direct(i).Formula? && Answered(i, Direct(i).f) == Unknown then Undetermined
      else Settled(Decided(i))
    }

    ghost predicate RaisesAt(k: nat) {
      k < |invariants| && (forall i :: 0 <= i < k ==> GotPast(i)) && !late(k) && Blows(k)
    }

    ghost predicate Raises() { exists k: nat :: RaisesAt(k) }

    /** Formulas use only constants handed out by the context. */
    ghost predicate Disciplined() {
      forall i :: 0 <= i < |invariants| ==> DisciplinedAt(i)
    }

    ghost predicate DisciplinedAt(i: nat)
      requires i < |invariants|
    {
      Direct(i).Formula? ==> Constants(Direct(i).f) <= Handed(World(), CtxAt(i), ScriptAt(i).steps)
    }

    /** The truth of the formula under the facts, or None where it was not decided. */
    ghost function Decided(i: nat): Option<bool>
      requires i < |invariants|
    {
      match Direct(i)
      case Formula(f) => if Answered(i, f) == Unknown then None else Some(HoldsUnderFacts(World(), f))
      case _ => None
    }

    /** What the loop records for an invariant it has got past. */
    ghost predicate Recorded(r: InvariantResult, i: nat)
      requires i < |invariants|
    {
      GotPast(i) && r.id == invariants[i].id && r.satisfied == Decided(i)
    }

    ghost predicate RecordedUpTo(results: seq<InvariantResult>, i: nat) {
      && i <= |invariants| && |results| >= i
      && forall j :: 0 <= j < i ==> Recorded(results[j], j)
    }

    lemma WantingNext(i: nat)
      requires i < |invariants|
      ensures WantingUpTo(i + 1) == WantingUpTo(i) + Wanting(i)
    {
      forall x | x in WantingUpTo(i + 1) ensures x in WantingUpTo(i) + Wanting(i) {
        var j :| 0 <= j < i + 1 && x in Wanting(j);
      }
    }

    lemma NothingWanting(i: nat, j: nat)
      requires j < i <= |invariants| && WantingUpTo(i) == {}
      ensures Wanting(j) == {}
    {
      forall x | x in Wanting(j) ensures x in WantingUpTo(i) {}
    }

    lemma WantingGrows(i: nat, j: nat)
      requires i <= j <= |invariants|
      ensures WantingUpTo(i) <= WantingUpTo(j)
    {
      forall x | x in WantingUpTo(i) ensures x in WantingUpTo(j) {
        var k :| 0 <= k < i && x in Wanting(k);
      }
    }

    lemma PassingWantsNothing(k: nat)
      requires k <= |invariants| && forall i :: 0 <= i < k ==> Passes(i)
      ensures WantingUpTo(k) == {}
    {
      forall i | 0 <= i < k ensures Wanting(i) == {} { assert Passes(i); }
    }

    lemma RecordedIsNotRefuted(r: InvariantResult, k: nat)
      requires k < |invariants| && Recorded(r, k) && WantingUpTo(k) == {}
      ensures !Refuted(k)
    {
      WantingNext(k);
    }

    lemma RecordedIsNoVeto(results: seq<InvariantResult>, i: nat, k: nat)
      requires RecordedUpTo(results, i) && k < i
      ensures !VetoedAt(k)
    {
      assert Recorded(results[k], k);
      if forall j :: 0 <= j < k ==> Passes(j) {
        PassingWantsNothing(k);
        RecordedIsNotRefuted(results[k], k);
      }
    }

    lemma RecordedPasses(results: seq<InvariantResult>, i: nat, j: nat)
      requires RecordedUpTo(results, i) && j < i && WantingUpTo(i) == {}
      ensures Passes(j)
    {
      assert Recorded(results[j], j);
      NothingWanting(i, j);
      WantingGrows(j + 1, i);
    }

    lemma BuildKeepsCoherence(i: nat)
      requires i < |invariants| && Coherent(World(), CtxAt(i))
      ensures Coherent(World(), CtxAt(i + 1))
    {
      var env, c, steps := World(), CtxAt(i), ScriptAt(i).steps;
      StepsKeepCoherence(env, c, steps);
      assert CtxAt(i + 1) == AfterSteps(env, c, steps);
    }

    lemma {:induction false} CtxCoherent(i: nat)
      requires i <= |invariants|
      ensures Coherent(World(), CtxAt(i))
      decreases i
    {
      if i == 0 {
        assert CtxAt(i) == EMPTY;
      } else {
        CtxCoherent(i - 1);
        BuildKeepsCoherence(i - 1);
      }
    }

    /** No proof is vacuous: the asserted facts always have a model, the facts themselves. */
    lemma AssertionsAreSatisfiable(i: nat)
      requires i <= |invariants|
      ensures Satisfiable(CtxAt(i).assertions)
    {
      CtxCoherent(i);
      assert IsModel(FactModel(World()), CtxAt(i).assertions);
    }

    /** A decided answer is the direct evaluation. */
    lemma AnswerIsEvaluation(i: nat)
      requires Disciplined() && Sound(oracle) && i < |invariants| && Direct(i).Formula?
      ensures Answered(i, Direct(i).f) == Unsat ==> HoldsUnderFacts(World(), Direct(i).f)
      ensures Answered(i, Direct(i).f) == Sat ==> !HoldsUnderFacts(World(), Direct(i).f)
    {
      var f := Direct(i).f;
      CtxCoherent(i);
      assert DisciplinedAt(i);
      StepsKeepCoherence(World(), CtxAt(i), ScriptAt(i).steps);
      QueryDecidesFormula(World(), CtxAt(i + 1), f);
      var query := CtxAt(i + 1).assertions + [Not(f)];
      assert SoundAt(oracle(i, query), query);
    }

    // -------------------------------------------------------------- builds that read each name at one sort

    ghost predicate Agrees(sig: string -> Sort, registered: Registered) {
      forall n :: n in registered ==> registered[n] == sig(n)
    }

    ghost predicate ReadsAt(sig: string -> Sort, steps: seq<Step>) {
      forall i :: 0 <= i < |steps| && steps[i].access.Const? ==>
        SortOf(steps[i].access.accessor) == sig(steps[i].access.name)
    }

    /** Handed what it asks for, the build of `i` does the same as with nothing registered. */
    ghost predicate OneSort(sig: string -> Sort, i: nat)
      requires i < |invariants|
    {
      && ReadsAt(sig, Alone(i).steps)
      && forall reg {:trigger Agrees(sig, reg)} ::
           Agrees(sig, reg) ==> invariants[i].build(World().facts, reg) == Alone(i)
    }

    ghost function Alone(i: nat): Script
      requires i < |invariants|
    {
      invariants[i].build(World().facts, map[])
    }

    lemma {:induction false} StepsAgree(sig: string -> Sort, c: Ctx, steps: seq<Step>)
      requires Agrees(sig, c.constants) && ReadsAt(sig, steps)
      ensures Agrees(sig, AfterSteps(World(), c, steps).constants)
      decreases steps
    {
      if steps != [] && GoesOn(World(), steps[0]) {
        forall i | 0 <= i < |steps[1..]| && steps[1..][i].access.Const?
          ensures SortOf(steps[1..][i].access.accessor) == sig(steps[1..][i].access.name)
        {
          assert steps[i + 1] == steps[1..][i];
        }
        StepsAgree(sig, After(World(), c, steps[0].access), steps[1..]);
      }
    }

    lemma {:induction false} CtxAgrees(sig: string -> Sort, i: nat)
      requires i <= |invariants| && forall j :: 0 <= j < i ==> OneSort(sig, j)
      ensures Agrees(sig, CtxAt(i).constants)
      decreases i
    {
      if i > 0 {
        CtxAgrees(sig, i - 1);
        assert OneSort(sig, i - 1);
        StepsAgree(sig, CtxAt(i - 1), ScriptAt(i - 1).steps);
      }
    }

    /** With each name read at one sort an invariant means what it means on its own. */
    lemma EarlierInvariantsDoNotMatter(sig: string -> Sort, i: nat)
      requires i < |invariants| && forall j :: 0 <= j <= i ==> OneSort(sig, j)
      ensures Direct(i) == Outcome(World(), Alone(i).steps, Alone(i).end)
    {
      CtxAgrees(sig, i);
      assert OneSort(sig, i);
    }

    // -------------------------------------------------------------- verdicts

    ghost predicate Undecided() { !AllPass() && !Raises() && forall k: nat :: !VetoedAt(k) }

    /** Nothing at or after an invariant the loop does not get past can raise, unless that one does. */
    lemma NoRaise(results: seq<InvariantResult>, i: nat)
      requires RecordedUpTo(results, i)
      requires i < |invariants| ==> !GotPast(i) && (late(i) || !Blows(i))
      ensures !Raises()
    {
      forall k: nat ensures !RaisesAt(k) {
        if k < i { assert Recorded(results[k], k); }
      }
    }

    lemma PassIsExclusive()
      requires AllPass()
      ensures !Raises() && forall k: nat :: !VetoedAt(k)
    {
      forall k: nat | k < |invariants| ensures !Blows(k) && !Refuted(k) { assert Passes(k); }
    }

    lemma VetoIsExclusive(k: nat)
      requires VetoedAt(k)
      ensures !AllPass() && !Raises()
    {
      PassingWantsNothing(k);
      WantingNext(k);
      assert !GotPast(k) && !Blows(k) && !Passes(k);
      forall j: nat ensures !RaisesAt(j) {
        if j < k { assert Passes(j); }
      }
    }

    lemma StoppedUndecided(results: seq<InvariantResult>, i: nat)
      requires RecordedUpTo(results, i) && i < |invariants| && !Passes(i) && !Refuted(i)
      requires !GotPast(i) && (late(i) || !Blows(i))
      ensures Undecided()
    {
      NoRaise(results, i);
      forall k: nat ensures !VetoedAt(k) {
        if k < i { RecordedIsNoVeto(results, i, k); }
      }
    }

    lemma StoppedByVeto(results: seq<InvariantResult>, i: nat)
      requires RecordedUpTo(results, i) && i < |invariants| && WantingUpTo(i + 1) == {} && Refuted(i)
      ensures VetoedAt(i)
    {
      WantingNext(i);
      forall j | 0 <= j < i ensures Passes(j) { RecordedPasses(results, i, j); }
    }

    lemma RanToTheEnd(results: seq<InvariantResult>)
      requires RecordedUpTo(results, |invariants|)
      ensures WantingUpTo(|invariants|) == {} ==> AllPass()
      ensures WantingUpTo(|invariants|) != {} ==> Undecided()
    {
      var n := |invariants|;
      NoRaise(results, n);
      forall k: nat ensures !VetoedAt(k) {
        if k < n { RecordedIsNoVeto(results, n, k); }
      }
      if WantingUpTo(n) == {} {
        forall j | 0 <= j < n ensures Passes(j) { RecordedPasses(results, n, j); }
      } else if AllPass() {
        PassingWantsNothing(n);
      }
    }

    ghost predicate Tells(r: InvariantResult, i: nat)
      requires i < |invariants|
    {
      r.id == invariants[i].id && r.satisfied == Decided(i)
    }

    /** Every result states the truth of its formula under the facts. */
    ghost predicate Faithful(results: seq<InvariantResult>) {
      && |results| <= |invariants|
      && forall j :: 0 <= j < |results| ==> Tells(results[j], j)
    }

    lemma RecordedIsFaithful(results: seq<InvariantResult>, i: nat)
      requires RecordedUpTo(results, i) && |results| == i
      ensures Faithful(results)
    {
      forall j | 0 <= j < |results| ensures Tells(results[j], j) {
        assert Recorded(results[j], j);
      }
    }

    lemma FaithfulAppend(results: seq<InvariantResult>, r: InvariantResult)
      requires Faithful(results) && |results| < |invariants| && Tells(r, |results|)
      ensures Faithful(results + [r])
    {
      var more := results + [r];
      assert more[|results|] == r && forall j :: 0 <= j < |results| ==> more[j] == results[j];
    }

    lemma RecordedAppend(results: seq<InvariantResult>, r: InvariantResult)
      requires RecordedUpTo(results, |results|) && |results| < |invariants| && Recorded(r, |results|)
      ensures RecordedUpTo(results + [r], |results| + 1)
    {
      var more := results + [r];
      forall j | 0 <= j < |more| ensures Recorded(more[j], j) {
        if j < |results| { assert more[j] == results[j]; }
      }
    }

    ghost predicate Correct(v: Ruling) {
      match v
      case Raised => Raises()
      case Ruled(verdict, results, missing) =>
        && Faithful(results) && missing == Sorted(WantingUpTo(|results|))
        && match verdict
           case Pass => AllPass() && |results| == |invariants|
           case Veto => |results| > 0 && VetoedAt(|results| - 1)
           case Uncertain => Undecided() && StoppedAt(|results|)
    }

    /** Where the loop stops without a verdict: at the end, before a late invariant, or after an unknown answer. */
    ghost predicate StoppedAt(m: nat) {
      && m <= |invariants|
      && (|| (PastAll(m) && (m < |invariants| ==> late(m)))
          || (m > 0 && PastAll(m - 1) && !late(m - 1)
              && Direct(m - 1).Formula? && Answered(m - 1, Direct(m - 1).f) == Unknown))
    }

    ghost predicate PastAll(m: nat)
      requires m <= |invariants|
    {
      forall j :: 0 <= j < m ==> GotPast(j)
    }

    lemma RecordedIsPast(results: seq<InvariantResult>, m: nat)
      requires RecordedUpTo(results, m)
      ensures PastAll(m)
    {
      forall j | 0 <= j < m ensures GotPast(j) { assert Recorded(results[j], j); }
    }

    lemma VetoIsCorrect(results: seq<InvariantResult>, r: InvariantResult)
      requires RecordedUpTo(results, |results|) && |results| < |invariants|
      requires WantingUpTo(|results| + 1) == {} && !late(|results|)
      requires Ending(|results|) == Settled(Some(false)) && r.satisfied == Some(false)
      requires r.id == invariants[|results|].id
      ensures Correct(Ruled(Veto, results + [r], []))
    {
      var i := |results|;
      NothingWanting(i + 1, i);
      StoppedByVeto(results, i);
      RecordedIsFaithful(results, i);
      FaithfulAppend(results, r);
      assert |results + [r]| - 1 == i && Sorted(WantingUpTo(i + 1)) == [] by { SortedEmpty(WantingUpTo(i + 1)); }
    }

    lemma LateIsCorrect(results: seq<InvariantResult>)
      requires RecordedUpTo(results, |results|) && |results| < |invariants| && late(|results|)
      ensures Correct(Ruled(Uncertain, results, Sorted(WantingUpTo(|results|))))
    {
      StoppedUndecided(results, |results|);
      RecordedIsFaithful(results, |results|);
      RecordedIsPast(results, |results|);
    }

    lemma UndeterminedIsCorrect(results: seq<InvariantResult>, r: InvariantResult)
      requires RecordedUpTo(results, |results|) && |results| < |invariants|
      requires Ending(|results|) == Undetermined && !late(|results|)
      requires r.satisfied == None && r.id == invariants[|results|].id
      ensures Correct(Ruled(Uncertain, results + [r], Sorted(WantingUpTo(|results| + 1))))
    {
      StoppedUndecided(results, |results|);
      RecordedIsFaithful(results, |results|);
      RecordedIsPast(results, |results|);
      FaithfulAppend(results, r);
    }

    lemma BlewIsCorrect(results: seq<InvariantResult>)
      requires RecordedUpTo(results, |results|) && |results| < |invariants|
      requires !late(|results|) && Ending(|results|) == Blew
      ensures Correct(Raised)
    {
      forall j | 0 <= j < |results| ensures GotPast(j) { assert Recorded(results[j], j); }
      assert RaisesAt(|results|);
    }

    lemma SettledGoesOn(results: seq<InvariantResult>, r: InvariantResult)
      requires RecordedUpTo(results, |results|) && |results| < |invariants| && !late(|results|)
      requires r.id == invariants[|results|].id && Ending(|results|) == Settled(r.satisfied)
      requires r.satisfied == Some(false) ==> WantingUpTo(|results| + 1) != {}
      ensures RecordedUpTo(results + [r], |results| + 1)
    {
      assert Recorded(r, |results|);
      RecordedAppend(results, r);
    }

    lemma EndIsCorrect(results: seq<InvariantResult>)
      requires RecordedUpTo(results, |invariants|) && |results| == |invariants|
      ensures var missing := Sorted(WantingUpTo(|invariants|));
              Correct(Ruled(if missing == [] then Pass else Uncertain, results, missing))
    {
      SortedEmpty(WantingUpTo(|invariants|));
      RanToTheEnd(results);
      RecordedIsFaithful(results, |invariants|);
      RecordedIsPast(results, |invariants|);
    }
  }

  lemma NoNames(names: seq<string>)
    ensures ToSet(names) == {} <==> names == []
  {
    if names != [] { assert names[0] in ToSet(names); }
  }

  lemma SortedEmpty(s: set<string>)
    ensures Sorted(s) == [] <==> s == {}
  {
    if s != {} { var x :| x in s; assert x in Sorted(s); }
  }

  /** Put the negation of a built formula to the solver, in a frame of its own, and explain a veto. */
  method Decide(s: Session, solver: Solver, ctx: KernelContext, i: nat, f: Formula) returns (e: Examined)
    requires Sound(s.oracle) && s.Disciplined() && i < |s.invariants| && s.Direct(i) == Built.Formula(f)
    requires ctx.env == s.World() && ctx.View() == s.CtxAt(i + 1)
    requires solver.oracle == s.oracle && solver.frames == [[]]
    modifies ctx`missingAccessed, solver
    ensures e == s.Ending(i)
    ensures e != Blew ==> ctx.View() == s.CtxAt(i + 1)
    ensures e.Settled? ==> solver.frames == [[]]
  {
    s.AnswerIsEvaluation(i);
    FlatOfEmpty();
    assert [] + ctx.assertions + [Not(f)] == ctx.assertions + [Not(f)];
    var answer := solver.Ask(i, ctx.assertions, Not(f));
    assert answer == s.Answered(i, f);
    match answer {
      case Unsat =>
        solver.Pop();
        e := Settled(Some(true));
      case Sat =>
        var rendered := ctx.Explain(s.invariants[i].explain(ctx.env.facts, ctx.constants));
        if !rendered { return Blew; }
        solver.Pop();
        e := Settled(Some(false));
      case Unknown => e := Undetermined;
    }
  }

  /** Build one invariant and, unless a fact was missing, decide its formula. */
  method Examine(s: Session, solver: Solver, ctx: KernelContext, i: nat, noted0: seq<string>)
    returns (e: Examined, noted: seq<string>)
    requires Sound(s.oracle) && s.Disciplined() && i < |s.invariants|
    requires ctx.env == s.World() && ctx.View() == s.CtxAt(i)
    requires solver.oracle == s.oracle && solver.frames == [[]]
    requires ToSet(noted0) + ToSet(ctx.missingAccessed) == s.WantingUpTo(i)
    modifies ctx, solver
    ensures e == s.Ending(i)
    ensures e != Blew ==> ctx.View() == s.CtxAt(i + 1)
    ensures e != Blew ==> ToSet(noted) + ToSet(ctx.missingAccessed) == s.WantingUpTo(i + 1)
    ensures e.Settled? ==> solver.frames == [[]]
  {
    StepsRecordMissing(s.World(), s.CtxAt(i), s.ScriptAt(i).steps);
    s.WantingNext(i);
    var built := ctx.Build(s.invariants[i].build(ctx.env.facts, ctx.constants));
    assert ctx.View() == s.CtxAt(i + 1) && built == s.Direct(i);
    noted := noted0;
    match built {
      case Crash => e := Blew;
      case Missing(names) =>
        NoteAdds(noted, names);
        noted := Note(noted, names);
        e := Settled(None);
      case Formula(f) => e := Decide(s, solver, ctx, i, f);
    }
  }

  /** What the loop of `verify` keeps. */
  ghost predicate InStep(s: Session, results: seq<InvariantResult>, noted: seq<string>, c: Ctx, i: nat) {
    && i <= |s.invariants| && |results| == i
    && c == s.CtxAt(i) && s.RecordedUpTo(results, i)
    && ToSet(noted) + ToSet(c.missing) == s.WantingUpTo(i)
  }

  /** One turn of the loop; `stop` carries an early return. */
  method Turn(s: Session, solver: Solver, ctx: KernelContext, results0: seq<InvariantResult>, noted0: seq<string>)
    returns (stop: Option<Ruling>, results: seq<InvariantResult>, noted: seq<string>)
    requires Sound(s.oracle) && s.Disciplined()
    requires ctx.env == s.World() && InStep(s, results0, noted0, ctx.View(), |results0|)
    requires |results0| < |s.invariants|
    requires solver.oracle == s.oracle && solver.frames == [[]]
    modifies ctx, solver
    ensures stop.Some? ==> s.Correct(stop.value)
    ensures stop.None? ==> InStep(s, results, noted, ctx.View(), |results0| + 1) && solver.frames == [[]]
  {
    results, noted := results0, noted0;
    var i := |results|;
    if s.late(i) {
      s.LateIsCorrect(results);
      var late := SortNames(ToSet(noted) + ToSet(ctx.missingAccessed));
      return Some(Ruled(Uncertain, results, late)), results, noted;
    }
    var e;
    e, noted := Examine(s, solver, ctx, i, noted);
    var missing := SortNames(ToSet(noted) + ToSet(ctx.missingAccessed));
    match e {
      case Blew =>
        s.BlewIsCorrect(results);
        stop := Some(Raised);
      case Undetermined =>
        var r := InvariantResult(s.invariants[i].id, None);
        s.UndeterminedIsCorrect(results, r);
        stop := Some(Ruled(Uncertain, results + [r], missing));
      case Settled(satisfied) =>
        var r := InvariantResult(s.invariants[i].id, satisfied);
        SortedEmpty(s.WantingUpTo(i + 1));
        if satisfied == Some(false) && missing == [] {
          s.VetoIsCorrect(results, r);
          stop := Some(Ruled(Veto, results + [r], []));
        } else {
          s.SettledGoesOn(results, r);
          results := results + [r];
          stop := None;
        }
    }
  }

  method Run(s: Session) returns (v: Ruling)
    requires Sound(s.oracle) && s.Disciplined()
    ensures s.Correct(v)
  {
    var ctx := new KernelContext(s.facts, s.iso);
    var solver := new Solver(s.oracle);
    var results, noted: seq<string> := [], [];
    while |results| < |s.invariants|
      invariant ctx.env == s.World() && InStep(s, results, noted, ctx.View(), |results|)
      invariant solver.oracle == s.oracle && solver.frames == [[]]
      decreases |s.invariants| - |results|
    {
      var stop;
      stop, results, noted := Turn(s, solver, ctx, results, noted);
      if stop.Some? { return stop.value; }
    }
    s.EndIsCorrect(results);
    var missing := SortNames(ToSet(noted) + ToSet(ctx.missingAccessed));
    v := Ruled(if missing == [] then Pass else Uncertain, results, missing);
  }

  /** `verify` refines direct evaluation of the invariants under the facts. */
  method Verify(s: Session) returns (v: Ruling)
    requires Sound(s.oracle) && s.Disciplined()
    ensures v.Ruled? && v.verdict == Pass <==> s.AllPass()
    ensures v.Ruled? && v.verdict == Veto <==> exists k: nat :: s.VetoedAt(k)
    ensures v.Ruled? && v.verdict == Veto ==> |v.results| > 0 && s.VetoedAt(|v.results| - 1)
    ensures v.Ruled? ==> s.Faithful(v.results) && v.missing == Sorted(s.WantingUpTo(|v.results|))
    ensures v.Ruled? && v.verdict == Pass ==> |v.results| == |s.invariants|
    ensures v.Ruled? && v.verdict == Uncertain ==> s.StoppedAt(|v.results|)
    ensures v.Raised? <==> s.Raises()
  {
    v := Run(s);
    if s.AllPass() { s.PassIsExclusive(); }
    if k: nat :| s.VetoedAt(k) { s.VetoIsExclusive(k); }
  }

  /** A veto shows every earlier formula true and the last one false. */
  lemma VetoRefutesTheLast(s: Session, results: seq<InvariantResult>)
    requires s.Faithful(results) && |results| > 0 && s.VetoedAt(|results| - 1)
    ensures results[|results| - 1].satisfied == Some(false)
    ensures forall j :: 0 <= j < |results| - 1 && s.Direct(j).Formula? ==> results[j].satisfied == Some(true)
  {
    forall j | 0 <= j < |results| - 1 && s.Direct(j).Formula? ensures results[j].satisfied == Some(true) {
      assert s.Passes(j) && s.Tells(results[j], j);
    }
  }

  /** A PASS decides every invariant exactly when none raised a MissingFact without a name. */
  lemma WhenAPassDecidesAll(s: Session)
    requires s.AllPass()
    ensures var n := |s.invariants|;
            (forall i :: 0 <= i < n ==> s.Decided(i) == Some(true)) ==
            (forall i :: 0 <= i < n ==> s.Direct(i) != Missing([]))
  {
    forall i | 0 <= i < |s.invariants|
      ensures (s.Decided(i) == Some(true)) == (s.Direct(i) != Missing([]))
    {
      assert s.Passes(i);
      match s.Direct(i) {
        case Missing(names) => NoNames(names);
        case _ =>
      }
    }
  }

  const SILENT := Invariant("K0", (facts, reg) => Script([], RaiseMissing([])), (facts, reg) => Rendering([], false))

  /** Such an invariant is left undecided, and the verdict is still PASS. */
  lemma NamelessMissingFactPasses(iso: IsoParser)
    ensures var s := Session([], iso, [SILENT], i => false, (i, fs) => Unknown);
            s.AllPass() && s.Decided(0) == None
  {
    var s := Session([], iso, [SILENT], i => false, (i, fs) => Unknown);
    assert s.ScriptAt(0) == Script([], RaiseMissing([]));
    assert s.Direct(0) == Missing([]);
    assert s.Wanting(0) == {};
    assert s.Passes(0);
  }
}
