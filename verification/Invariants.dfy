/** Three of the kernel's invariants, and what a PASS over them says of the facts. */
module KernelInvariants {
  import opened Text
  import opened Plans
  import opened FactBase
  import opened SafetyKernel

  // ---------------------------------------------------------------- builds that only read constants

  datatype Reading = Reading(accessor: Accessor, name: string)

  function Reads(readings: seq<Reading>): seq<Step> {
    seq(|readings|, i requires 0 <= i < |readings| => Step(Const(readings[i].accessor, readings[i].name), false))
  }

  ghost predicate Readable(env: Env, r: Reading) { Attempt(env, Const(r.accessor, r.name)).Fine? }

  ghost predicate AllReadable(env: Env, readings: seq<Reading>) {
    forall i :: 0 <= i < |readings| ==> Readable(env, readings[i])
  }

  /** With every reading possible the formula is built and nothing is wanting. */
  lemma {:induction false} ReadableOutcome(env: Env, readings: seq<Reading>, f: Formula)
    requires AllReadable(env, readings)
    ensures Outcome(env, Reads(readings), Return(f)) == Built.Formula(f)
    ensures Asked(env, Reads(readings)) == {}
  {
    if readings != [] {
      assert Readable(env, readings[0]);
      assert Reads(readings)[1..] == Reads(readings[1..]);
      ReadableOutcome(env, readings[1..], f);
    }
  }

  /** Otherwise no formula is, and either a fact is wanting or the build raises. */
  lemma {:induction false} UnreadableOutcome(env: Env, readings: seq<Reading>, f: Formula)
    requires !AllReadable(env, readings)
    ensures var built := Outcome(env, Reads(readings), Return(f));
            !built.Formula? && (built == Crash || Asked(env, Reads(readings)) != {})
  {
    var rest := readings[1..];
    assert Reads(readings)[1..] == Reads(rest);
    if Readable(env, readings[0]) {
      UnreadableOutcome(env, rest, f);
    } else {
      var step := Reads(readings)[0];
      assert !GoesOn(env, step);
      match Attempt(env, step.access) {
        case Lacks(names) => assert readings[0].name in ToSet(names);
        case _ =>
      }
    }
  }

  /** Each reading is handed its constant at its own sort, whatever was registered before. */
  lemma {:induction false} ReadsHanded(env: Env, c: Ctx, readings: seq<Reading>, sig: string -> Sort, r: Reading)
    requires forall n :: n in c.constants ==> c.constants[n] == sig(n)
    requires forall x :: x in readings ==> SortOf(x.accessor) == sig(x.name) && Readable(env, x)
    requires r in readings
    ensures (r.name, SortOf(r.accessor)) in Handed(env, c, Reads(readings))
    decreases readings
  {
    var rest := readings[1..];
    assert Reads(readings)[1..] == Reads(rest);
    assert readings[0] in readings && forall x :: x in rest ==> x in readings;
    if r != readings[0] {
      ReadsHanded(env, After(env, c, Const(readings[0].accessor, readings[0].name)), rest, sig, r);
    }
  }

  // ---------------------------------------------------------------- the invariants

  const MUTATIONS := "prod_mutations_in_window"
  const BUDGET := "mutation_budget"
  const AGE := "evidence_age_seconds"
  const SAMPLES := "probe_sample_count"
  const DROPS := "max_drop_ratio"
  const MIGRATED_AT := "last_migration_commit_time"
  const TARGET_AT := "rollback_target_commit_time"
  const MIGRATES := "target_contains_migration"

  const K7_READINGS := [Reading(AsInt, MUTATIONS), Reading(AsInt, BUDGET)]
  const K7_FORMULA := Le(Plus(IntConst(MUTATIONS), Num(1.0)), IntConst(BUDGET))

  const K8_READINGS := [Reading(AsReal, AGE), Reading(AsInt, SAMPLES), Reading(AsReal, DROPS)]
  const K8_FORMULA := And(Le(RealConst(AGE), Num(300.0)),
                          And(Le(Num(60.0), IntConst(SAMPLES)), Le(RealConst(DROPS), Num(0.05))))

  const NOTHING_ASKED := Script([], Return(Truth(true)))

  /** One more mutation must stay within the budget. */
  function K7(p: Plan): Invariant {
    Invariant("K7",
              (facts, reg) =>
                if p.action == NoAction then NOTHING_ASKED else Script(Reads(K7_READINGS), Return(K7_FORMULA)),
              (facts, reg) => Rendering([MUTATIONS, BUDGET], false))
  }

  /** The evidence must be fresh, dense and faithful. */
  function K8(): Invariant {
    Invariant("K8",
              (facts, reg) => Script(Reads(K8_READINGS), Return(K8_FORMULA)),
              (facts, reg) => Rendering([AGE, SAMPLES, DROPS], false))
  }

  /** The fact about the target commit if there is one, else the general one. */
  function AboutTarget(facts: map<string, Value>, p: Plan, name: string): string {
    if Given(p.params.targetCommit) && Lookup(facts, name + "[" + p.params.targetCommit.value + "]").Some?
    then name + "[" + p.params.targetCommit.value + "]" else name
  }

  function K3Readings(facts: map<string, Value>, p: Plan): seq<Reading> {
    [Reading(AsDatetime, MIGRATED_AT), Reading(AsDatetime, AboutTarget(facts, p, TARGET_AT)),
     Reading(AsBool, AboutTarget(facts, p, MIGRATES))]
  }

  function K3Formula(facts: map<string, Value>, p: Plan): Formula {
    And(Le(RealConst(MIGRATED_AT), RealConst(AboutTarget(facts, p, TARGET_AT))),
        Not(BoolConst(AboutTarget(facts, p, MIGRATES))))
  }

  /** What a veto's text reads: as `AboutTarget`, but a commit called "unknown" counts as none. */
  function ToldOf(facts: map<string, Value>, p: Plan, name: string): string {
    if p.params.targetCommit == Some("unknown") then name else AboutTarget(facts, p, name)
  }

  predicate NotText(v: Option<Value>) { v.Some? && !v.value.Text? }

  /** No rollback past a schema migration. */
  function K3(p: Plan): Invariant {
    Invariant("K3",
              (facts, reg) =>
                if p.action != RollbackDeploy then NOTHING_ASKED
                else Script(Reads(K3Readings(facts, p)), Return(K3Formula(facts, p))),
              (facts, reg) => Rendering(
                [MIGRATED_AT, ToldOf(facts, p, MIGRATES), ToldOf(facts, p, TARGET_AT)],
                NotText(Lookup(facts, "last_migration_commit"))))
  }

  // ---------------------------------------------------------------- what they say of the facts

  ghost predicate IntFact(facts: map<string, Value>, name: string, i: int) { Says(facts, name, Whole(i)) }

  /** A number, whole or not. */
  ghost predicate NumberFact(facts: map<string, Value>, name: string, n: real) {
    Says(facts, name, Amount(n)) || exists i :: WholeFact(facts, name, i, n)
  }

  ghost predicate WholeFact(facts: map<string, Value>, name: string, i: int, n: real) {
    IntFact(facts, name, i) && i as real == n
  }

  /** A timestamp in microseconds, or a text that reads as one. */
  ghost predicate TimeFact(env: Env, name: string, at: Instant) {
    Says(env.facts, name, Time(at)) || exists s :: Says(env.facts, name, Text(s)) && env.iso(s) == Some(at)
  }

  ghost predicate K7Holds(env: Env, p: Plan) {
    p.action != NoAction ==>
      exists m, b :: IntFact(env.facts, MUTATIONS, m) && IntFact(env.facts, BUDGET, b) && m + 1 <= b
  }

  ghost predicate K8Holds(env: Env) {
    exists age, n, drops ::
      && NumberFact(env.facts, AGE, age) && IntFact(env.facts, SAMPLES, n) && NumberFact(env.facts, DROPS, drops)
      && age <= 300.0 && n >= 60 && drops <= 0.05
  }

  ghost predicate K3Holds(env: Env, p: Plan) {
    p.action == RollbackDeploy ==>
      exists last, target ::
        && TimeFact(env, MIGRATED_AT, last) && TimeFact(env, AboutTarget(env.facts, p, TARGET_AT), target)
        && Says(env.facts, AboutTarget(env.facts, p, MIGRATES), Flag(false)) && last <= target
  }

  lemma IntReading(env: Env, name: string)
    ensures Readable(env, Reading(AsInt, name)) <==> exists i :: IntFact(env.facts, name, i)
    ensures forall i :: IntFact(env.facts, name, i) ==> FactModel(env).ints(name) == i
  {
    WhatAnAccessorAnswers(env, AsInt, name);
    forall v | Says(env.facts, name, v) ensures HasItsValue(env, FactModel(env), name, v) {
      FactModelHasTheFacts(env, name, v);
    }
    if v :| Says(env.facts, name, v) && Takes(env, AsInt, v) { assert IntFact(env.facts, name, v.i); }
  }

  lemma ValueIsRead(env: Env, a: Accessor, name: string, v: Value)
    requires Says(env.facts, name, v) && Takes(env, a, v)
    ensures Readable(env, Reading(a, name)) && HasItsValue(env, FactModel(env), name, v)
  {
    WhatAnAccessorAnswers(env, a, name);
    FactModelHasTheFacts(env, name, v);
  }

  lemma NumberIsRead(env: Env, name: string, n: real)
    requires NumberFact(env.facts, name, n)
    ensures Readable(env, Reading(AsReal, name)) && FactModel(env).reals(name) == n
  {
    if Says(env.facts, name, Amount(n)) {
      ValueIsRead(env, AsReal, name, Amount(n));
    } else {
      var i :| WholeFact(env.facts, name, i, n);
      ValueIsRead(env, AsReal, name, Whole(i));
    }
  }

  lemma NumberReading(env: Env, name: string)
    ensures Readable(env, Reading(AsReal, name)) <==> exists n :: NumberFact(env.facts, name, n)
    ensures forall n :: NumberFact(env.facts, name, n) ==> FactModel(env).reals(name) == n
  {
    forall n | NumberFact(env.facts, name, n)
      ensures Readable(env, Reading(AsReal, name)) && FactModel(env).reals(name) == n
    {
      NumberIsRead(env, name, n);
    }
    if Readable(env, Reading(AsReal, name)) {
      var v := ReadValue(env, AsReal, name);
      assert v.Whole? ==> WholeFact(env.facts, name, v.i, v.i as real);
      assert NumberFact(env.facts, name, if v.Whole? then v.i as real else v.n);
    }
  }

  lemma TimeIsRead(env: Env, name: string, at: Instant)
    requires TimeFact(env, name, at)
    ensures Readable(env, Reading(AsDatetime, name)) && FactModel(env).reals(name) == Seconds(at)
  {
    if Says(env.facts, name, Time(at)) {
      ValueIsRead(env, AsDatetime, name, Time(at));
    } else {
      var s :| Says(env.facts, name, Text(s)) && env.iso(s) == Some(at);
      ValueIsRead(env, AsDatetime, name, Text(s));
    }
  }

  lemma ReadValue(env: Env, a: Accessor, name: string) returns (v: Value)
    requires Readable(env, Reading(a, name))
    ensures Says(env.facts, name, v) && Takes(env, a, v)
  {
    WhatAnAccessorAnswers(env, a, name);
    v :| Says(env.facts, name, v) && Takes(env, a, v);
  }

  lemma TimeOfReading(env: Env, name: string) returns (at: Instant)
    requires Readable(env, Reading(AsDatetime, name))
    ensures TimeFact(env, name, at)
  {
    var v := ReadValue(env, AsDatetime, name);
    if v.Time? {
      at := v.at;
    } else {
      at := env.iso(v.s).value;
      assert Says(env.facts, name, Text(v.s)) && env.iso(v.s) == Some(at);
    }
  }

  lemma TimeReading(env: Env, name: string)
    ensures Readable(env, Reading(AsDatetime, name)) <==> exists at :: TimeFact(env, name, at)
    ensures forall at :: TimeFact(env, name, at) ==> FactModel(env).reals(name) == Seconds(at)
  {
    forall at | TimeFact(env, name, at)
      ensures Readable(env, Reading(AsDatetime, name)) && FactModel(env).reals(name) == Seconds(at)
    {
      TimeIsRead(env, name, at);
    }
    if Readable(env, Reading(AsDatetime, name)) {
      var at := TimeOfReading(env, name);
    }
  }

  lemma FlagReading(env: Env, name: string)
    ensures Readable(env, Reading(AsBool, name)) <==> exists b :: Says(env.facts, name, Flag(b))
    ensures forall b :: Says(env.facts, name, Flag(b)) ==> FactModel(env).bools(name) == b
  {
    WhatAnAccessorAnswers(env, AsBool, name);
    forall b | Says(env.facts, name, Flag(b)) ensures FactModel(env).bools(name) == b {
      FactModelHasTheFacts(env, name, Flag(b));
    }
    if v :| Says(env.facts, name, v) && Takes(env, AsBool, v) { assert v == Flag(v.b); }
  }

  lemma K7Means(env: Env)
    ensures AllReadable(env, K7_READINGS) && HoldsUnderFacts(env, K7_FORMULA) <==>
            exists m, b :: IntFact(env.facts, MUTATIONS, m) && IntFact(env.facts, BUDGET, b) && m + 1 <= b
  {
    IntReading(env, MUTATIONS);
    IntReading(env, BUDGET);
    assert AllReadable(env, K7_READINGS) <==>
           Readable(env, K7_READINGS[0]) && Readable(env, K7_READINGS[1]);
  }

  lemma K8FormulaMeans(m: Model)
    ensures Holds(K8_FORMULA, m) <==> m.reals(AGE) <= 300.0 && m.ints(SAMPLES) >= 60 && m.reals(DROPS) <= 0.05
  {
    var recent, rest := K8_FORMULA.f, K8_FORMULA.g;
    assert Holds(K8_FORMULA, m) == (Holds(recent, m) && Holds(rest, m));
    assert Holds(rest, m) == (Holds(rest.f, m) && Holds(rest.g, m));
  }

  lemma K8Means(env: Env)
    ensures AllReadable(env, K8_READINGS) && HoldsUnderFacts(env, K8_FORMULA) <==> K8Holds(env)
  {
    K8FormulaMeans(FactModel(env));
    NumberReading(env, AGE);
    IntReading(env, SAMPLES);
    NumberReading(env, DROPS);
    assert AllReadable(env, K8_READINGS) <==>
           Readable(env, K8_READINGS[0]) && Readable(env, K8_READINGS[1]) && Readable(env, K8_READINGS[2]);
  }

  lemma SecondsGrow(a: int, b: int)
    ensures Seconds(a) <= Seconds(b) <==> a <= b
  {}

  /** The formula of K3 for given constants. */
  lemma K3FormulaMeans(m: Model, migrated: string, target: string, migrates: string, last: int, at: int)
    requires m.reals(migrated) == Seconds(last) && m.reals(target) == Seconds(at)
    ensures Holds(And(Le(RealConst(migrated), RealConst(target)), Not(BoolConst(migrates))), m)
            <==> last <= at && !m.bools(migrates)
  {
    SecondsGrow(last, at);
    var later, none := Le(RealConst(migrated), RealConst(target)), Not(BoolConst(migrates));
    assert Holds(And(later, none), m) == (Holds(later, m) && Holds(none, m));
    assert Holds(none, m) == !Holds(BoolConst(migrates), m);
  }

  lemma K3Means(env: Env, p: Plan)
    requires p.action == RollbackDeploy
    ensures AllReadable(env, K3Readings(env.facts, p)) && HoldsUnderFacts(env, K3Formula(env.facts, p))
            <==> K3Holds(env, p)
  {
    var readings := K3Readings(env.facts, p);
    TimeReading(env, readings[0].name);
    TimeReading(env, readings[1].name);
    FlagReading(env, readings[2].name);
    forall last, at | TimeFact(env, readings[0].name, last) && TimeFact(env, readings[1].name, at)
      ensures HoldsUnderFacts(env, K3Formula(env.facts, p))
              <==> last <= at && !FactModel(env).bools(readings[2].name)
    {
      K3FormulaMeans(FactModel(env), readings[0].name, readings[1].name, readings[2].name, last, at);
    }
    assert AllReadable(env, readings) <==>
           Readable(env, readings[0]) && Readable(env, readings[1]) && Readable(env, readings[2]);
  }

  // ---------------------------------------------------------------- a session of the three

  ghost predicate OfTheThree(s: Session, p: Plan) { s.invariants == [K3(p), K7(p), K8()] }

  function SortOfReading(r: Reading): (string, Sort) { (r.name, SortOf(r.accessor)) }

  lemma PlainBuildPasses(s: Session, i: nat, readings: seq<Reading>, f: Formula)
    requires i < |s.invariants| && !s.late(i) && s.ScriptAt(i) == Script(Reads(readings), Return(f))
    requires forall n: nat, fs :: s.oracle(n, fs) != Unknown
    ensures s.Passes(i) <==> AllReadable(s.World(), readings) && HoldsUnderFacts(s.World(), f)
    ensures s.Direct(i).Formula? ==> AllReadable(s.World(), readings) && s.Direct(i).f == f
  {
    if AllReadable(s.World(), readings) {
      ReadableOutcome(s.World(), readings, f);
    } else {
      UnreadableOutcome(s.World(), readings, f);
    }
  }

  lemma QuietBuildPasses(s: Session, i: nat)
    requires i < |s.invariants| && !s.late(i) && s.ScriptAt(i) == NOTHING_ASKED
    requires forall n: nat, fs :: s.oracle(n, fs) != Unknown
    ensures s.Passes(i)
    ensures s.DisciplinedAt(i)
  {}

  ghost predicate Decisive(s: Session) {
    (forall i: nat :: !s.late(i)) && forall n: nat, fs :: s.oracle(n, fs) != Unknown
  }

  lemma WhenK3Passes(s: Session, p: Plan)
    requires OfTheThree(s, p) && Decisive(s)
    ensures s.Passes(0) <==> K3Holds(s.World(), p)
  {
    var env := s.World();
    if p.action == RollbackDeploy {
      assert s.ScriptAt(0) == Script(Reads(K3Readings(env.facts, p)), Return(K3Formula(env.facts, p)));
      K3Means(env, p);
      PlainBuildPasses(s, 0, K3Readings(env.facts, p), K3Formula(env.facts, p));
    } else {
      QuietBuildPasses(s, 0);
    }
  }

  lemma WhenK7Passes(s: Session, p: Plan)
    requires OfTheThree(s, p) && Decisive(s)
    ensures s.Passes(1) <==> K7Holds(s.World(), p)
  {
    if p.action == NoAction {
      QuietBuildPasses(s, 1);
    } else {
      assert s.ScriptAt(1) == Script(Reads(K7_READINGS), Return(K7_FORMULA));
      K7Means(s.World());
      PlainBuildPasses(s, 1, K7_READINGS, K7_FORMULA);
    }
  }

  lemma WhenK8Passes(s: Session, p: Plan)
    requires OfTheThree(s, p) && Decisive(s)
    ensures s.Passes(2) <==> K8Holds(s.World())
  {
    assert s.ScriptAt(2) == Script(Reads(K8_READINGS), Return(K8_FORMULA));
    K8Means(s.World());
    PlainBuildPasses(s, 2, K8_READINGS, K8_FORMULA);
  }

  lemma AllOfThree(s: Session)
    requires |s.invariants| == 3
    ensures s.AllPass() <==> s.Passes(0) && s.Passes(1) && s.Passes(2)
  {
    if s.Passes(0) && s.Passes(1) && s.Passes(2) {
      forall i | 0 <= i < 3 ensures s.Passes(i) { assert i == 0 || i == 1 || i == 2; }
    }
  }

  /** The verdict is PASS exactly when the facts meet all three. */
  lemma WhenTheThreePass(s: Session, p: Plan)
    requires OfTheThree(s, p) && Decisive(s)
    ensures s.AllPass() <==> K3Holds(s.World(), p) && K7Holds(s.World(), p) && K8Holds(s.World())
  {
    WhenK3Passes(s, p);
    WhenK7Passes(s, p);
    WhenK8Passes(s, p);
    AllOfThree(s);
  }

  // ---------------------------------------------------------------- the three are disciplined

  /** Every name of the three is read at one sort. */
  function Sig(name: string): Sort {
    if name in {MUTATIONS, BUDGET, SAMPLES} then IntSort
    else if MIGRATES <= name then BoolSort
    else RealSort
  }

  lemma PlainNames()
    ensures Sig(MUTATIONS) == Sig(BUDGET) == Sig(SAMPLES) == IntSort
    ensures Sig(AGE) == Sig(DROPS) == Sig(MIGRATED_AT) == RealSort
  {
    assert MIGRATES[0] == 't' && MUTATIONS[0] == 'p' && BUDGET[0] == 'm' && SAMPLES[0] == 'p';
    assert AGE[0] == 'e' && DROPS[0] == 'm' && MIGRATED_AT[0] == 'l' && DROPS[1] == 'a' && BUDGET[1] == 'u';
  }

  lemma TargetNames(facts: map<string, Value>, p: Plan)
    ensures Sig(AboutTarget(facts, p, TARGET_AT)) == RealSort
    ensures Sig(AboutTarget(facts, p, MIGRATES)) == BoolSort
  {
    var at, of := AboutTarget(facts, p, TARGET_AT), AboutTarget(facts, p, MIGRATES);
    assert TARGET_AT <= at && at[0] == 'r' && MIGRATES <= of && of[0] == 't';
    assert MIGRATES[0] == 't' && MUTATIONS[0] == 'p' && BUDGET[0] == 'm' && SAMPLES[0] == 'p';
  }

  ghost predicate AtTheirSorts(readings: seq<Reading>) {
    forall r :: r in readings ==> SortOf(r.accessor) == Sig(r.name)
  }

  ghost predicate Covers(readings: seq<Reading>, f: Formula) {
    forall k :: k in Constants(f) ==> exists r :: r in readings && SortOfReading(r) == k
  }

  lemma K3Covers(facts: map<string, Value>, p: Plan)
    ensures Covers(K3Readings(facts, p), K3Formula(facts, p)) && AtTheirSorts(K3Readings(facts, p))
  {
    PlainNames();
    TargetNames(facts, p);
    var readings, f := K3Readings(facts, p), K3Formula(facts, p);
    assert Constants(f.g) == {SortOfReading(readings[2])};
    assert Constants(f) == {SortOfReading(readings[0]), SortOfReading(readings[1])} + Constants(f.g);
    assert readings[0] in readings && readings[1] in readings && readings[2] in readings;
  }

  lemma K7Covers()
    ensures Covers(K7_READINGS, K7_FORMULA) && AtTheirSorts(K7_READINGS)
  {
    PlainNames();
    assert Constants(K7_FORMULA) == {SortOfReading(K7_READINGS[0]), SortOfReading(K7_READINGS[1])};
    assert K7_READINGS[0] in K7_READINGS && K7_READINGS[1] in K7_READINGS;
  }

  lemma K8Covers()
    ensures Covers(K8_READINGS, K8_FORMULA) && AtTheirSorts(K8_READINGS)
  {
    PlainNames();
    var readings := K8_READINGS;
    assert Constants(K8_FORMULA.g) == {SortOfReading(readings[1]), SortOfReading(readings[2])};
    assert Constants(K8_FORMULA) == {SortOfReading(readings[0])} + Constants(K8_FORMULA.g);
    assert readings[0] in readings && readings[1] in readings && readings[2] in readings;
  }

  lemma PlainBuildIsDisciplined(s: Session, i: nat, readings: seq<Reading>, f: Formula)
    requires i < |s.invariants| && s.ScriptAt(i) == Script(Reads(readings), Return(f))
    requires s.Agrees(Sig, s.CtxAt(i).constants)
    requires AtTheirSorts(readings)
    requires Covers(readings, f)
    ensures s.DisciplinedAt(i)
    ensures s.Agrees(Sig, s.CtxAt(i + 1).constants)
  {
    var env, c := s.World(), s.CtxAt(i);
    if s.Direct(i).Formula? {
      if !AllReadable(env, readings) { UnreadableOutcome(env, readings, f); }
      ReadableOutcome(env, readings, f);
      forall k | k in Constants(f) ensures k in Handed(env, c, Reads(readings)) {
        var r :| r in readings && SortOfReading(r) == k;
        ReadsHanded(env, c, readings, Sig, r);
      }
    }
    assert s.ReadsAt(Sig, Reads(readings)) by {
      forall j | 0 <= j < |Reads(readings)| && Reads(readings)[j].access.Const?
        ensures SortOf(Reads(readings)[j].access.accessor) == Sig(Reads(readings)[j].access.name)
      {
        assert readings[j] in readings;
      }
    }
    s.StepsAgree(Sig, c, Reads(readings));
  }

  lemma QuietBuildIsDisciplined(s: Session, i: nat)
    requires i < |s.invariants| && s.ScriptAt(i) == NOTHING_ASKED && s.Agrees(Sig, s.CtxAt(i).constants)
    ensures s.DisciplinedAt(i) && s.Agrees(Sig, s.CtxAt(i + 1).constants)
  {}

  lemma K3IsDisciplined(s: Session, p: Plan)
    requires OfTheThree(s, p)
    ensures s.DisciplinedAt(0) && s.Agrees(Sig, s.CtxAt(1).constants)
  {
    var facts := s.World().facts;
    if p.action != RollbackDeploy {
      QuietBuildIsDisciplined(s, 0);
    } else {
      K3Covers(facts, p);
      assert s.ScriptAt(0) == Script(Reads(K3Readings(facts, p)), Return(K3Formula(facts, p)));
      PlainBuildIsDisciplined(s, 0, K3Readings(facts, p), K3Formula(facts, p));
    }
  }

  lemma K7IsDisciplined(s: Session, p: Plan)
    requires OfTheThree(s, p) && s.Agrees(Sig, s.CtxAt(1).constants)
    ensures s.DisciplinedAt(1) && s.Agrees(Sig, s.CtxAt(2).constants)
  {
    if p.action == NoAction {
      QuietBuildIsDisciplined(s, 1);
    } else {
      K7Covers();
      assert s.ScriptAt(1) == Script(Reads(K7_READINGS), Return(K7_FORMULA));
      PlainBuildIsDisciplined(s, 1, K7_READINGS, K7_FORMULA);
    }
  }

  lemma K8IsDisciplined(s: Session, p: Plan)
    requires OfTheThree(s, p) && s.Agrees(Sig, s.CtxAt(2).constants)
    ensures s.DisciplinedAt(2)
  {
    K8Covers();
    assert s.ScriptAt(2) == Script(Reads(K8_READINGS), Return(K8_FORMULA));
    PlainBuildIsDisciplined(s, 2, K8_READINGS, K8_FORMULA);
  }

  lemma TheThreeAreDisciplined(s: Session, p: Plan)
    requires OfTheThree(s, p)
    ensures s.Disciplined()
  {
    K3IsDisciplined(s, p);
    K7IsDisciplined(s, p);
    K8IsDisciplined(s, p);
    forall i | 0 <= i < |s.invariants| ensures s.DisciplinedAt(i) { assert i == 0 || i == 1 || i == 2; }
  }

  ghost predicate EvidenceGiven(env: Env, age: real, n: int, drops: real) {
    NumberFact(env.facts, AGE, age) && IntFact(env.facts, SAMPLES, n) && NumberFact(env.facts, DROPS, drops)
  }

  lemma EvidenceIsReadable(env: Env, age: real, n: int, drops: real)
    requires EvidenceGiven(env, age, n, drops)
    ensures AllReadable(env, K8_READINGS)
  {
    NumberIsRead(env, AGE, age);
    IntReading(env, SAMPLES);
    NumberIsRead(env, DROPS, drops);
  }

  lemma K8Explains(env: Env)
    requires AllReadable(env, K8_READINGS)
    ensures Renders(env, Rendering([AGE, SAMPLES, DROPS], false))
  {
    assert Readable(env, K8_READINGS[0]) && Readable(env, K8_READINGS[1]) && Readable(env, K8_READINGS[2]);
  }

  lemma PlainBuildIsRefuted(s: Session, i: nat, readings: seq<Reading>, f: Formula)
    requires i < |s.invariants| && s.ScriptAt(i) == Script(Reads(readings), Return(f)) && Decisive(s)
    requires AllReadable(s.World(), readings) && !HoldsUnderFacts(s.World(), f) && s.Explained(i)
    ensures s.Refuted(i)
  {
    ReadableOutcome(s.World(), readings, f);
  }

  lemma ThirdIsVetoed(s: Session)
    requires |s.invariants| == 3 && s.Passes(0) && s.Passes(1) && s.Refuted(2)
    ensures s.VetoedAt(2)
  {
    forall i | 0 <= i < 2 ensures s.Passes(i) { assert i == 0 || i == 1; }
  }

  /** Evidence that is all there and falls short is vetoed, once the other two hold. */
  lemma ShortEvidenceIsVetoed(s: Session, p: Plan, age: real, n: int, drops: real)
    requires OfTheThree(s, p) && Decisive(s) && K3Holds(s.World(), p) && K7Holds(s.World(), p)
    requires EvidenceGiven(s.World(), age, n, drops) && !K8Holds(s.World())
    ensures s.VetoedAt(2)
  {
    WhenK3Passes(s, p);
    WhenK7Passes(s, p);
    K8Means(s.World());
    EvidenceIsReadable(s.World(), age, n, drops);
    K8Explains(s.World());
    assert s.ScriptAt(2) == Script(Reads(K8_READINGS), Return(K8_FORMULA)) && s.Explained(2);
    PlainBuildIsRefuted(s, 2, K8_READINGS, K8_FORMULA);
    ThirdIsVetoed(s);
  }

  lemma FirstReadingLacks(env: Env, readings: seq<Reading>, f: Formula)
    requires readings != [] && Attempt(env, Const(readings[0].accessor, readings[0].name)) == Lacks([readings[0].name])
    ensures Outcome(env, Reads(readings), Return(f)) == Missing([readings[0].name])
    ensures Asked(env, Reads(readings)) == {readings[0].name}
  {
    assert Reads(readings)[0] == Step(Const(readings[0].accessor, readings[0].name), false);
    assert ToSet([readings[0].name]) == {readings[0].name};
  }

  lemma LastIsUndecided(s: Session, names: seq<string>)
    requires |s.invariants| == 3 && s.Passes(0) && s.Passes(1) && s.Direct(2) == Missing(names) && s.Wanting(2) != {}
    ensures s.Undecided()
  {
    assert !s.Passes(2) && !s.Refuted(2) && !s.Blows(2);
    forall k: nat ensures !s.VetoedAt(k) && !s.RaisesAt(k) {
      if k < 3 { assert k == 0 || k == 1 || k == 2; }
    }
  }

  /** Evidence without an age leaves the kernel uncertain, and the age is named. */
  lemma MissingEvidenceIsWanted(s: Session, p: Plan)
    requires OfTheThree(s, p) && Decisive(s) && K3Holds(s.World(), p) && K7Holds(s.World(), p)
    requires Unsaid(s.World(), AGE)
    ensures s.Undecided() && s.Wanting(2) == {AGE}
  {
    WhenK3Passes(s, p);
    WhenK7Passes(s, p);
    WhatAnAccessorAnswers(s.World(), AsReal, AGE);
    assert s.ScriptAt(2) == Script(Reads(K8_READINGS), Return(K8_FORMULA));
    FirstReadingLacks(s.World(), K8_READINGS, K8_FORMULA);
    assert ToSet([AGE]) == {AGE};
    LastIsUndecided(s, [AGE]);
  }

  lemma NoOtherVeto(s: Session, j: nat, k: nat)
    requires s.VetoedAt(j) && k != j
    ensures !s.VetoedAt(k)
  {
    if k < j {
      assert s.Passes(k);
    } else {
      assert !s.Passes(j);
    }
  }

  lemma StopsAtTheEnd(s: Session, p: Plan, m: nat)
    requires OfTheThree(s, p) && Decisive(s) && s.StoppedAt(m)
    ensures m == 3
  {}

  lemma WantedIsListed(s: Session, i: nat, name: string)
    requires i < |s.invariants| && name in s.Wanting(i)
    ensures name in Sorted(s.WantingUpTo(|s.invariants|))
  {}

  ghost predicate SomeEvidence(env: Env) { exists age, n, drops :: EvidenceGiven(env, age, n, drops) }

  /** The kernel on the three: PASS exactly when the facts meet them, and what evidence that falls short leads to. */
  method JudgePlan(s: Session, p: Plan) returns (v: Ruling)
    requires OfTheThree(s, p) && Decisive(s) && Sound(s.oracle)
    ensures v.Ruled? && v.verdict == Pass <==> K3Holds(s.World(), p) && K7Holds(s.World(), p) && K8Holds(s.World())
    ensures K3Holds(s.World(), p) && K7Holds(s.World(), p) && !K8Holds(s.World()) && SomeEvidence(s.World()) ==>
              v.Ruled? && v.verdict == Veto && |v.results| == 3
    ensures K3Holds(s.World(), p) && K7Holds(s.World(), p) && Unsaid(s.World(), AGE) ==>
              v.Ruled? && v.verdict == Uncertain && AGE in v.missing
  {
    TheThreeAreDisciplined(s, p);
    WhenTheThreePass(s, p);
    v := Verify(s);
    ghost var env := s.World();
    if K3Holds(env, p) && K7Holds(env, p) {
      if !K8Holds(env) && SomeEvidence(env) {
        var age, n, drops :| EvidenceGiven(env, age, n, drops);
        ShortEvidenceIsVetoed(s, p, age, n, drops);
        forall k: nat | k != 2 ensures !s.VetoedAt(k) { NoOtherVeto(s, 2, k); }
      } else if Unsaid(env, AGE) {
        MissingEvidenceIsWanted(s, p);
        forall m: nat | s.StoppedAt(m) ensures m == 3 { StopsAtTheEnd(s, p, m); }
        WantedIsListed(s, 2, AGE);
      }
    }
  }
}
