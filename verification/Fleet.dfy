/** Garbage collection of twin namespaces and databases. */
module Fleet {
  import opened Text
  import opened Naming

  /** A namespace carrying the incident label, which may be blank. */
  datatype Namespace = Namespace(incident: string, created: Option<real>)

  /** What garbage collection looks at: labelled namespaces, stamped databases, and this process's incidents. */
  datatype Cluster = Cluster(
    namespaces: map<string, Namespace>,
    databases: map<string, Option<real>>,
    active: set<string>)

  /** The API server's answer to a delete; 404 and 409 both count as reaped, but only 409 leaves the namespace there. */
  datatype Reply = Deleted | Absent | Conflict | Refused

  predicate Leaves(r: Reply) { r.Deleted? || r.Absent? }

  // ---------------------------------------------------------------- what is to go

  /** Long unused: not of an incident this process works on, and at least as old as the threshold. */
  predicate Stale(c: Cluster, name: string, now: real, threshold: real)
    requires name in c.namespaces
  {
    var ns := c.namespaces[name];
    && name != "" && !(ns.incident != "" && ns.incident in c.active)
    && (if ns.created.Some? then now - ns.created.value else 0.0) >= threshold
  }

  function ReapedNames(c: Cluster, now: real, threshold: real): set<string> {
    set n | n in c.namespaces && Stale(c, n, now, threshold)
  }

  function IncidentsOf(c: Cluster, names: set<string>): set<string> {
    set n | n in c.namespaces && n in names && c.namespaces[n].incident != "" :: c.namespaces[n].incident
  }

  predicate TakenWith(db: string, incidents: set<string>) {
    exists r :: r in incidents && CleanupPrefix(Norm(r)) <= db
  }

  /** Some namespace of the incident with this normal form outlives the reaping. */
  predicate Survives(c: Cluster, reaped: set<string>, clean: string) {
    exists n :: n in c.namespaces && Keeps(c, reaped, clean, n)
  }

  predicate Keeps(c: Cluster, reaped: set<string>, clean: string, n: string)
    requires n in c.namespaces
  {
    n != "" && n !in reaped && c.namespaces[n].incident != "" && Norm(c.namespaces[n].incident) == clean
  }

  predicate ActiveClean(c: Cluster, clean: string) { exists a :: a in c.active && Norm(a) == clean }

  function DatabaseAge(created: real, now: real): real { if now < created then 0.0 else now - created }

  predicate Orphan(c: Cluster, reaped: set<string>, db: string, now: real, threshold: real)
    requires db in c.databases
  {
    var clean := ParseTwin(db);
    && clean.Some? && !Survives(c, reaped, clean.value) && !ActiveClean(c, clean.value)
    && c.databases[db].Some? && DatabaseAge(c.databases[db].value, now) >= threshold
  }

  predicate Cleared(databases: set<string>, incident: string) {
    forall d :: d in databases ==> !(CleanupPrefix(Norm(incident)) <= d)
  }

  predicate AllCleared(databases: set<string>, incidents: seq<string>) {
    forall r :: r in incidents ==> Cleared(databases, r)
  }

  predicate AllTaken(databases: set<string>, dropped: set<string>, incidents: set<string>) {
    forall d :: d in dropped ==> d in databases && TakenWith(d, incidents)
  }

  lemma ClearedOfAll(databases: set<string>, order: seq<string>, incidents: set<string>, d: string)
    requires d in databases && AllCleared(databases, order) && forall r :: r in incidents ==> r in order
    ensures !TakenWith(d, incidents)
  {}

  lemma StillCleared(before: set<string>, after: set<string>, order: seq<string>)
    requires after <= before && AllCleared(before, order)
    ensures AllCleared(after, order)
  {}

  lemma StillTaken(start: map<string, Option<real>>, before: map<string, Option<real>>, dropped: set<string>,
                   more: set<string>, r: string, incidents: set<string>)
    requires before == start - dropped && AllTaken(start.Keys, dropped, incidents)
    requires AllTaken(before.Keys, more, {r}) && r in incidents
    ensures AllTaken(start.Keys, dropped + more, incidents)
  {}

  lemma StillForgets(start: set<string>, before: set<string>, after: set<string>, r: string, incidents: set<string>)
    requires OnlyForgets(start, before, incidents) && OnlyForgets(before, after, {r}) && r in incidents
    ensures OnlyForgets(start, after, incidents)
  {}

  function Taken(c: Cluster, now: real, threshold: real): set<string> {
    set d | d in c.databases && TakenWith(d, IncidentsOf(c, ReapedNames(c, now, threshold)))
  }

  function Orphans(c: Cluster, now: real, threshold: real): set<string> {
    set d | d in c.databases && Orphan(c, ReapedNames(c, now, threshold), d, now, threshold)
  }

  function Gone(reaped: set<string>, reply: string -> Reply): set<string> { set n | n in reaped && Leaves(reply(n)) }

  predicate AllDroppable(names: set<string>, accepts: string -> bool) {
    forall d :: d in names ==> Droppable(d, accepts)
  }

  /** The cluster after an undisturbed collection. */
  function Collected(c: Cluster, now: real, threshold: real, reply: string -> Reply): Cluster {
    var reaped := ReapedNames(c, now, threshold);
    Cluster(c.namespaces - Gone(reaped, reply),
            c.databases - (Taken(c, now, threshold) + Orphans(c, now, threshold)),
            c.active)
  }

  /** No delete and no drop that the collection comes to is refused. */
  predicate Undisturbed(c: Cluster, now: real, threshold: real, reply: string -> Reply, accepts: string -> bool) {
    && (forall n :: n in ReapedNames(c, now, threshold) ==> !reply(n).Refused?)
    && AllDroppable(Taken(c, now, threshold) + Orphans(c, now, threshold), accepts)
  }

  predicate Submap<V(==)>(a: map<string, V>, b: map<string, V>) { forall k :: k in a ==> k in b && a[k] == b[k] }

  /** On the way from one cluster to another, with nothing gone that the destination still has. */
  predicate Between(end: Cluster, c: Cluster, start: Cluster) {
    && Submap(end.namespaces, c.namespaces) && Submap(c.namespaces, start.namespaces)
    && Submap(end.databases, c.databases) && Submap(c.databases, start.databases)
  }

  lemma Partly(c: Cluster, reaped: set<string>, dropped: set<string>, now: real, threshold: real,
          reply: string -> Reply)
    requires reaped <= ReapedNames(c, now, threshold)
    requires dropped <= Taken(c, now, threshold) + Orphans(c, now, threshold)
    ensures Between(Collected(c, now, threshold, reply),
                    Cluster(c.namespaces - Gone(reaped, reply), c.databases - dropped, c.active), c)
  {}

  /** Labels are kept without surrounding spaces, as Kubernetes requires of label values. */
  predicate TrimmedLabels(c: Cluster) { forall n :: n in c.namespaces ==> Trimmed(c.namespaces[n].incident) }

  /** Unregistering strips the label it is given. */
  predicate ForgottenWith(a: string, incidents: set<string>) { exists r :: r in incidents && Strip(r) == a }

  /** What unregistering these incidents takes off the register; a blank label takes off nothing. */
  function Forgotten(incidents: set<string>): set<string> { (set r | r in incidents :: Strip(r)) - {""} }

  lemma ForgottenGrows(order: seq<string>, i: nat)
    requires i < |order|
    ensures Forgotten(ToSet(order[..i + 1])) == Forgotten(ToSet(order[..i])) + Forgotten({order[i]})
  {
    ToSetGrows(order, i);
  }

  predicate OnlyForgets(before: set<string>, after: set<string>, incidents: set<string>) {
    after <= before && forall a :: a in before && a !in after ==> ForgottenWith(a, incidents)
  }

  lemma NobodyForgotten(c: Cluster, reaped: set<string>, now: real, threshold: real)
    requires TrimmedLabels(c) && reaped <= ReapedNames(c, now, threshold)
    ensures forall a :: a in c.active ==> !ForgottenWith(a, IncidentsOf(c, reaped))
  {}

  /** `^[a-zA-Z0-9_]+$`. The newline its `$` also accepts never comes: listed and printed names are stripped. */
  predicate SafeName(s: string) {
    s != "" && forall k :: 0 <= k < |s| ==> IsAlnum(s[k]) || 'A' <= s[k] <= 'Z' || s[k] == '_'
  }

  ghost predicate Spells(c: char) { c in CAPITALS || c in SMALL || c in "0123456789_" }

  lemma SafeChar(c: char)
    ensures IsAlnum(c) || 'A' <= c <= 'Z' || c == '_' <==> Spells(c)
  {
    CapitalLetters(c);
    SmallLetters(c);
    DigitsAndUnderscore(c);
  }

  /** Letters, digits and underscores, and at least one. */
  lemma WhatIsSafe(s: string)
    ensures SafeName(s) <==> s != "" && forall k :: 0 <= k < |s| ==> Spells(s[k])
  {
    forall k | 0 <= k < |s| ensures (IsAlnum(s[k]) || 'A' <= s[k] <= 'Z' || s[k] == '_') == Spells(s[k]) {
      SafeChar(s[k]);
    }
  }

  lemma DigitsAndUnderscore(c: char)
    ensures '0' <= c <= '9' || c == '_' <==> c in "0123456789_"
  {
    var some := "0123456789_";
    if '0' <= c <= '9' { assert some[c as int - '0' as int] == c; }
    if c == '_' { assert some[10] == c; }
  }

  /** The SQL server drops the database when asked to. */
  predicate Droppable(d: string, accepts: string -> bool) { SafeName(d) && "twin_" <= d && accepts(d) }

  /** `LIKE 'twin_%'`, whose underscore stands for any character. */
  predicate LikeTwin(s: string) { "twin" <= s && |s| >= 5 }

  // ---------------------------------------------------------------- the object

  /** A listing in name order; nothing below depends on the order. */
  method InOrder(s: set<string>) returns (r: seq<string>)
    ensures forall x :: x in r <==> x in s
  {
    r := SortNames(s);
  }

  /** How one attempt to create and stamp a database goes. */
  datatype CloneAnswer = Created | Unstamped | InUse | Failed

  /** `max(1, max_retries)`. */
  function Attempts(maxRetries: int): nat { if maxRetries < 1 then 1 else maxRetries }

  /** The attempt whose answer decides: the first that is not about a template in use, or the last. */
  predicate EndsAt(answers: nat -> CloneAnswer, k: nat, attempts: nat) {
    && 1 <= k <= attempts && (forall j: nat :: 1 <= j < k ==> answers(j) == InUse)
    && (answers(k) == InUse ==> k == attempts)
  }

  function AfterAnswer(databases: map<string, Option<real>>, name: string, answer: CloneAnswer, now: real):
      map<string, Option<real>>
  {
    match answer
    case Created => databases[name := Some(now)]
    case Unstamped => databases[name := None]
    case _ => databases
  }

  /** A created database is stamped with the time, an unstamped one stays without; nothing else changes anything. */
  lemma WhatAnAnswerLeaves(databases: map<string, Option<real>>, name: string, now: real)
    ensures AfterAnswer(databases, name, Created, now) == databases[name := Some(now)]
    ensures AfterAnswer(databases, name, Unstamped, now) == databases[name := None]
    ensures AfterAnswer(databases, name, InUse, now) == AfterAnswer(databases, name, Failed, now) == databases
  {}

  lemma WhatAttemptsAre(maxRetries: int)
    ensures Attempts(maxRetries) >= 1 && (maxRetries >= 1 ==> Attempts(maxRetries) == maxRetries)
    ensures maxRetries < 1 ==> Attempts(maxRetries) == 1
  {}

  predicate IsStored(name: string) { Stored(name) == name }

  predicate AsStored(names: set<string>) { forall d {:trigger IsStored(d)} :: d in names ==> IsStored(d) }

  lemma OneLess<K, V>(m: map<K, V>, gone: set<K>, k: K)
    ensures (m - gone) - {k} == m - (gone + {k})
  {}

  class FleetTeardownManager {
    var namespaces: map<string, Namespace>
    var databases: map<string, Option<real>>
    var active: set<string>

    ghost function View(): Cluster
      reads this
    {
      Cluster(namespaces, databases, active)
    }

    /** The catalogue holds names as PostgreSQL stores unquoted ones. */
    ghost predicate Valid()
      reads this`databases
    {
      AsStored(databases.Keys)
    }

    constructor (namespaces: map<string, Namespace>, databases: map<string, Option<real>>, active: set<string>)
      requires AsStored(databases.Keys)
      ensures Valid() && View() == Cluster(namespaces, databases, active)
    {
      this.namespaces, this.databases, this.active := namespaces, databases, active;
    }

    method UnregisterActiveIncident(incident: string)
      modifies this`active
      ensures active == old(active) - (if Strip(incident) == "" then {} else {Strip(incident)})
    {
      var clean := Strip(incident);
      if clean != "" { active := active - {clean}; }
    }

    /** `accepts` answers for the SQL server; false is the FleetError of a refused name or a failed drop. */
    method DropTwinDatabase(name: string, accepts: string -> bool) returns (ok: bool)
      modifies this`databases
      ensures ok == Droppable(name, accepts)
      ensures databases == if ok then old(databases) - {Stored(name)} else old(databases)
    {
      ok := SafeName(name) && "twin_" <= name && accepts(name);
      if ok { databases := databases - {Stored(name)}; }
    }

    /** The retry loop: only a template in use is worth another attempt. A failed stamp leaves the database behind. */
    method CloneTwinDatabase(incident: string, index: int, hasTemplate: bool, maxRetries: int,
                             answers: nat -> CloneAnswer, clock: nat -> real) returns (cloned: bool)
      requires Valid()
      modifies this`databases
      ensures Valid()
      ensures var name := DatabaseName(incident, index);
              if name.None? || !SafeName(name.value) || !hasTemplate || Stored(name.value) in old(databases) then
                !cloned && databases == old(databases)
              else exists k: nat ::
                EndsAt(answers, k, Attempts(maxRetries)) && cloned == (answers(k) == Created)
                && databases == AfterAnswer(old(databases), Stored(name.value), answers(k), clock(k))
    {
      var name := DatabaseName(incident, index);
      if name.None? || !SafeName(name.value) || !hasTemplate { return false; }
      var stored := Stored(name.value);
      StoredIsStable(name.value);
      assert IsStored(stored);
      var attempt := 1;
      while true
        invariant 1 <= attempt <= Attempts(maxRetries) && databases == old(databases)
        invariant stored !in databases ==> forall j: nat :: 1 <= j < attempt ==> answers(j) == InUse
        decreases Attempts(maxRetries) - attempt
      {
        if stored in databases { return false; }
        match answers(attempt) {
          case Created =>
            databases := databases[stored := Some(clock(attempt))];
            return true;
          case Unstamped =>
            databases := databases[stored := None];
            return false;
          case Failed => return false;
          case InUse =>
            if attempt == Attempts(maxRetries) { return false; }
            attempt := attempt + 1;
        }
      }
    }

    /** Drops what starts with the incident's prefix, and stops at the first refusal. */
    method DropAllIncidentDatabases(incident: string, accepts: string -> bool) returns (dropped: seq<string>, ok: bool)
      requires Valid()
      modifies this`databases
      ensures Valid()
      ensures databases == old(databases) - ToSet(dropped)
      ensures forall d :: d in ToSet(dropped) ==> d in old(databases) && CleanupPrefix(Norm(incident)) <= d
      ensures ok ==> Cleared(databases.Keys, incident)
      ensures ok <==> forall d :: d in old(databases) && CleanupPrefix(Norm(incident)) <= d ==> Droppable(d, accepts)
    {
      var prefix := CleanupPrefix(Norm(incident));
      var listed := set d | d in databases && LikeTwin(d);
      var twins := InOrder(listed);
      var gone: set<string> := {};
      dropped, ok := [], true;
      for i := 0 to |twins|
        invariant gone == ToSet(dropped) && databases == old(databases) - gone
        invariant forall d :: d in gone ==> d in old(databases) && prefix <= d && Droppable(d, accepts)
        invariant forall k :: 0 <= k < i && prefix <= twins[k] ==> twins[k] in gone
      {
        var name := twins[i];
        assert name in twins;
        if prefix <= name {
          assert IsStored(name);
          ok := DropTwinDatabase(name, accepts);
          if !ok {
            assert name in old(databases) && prefix <= name && !Droppable(name, accepts);
            return;
          }
          dropped, gone := dropped + [name], gone + {name};
        }
      }
      forall d | d in old(databases) && prefix <= d ensures d in gone {
        PrefixListed(Norm(incident), d);
        assert d in listed && d in twins;
        var k :| 0 <= k < |twins| && twins[k] == d;
      }
    }

    /** The first phase: delete every stale namespace, or stop at a refused delete. */
    method ReapNamespaces(now: real, threshold: real, reply: string -> Reply)
        returns (reaped: set<string>, incidents: set<string>, ok: bool)
      modifies this`namespaces
      ensures reaped <= ReapedNames(old(View()), now, threshold)
      ensures incidents == IncidentsOf(old(View()), reaped)
      ensures namespaces == old(namespaces) - Gone(reaped, reply)
      ensures ok ==> reaped == ReapedNames(old(View()), now, threshold)
      ensures ok <==> forall n :: n in ReapedNames(old(View()), now, threshold) ==> !reply(n).Refused?
    {
      ghost var c := View();
      var items := InOrder(namespaces.Keys);
      var labelled := namespaces;
      reaped, incidents, ok := {}, {}, true;
      for i := 0 to |items|
        invariant c.namespaces == labelled && c.active == active
        invariant forall n :: n in reaped ==> n in labelled && Stale(c, n, now, threshold) && !reply(n).Refused?
        invariant forall k :: 0 <= k < i && items[k] in labelled && Stale(c, items[k], now, threshold) ==>
                    items[k] in reaped
        invariant incidents == IncidentsOf(c, reaped)
        invariant namespaces == labelled - Gone(reaped, reply)
      {
        var name := items[i];
        assert name in items;
        var ns := labelled[name];
        if name == "" { continue; }
        if ns.incident != "" && ns.incident in active { continue; }
        var age := if ns.created.Some? then now - ns.created.value else 0.0;
        if age >= threshold {
          if reply(name).Refused? {
            assert name in ReapedNames(c, now, threshold);
            ok := false;
            return;
          }
          if Leaves(reply(name)) { namespaces := namespaces - {name}; }
          IncidentsGrow(c, reaped, name);
          GoneGrows(reaped, reply, name);
          reaped := reaped + {name};
          if ns.incident != "" { incidents := incidents + {ns.incident}; }
        }
      }
      forall n | n in labelled && Stale(c, n, now, threshold) ensures n in reaped {
        var k :| 0 <= k < |items| && items[k] == n;
      }
    }

    method CleanUpAfter(incident: string, accepts: string -> bool) returns (dropped: seq<string>, ok: bool)
      requires Valid()
      modifies this`databases, this`active
      ensures Valid()
      ensures databases == old(databases) - ToSet(dropped)
      ensures AllTaken(old(databases).Keys, ToSet(dropped), {incident})
      ensures ok ==> Cleared(databases.Keys, incident)
      ensures ok <==> forall d :: d in old(databases) && CleanupPrefix(Norm(incident)) <= d ==> Droppable(d, accepts)
      ensures OnlyForgets(old(active), active, {incident})
      ensures ok ==> active == old(active) - Forgotten({incident})
    {
      dropped, ok := DropAllIncidentDatabases(incident, accepts);
      if ok {
        assert ForgottenWith(Strip(incident), {incident});
        UnregisterActiveIncident(incident);
      }
    }

    /** The second phase: every database of a reaped incident goes, and the incident is no longer registered. */
    method DropReaped(incidents: set<string>, accepts: string -> bool) returns (dropped: set<string>, ok: bool)
      requires Valid()
      modifies this`databases, this`active
      ensures Valid()
      ensures databases == old(databases) - dropped
      ensures AllTaken(old(databases).Keys, dropped, incidents)
      ensures ok ==> dropped == set d | d in old(databases) && TakenWith(d, incidents)
      ensures ok <==> forall d :: d in old(databases) && TakenWith(d, incidents) ==> Droppable(d, accepts)
      ensures OnlyForgets(old(active), active, incidents)
      ensures ok ==> active == old(active) - Forgotten(incidents)
    {
      var order := InOrder(incidents);
      dropped, ok := {}, true;
      for i := 0 to |order|
        invariant databases == old(databases) - dropped && AllTaken(old(databases).Keys, dropped, incidents)
        invariant forall d :: d in dropped ==> Droppable(d, accepts)
        invariant AllCleared(databases.Keys, order[..i])
        invariant OnlyForgets(old(active), active, incidents)
        invariant active == old(active) - Forgotten(ToSet(order[..i]))
      {
        ForgottenGrows(order, i);
        assert order[i] in order && order[i] in incidents;
        var dbs;
        ghost var before, known := databases, active;
        dbs, ok := CleanUpAfter(order[i], accepts);
        StillTaken(old(databases), before, dropped, ToSet(dbs), order[i], incidents);
        StillForgets(old(active), known, active, order[i], incidents);
        StillCleared(before.Keys, databases.Keys, order[..i]);
        assert order[..i + 1] == order[..i] + [order[i]];
        dropped := dropped + ToSet(dbs);
        if !ok {
          assert exists d :: d in before && TakenWith(d, incidents) && !Droppable(d, accepts);
          return;
        }
      }
      assert order[..|order|] == order && ToSet(order) == incidents;
      forall d | d in databases ensures !TakenWith(d, incidents) { ClearedOfAll(databases.Keys, order, incidents, d); }
    }

    /** The third phase: databases left without a namespace, an active incident, or youth. */
    method ReapOrphans(ghost c: Cluster, labels: map<string, Namespace>, reaped: set<string>, atStart: set<string>,
                       now: real, threshold: real, accepts: string -> bool) returns (dropped: set<string>, ok: bool)
      requires c == Cluster(labels, c.databases, atStart)
      requires databases.Keys <= c.databases.Keys && forall d :: d in databases ==> databases[d] == c.databases[d]
      requires Valid()
      modifies this`databases
      ensures Valid()
      ensures databases == old(databases) - dropped
      ensures forall d :: d in dropped ==> d in old(databases) && Orphan(c, reaped, d, now, threshold)
      ensures ok ==> dropped == set d | d in old(databases) && Orphan(c, reaped, d, now, threshold)
      ensures ok <==> forall d :: d in old(databases) && Orphan(c, reaped, d, now, threshold) ==> Droppable(d, accepts)
    {
      var infos := InOrder(set d | d in databases && LikeTwin(d));
      var ages := databases;
      ghost var orphans := set d | d in ages && Orphan(c, reaped, d, now, threshold);
      dropped, ok := {}, true;
      for i := 0 to |infos|
        invariant databases == ages - dropped
        invariant dropped <= orphans && forall d :: d in dropped ==> Droppable(d, accepts)
        invariant ToSet(infos[..i]) * orphans <= dropped
      {
        var name := infos[i];
        ToSetGrows(infos, i);
        assert name in infos;
        assert IsStored(name);
        var orphaned := IsOrphaned(c, labels, reaped, atStart, name, ages[name], now, threshold);
        if !orphaned { continue; }
        ok := DropTwinDatabase(name, accepts);
        if !ok {
          assert name in orphans && !Droppable(name, accepts);
          return;
        }
        OneLess(ages, dropped, name);
        dropped := dropped + {name};
      }
      assert infos[..|infos|] == infos;
      forall d | d in orphans ensures d in ToSet(infos) { ParsedIsListed(d); }
    }

    /** The tests one listed database is put to. */
    method IsOrphaned(ghost c: Cluster, labels: map<string, Namespace>, reaped: set<string>, atStart: set<string>,
                      name: string, created: Option<real>, now: real, threshold: real) returns (orphaned: bool)
      requires c == Cluster(labels, c.databases, atStart) && name in c.databases && c.databases[name] == created
      ensures orphaned == Orphan(c, reaped, name, now, threshold)
    {
      var clean := ParseTwin(name);
      if clean.None? { return false; }
      var hasActiveNs := exists n :: n in labels && n != "" && n !in reaped && labels[n].incident != ""
                                     && Norm(labels[n].incident) == clean.value;
      SurvivesMeans(c, reaped, clean.value);
      if hasActiveNs { return false; }
      if exists a :: a in atStart && Norm(a) == clean.value { return false; }
      orphaned := created.Some? && DatabaseAge(created.value, now) >= threshold;
    }

    method DropDatabases(ghost c: Cluster, labels: map<string, Namespace>, reaped: set<string>, incidents: set<string>,
                         atStart: set<string>, now: real, threshold: real, accepts: string -> bool)
        returns (ghost dropped: set<string>, ok: bool)
      requires c == Cluster(labels, databases, atStart) && active == atStart
      requires reaped == ReapedNames(c, now, threshold) && incidents == IncidentsOf(c, reaped)
      requires Valid()
      modifies this`databases, this`active
      ensures Valid()
      ensures databases == c.databases - dropped
      ensures OnlyForgets(atStart, active, incidents)
      ensures ok ==> active == atStart - Forgotten(incidents)
      ensures dropped <= Taken(c, now, threshold) + Orphans(c, now, threshold)
      ensures ok ==> dropped == Taken(c, now, threshold) + Orphans(c, now, threshold)
      ensures ok <==> AllDroppable(Taken(c, now, threshold) + Orphans(c, now, threshold), accepts)
    {
      var taken, orphans;
      taken, ok := DropReaped(incidents, accepts);
      dropped := taken;
      assert taken <= Taken(c, now, threshold);
      if !ok { return; }
      orphans, ok := ReapOrphans(c, labels, reaped, atStart, now, threshold, accepts);
      dropped := taken + orphans;
    }

    /** The whole collection; false stands for a FleetError, which leaves the rest undone. */
    method Gc(now: real, threshold: real, reply: string -> Reply, accepts: string -> bool) returns (ok: bool)
      requires Valid()
      modifies this
      ensures Valid()
      ensures ok ==> View() == Collected(old(View()), now, threshold, reply).(active := active)
      ensures ok ==> active == old(active) - Forgotten(ReapedIncidents(old(View()), now, threshold))
      ensures ok <==> Undisturbed(old(View()), now, threshold, reply, accepts)
      ensures active <= old(active) && (TrimmedLabels(old(View())) ==> active == old(active))
      ensures Between(Collected(old(View()), now, threshold, reply), View(), old(View()))
    {
      ghost var c := View();
      var labels, atStart := namespaces, active;
      var reaped, incidents, fine := ReapNamespaces(now, threshold, reply);
      if !fine {
        Partly(c, reaped, {}, now, threshold, reply);
        return false;
      }
      ghost var dropped;
      dropped, ok := DropDatabases(c, labels, reaped, incidents, atStart, now, threshold, accepts);
      Partly(c, reaped, dropped, now, threshold, reply);
      if TrimmedLabels(c) { NobodyForgotten(c, reaped, now, threshold); }
    }
  }

  lemma PrefixListed(clean: string, d: string)
    ensures CleanupPrefix(clean) <= d ==> LikeTwin(d)
  {
    assert "twin" <= CleanupPrefix(clean);
  }

  lemma ParsedIsListed(d: string)
    requires ParseTwin(d).Some?
    ensures LikeTwin(d)
  {
    assert "twin" <= "twin_" <= d;
  }

  lemma SurvivesMeans(c: Cluster, reaped: set<string>, clean: string)
    ensures Survives(c, reaped, clean) <==>
            exists n :: n in c.namespaces && n != "" && n !in reaped && c.namespaces[n].incident != ""
                        && Norm(c.namespaces[n].incident) == clean
  {
    forall n | n in c.namespaces && n != "" && n !in reaped && c.namespaces[n].incident != ""
               && Norm(c.namespaces[n].incident) == clean ensures Survives(c, reaped, clean) {
      assert Keeps(c, reaped, clean, n);
    }
  }

  lemma GoneGrows(names: set<string>, reply: string -> Reply, n: string)
    ensures Gone(names + {n}, reply) == Gone(names, reply) + (if Leaves(reply(n)) then {n} else {})
  {}

  lemma IncidentsGrow(c: Cluster, names: set<string>, n: string)
    requires n in c.namespaces
    ensures IncidentsOf(c, names + {n})
            == IncidentsOf(c, names) + (if c.namespaces[n].incident != "" then {c.namespaces[n].incident} else {})
  {}

  // ---------------------------------------------------------------- what a collection leaves alone

  /** Namespaces of active incidents stay, however old they are, whether or not the collection got to its end. */
  lemma ActiveNamespacesStay(c: Cluster, d: Cluster, n: string, now: real, threshold: real, reply: string -> Reply)
    requires Between(Collected(c, now, threshold, reply), d, c)
    requires n in c.namespaces && c.namespaces[n].incident != "" && c.namespaces[n].incident in c.active
    ensures n in d.namespaces && d.namespaces[n] == c.namespaces[n]
  {
    assert n in Collected(c, now, threshold, reply).namespaces;
  }

  /** Due to go: it has a name, no active incident, and was created the threshold ago or earlier. */
  ghost predicate Due(c: Cluster, n: string, now: real, threshold: real) {
    && n in c.namespaces && n != ""
    && (c.namespaces[n].incident == "" || c.namespaces[n].incident !in c.active)
    && match c.namespaces[n].created
       case Some(at) => at + threshold <= now
       case None => threshold <= 0.0
  }

  lemma ReapedMeansDue(c: Cluster, n: string, now: real, threshold: real)
    ensures n in ReapedNames(c, now, threshold) <==> Due(c, n, now, threshold)
  {}

  /** A namespace goes exactly when it is due and its delete takes it away; the others are as they were. */
  lemma WhenANamespaceGoes(c: Cluster, n: string, now: real, threshold: real, reply: string -> Reply)
    requires n in c.namespaces
    ensures n !in Collected(c, now, threshold, reply).namespaces <==>
            Due(c, n, now, threshold) && (reply(n) == Deleted || reply(n) == Absent)
    ensures n in Collected(c, now, threshold, reply).namespaces ==>
              Collected(c, now, threshold, reply).namespaces[n] == c.namespaces[n]
  {
    ReapedMeansDue(c, n, now, threshold);
  }

  /** A due namespace whose incident's databases start like this one. */
  ghost predicate GoesWith(c: Cluster, db: string, n: string, now: real, threshold: real) {
    && Due(c, n, now, threshold) && c.namespaces[n].incident != ""
    && "twin_" + Norm(c.namespaces[n].incident) + "_" <= db
  }

  /** A namespace of the incident with this normal form that is not due. */
  ghost predicate Lives(c: Cluster, clean: string, n: string, now: real, threshold: real) {
    && n in c.namespaces && n != "" && !Due(c, n, now, threshold)
    && c.namespaces[n].incident != "" && Norm(c.namespaces[n].incident) == clean
  }

  /** An old twin database of an incident that is neither active nor has a namespace left. */
  ghost predicate Forsaken(c: Cluster, db: string, group: string, now: real, threshold: real) {
    && (exists digits :: Matches(db, group, digits))
    && (forall n :: !Lives(c, group, n, now, threshold)) && (forall a :: a in c.active ==> Norm(a) != group)
    && db in c.databases && c.databases[db].Some?
    && (c.databases[db].value + threshold <= now || threshold <= 0.0)
  }

  /** A database goes exactly with a due namespace of its incident, or forsaken. */
  lemma WhenADatabaseGoes(c: Cluster, db: string, now: real, threshold: real, reply: string -> Reply)
    requires db in c.databases
    ensures db !in Collected(c, now, threshold, reply).databases <==>
            (exists n :: GoesWith(c, db, n, now, threshold)) || (exists group :: Forsaken(c, db, group, now, threshold))
    ensures db in Collected(c, now, threshold, reply).databases ==>
              Collected(c, now, threshold, reply).databases[db] == c.databases[db]
  {
    forall n { ReapedMeansDue(c, n, now, threshold); }
    TakenMeansGoes(c, db, now, threshold);
    OrphanMeansForsaken(c, db, now, threshold);
  }

  lemma TakenMeansGoes(c: Cluster, db: string, now: real, threshold: real)
    ensures TakenWith(db, IncidentsOf(c, ReapedNames(c, now, threshold))) <==>
            exists n :: GoesWith(c, db, n, now, threshold)
  {
    forall n { ReapedMeansDue(c, n, now, threshold); }
    if TakenWith(db, IncidentsOf(c, ReapedNames(c, now, threshold))) {
      var r :| r in IncidentsOf(c, ReapedNames(c, now, threshold)) && CleanupPrefix(Norm(r)) <= db;
      var n :| n in c.namespaces && n in ReapedNames(c, now, threshold) && c.namespaces[n].incident == r;
      assert GoesWith(c, db, n, now, threshold);
    }
    if n :| GoesWith(c, db, n, now, threshold) {
      var r := c.namespaces[n].incident;
      assert r in IncidentsOf(c, ReapedNames(c, now, threshold)) && CleanupPrefix(Norm(r)) <= db;
    }
  }

  lemma SurvivesMeansLives(c: Cluster, clean: string, now: real, threshold: real)
    ensures Survives(c, ReapedNames(c, now, threshold), clean) <==> exists n :: Lives(c, clean, n, now, threshold)
  {
    var reaped := ReapedNames(c, now, threshold);
    forall n | n in c.namespaces ensures Keeps(c, reaped, clean, n) <==> Lives(c, clean, n, now, threshold) {
      ReapedMeansDue(c, n, now, threshold);
    }
    if n :| Lives(c, clean, n, now, threshold) { assert Keeps(c, reaped, clean, n); }
  }

  lemma OrphanMeansForsaken(c: Cluster, db: string, now: real, threshold: real)
    requires db in c.databases
    ensures Orphan(c, ReapedNames(c, now, threshold), db, now, threshold) <==>
            exists group :: Forsaken(c, db, group, now, threshold)
  {
    var parsed := ParseTwin(db);
    if parsed.Some? { OrphanOfGroup(c, db, parsed.value, now, threshold); }
    forall group | Forsaken(c, db, group, now, threshold) ensures parsed == Some(group) {
      ParseIsTheMatch(db, group);
    }
  }

  lemma OrphanOfGroup(c: Cluster, db: string, group: string, now: real, threshold: real)
    requires db in c.databases && ParseTwin(db) == Some(group)
    ensures Orphan(c, ReapedNames(c, now, threshold), db, now, threshold) <==> Forsaken(c, db, group, now, threshold)
  {
    ParseIsTheMatch(db, group);
    SurvivesMeansLives(c, group, now, threshold);
  }

  function ReapedIncidents(c: Cluster, now: real, threshold: real): set<string> {
    IncidentsOf(c, ReapedNames(c, now, threshold))
  }

  /** Cleaning up after `r` reaches the databases of the incident with normal form `a`. */
  predicate Reaches(r: string, a: string) { Norm(r) == a || Norm(r) + "_" <= a }

  lemma TakenMeansReached(db: string, clean: string, digits: string, incidents: set<string>)
    requires Matches(db, clean, digits)
    ensures TakenWith(db, incidents) <==> exists r :: r in incidents && Reaches(r, clean)
  {
    forall r | r in incidents ensures CleanupPrefix(Norm(r)) <= db <==> Reaches(r, clean) {
      PrefixTakes(Norm(r), clean, digits);
      PrefixOfLine(CleanupPrefix(Norm(r)), db, NumberedName(clean, digits));
    }
  }

  /** A database that parses stays exactly when no reaped incident reaches it and it is not a provably old orphan. */
  lemma WhenTwinDatabasesStay(c: Cluster, db: string, clean: string, now: real, threshold: real, reply: string -> Reply)
    requires db in c.databases && ParseTwin(db) == Some(clean)
    ensures db in Collected(c, now, threshold, reply).databases <==>
              && (forall r :: r in ReapedIncidents(c, now, threshold) ==> !Reaches(r, clean))
              && (Survives(c, ReapedNames(c, now, threshold), clean) || ActiveClean(c, clean)
                  || c.databases[db].None? || DatabaseAge(c.databases[db].value, now) < threshold)
  {
    ParseIsTheMatch(db, clean);
    var digits :| Matches(db, clean, digits);
    TakenMeansReached(db, clean, digits, ReapedIncidents(c, now, threshold));
  }

  /** One that does not parse is dropped only under a prefix. */
  lemma UnparsedDatabasesAreNoOrphans(c: Cluster, db: string, now: real, threshold: real, reply: string -> Reply)
    requires db in c.databases && ParseTwin(db) == None
    ensures db in Collected(c, now, threshold, reply).databases <==> !TakenWith(db, ReapedIncidents(c, now, threshold))
  {}

  /** The clean-up of an active incident recognises its stored databases. */
  predicate Recognisable(incident: string) {
    var clean := Norm(incident);
    clean != "" && '\n' !in clean && Lower(clean) == clean && |clean| <= NAME_LIMIT - 7
  }

  /** A recognisable active incident keeps its databases exactly when no reaped incident reaches it. */
  lemma ActiveDatabasesStay(c: Cluster, a: string, index: nat, now: real, threshold: real, reply: string -> Reply)
    requires a in c.active && Recognisable(a) && Stored(TwinName(Norm(a), index)) in c.databases
    ensures Stored(TwinName(Norm(a), index)) in Collected(c, now, threshold, reply).databases <==>
            forall r :: r in ReapedIncidents(c, now, threshold) ==> !Reaches(r, Norm(a))
  {
    StoredTwinIsRecognised(Norm(a), Decimal(index));
    WhenTwinDatabasesStay(c, Stored(TwinName(Norm(a), index)), Norm(a), now, threshold, reply);
  }

  /** No incident's normal form equals another's, or another's followed by an underscore and more. */
  predicate PrefixFree(incidents: set<string>) {
    forall r, a :: r in incidents && a in incidents && r != a ==> !Reaches(r, Norm(a))
  }

  function Incidents(c: Cluster): set<string> { c.active + set n | n in c.namespaces :: c.namespaces[n].incident }

  /** So with prefix-free incidents nothing of an active incident is lost, even by a collection that fails half-way. */
  lemma PrefixFreeIncidentsAreSafe(c: Cluster, d: Cluster, a: string, index: nat, now: real, threshold: real,
          reply: string -> Reply)
    requires PrefixFree(Incidents(c)) && Between(Collected(c, now, threshold, reply), d, c)
    requires a in c.active && Recognisable(a) && Stored(TwinName(Norm(a), index)) in c.databases
    ensures Stored(TwinName(Norm(a), index)) in d.databases
  {
    ActiveDatabasesStay(c, a, index, now, threshold, reply);
    forall r | r in ReapedIncidents(c, now, threshold) ensures !Reaches(r, Norm(a)) {
      assert r !in c.active && r in Incidents(c);
    }
  }

  /** A stale namespace of `inc` and a fresh database of the active `inc-2`. */
  function TwoIncidents(): Cluster {
    Cluster(map["ust-twin-inc-0" := Namespace("inc", Some(0.0))], map["twin_inc_2_0" := Some(7000.0)], {"inc-2"})
  }

  /** Prefix-freedom is needed: reaping `inc` takes the database of the active `inc-2`. */
  lemma ReapingReachesALongerIncident(reply: string -> Reply)
    ensures "twin_inc_2_0" !in Collected(TwoIncidents(), 7200.0, 3600.0, reply).databases
  {
    var c := TwoIncidents();
    assert Stale(c, "ust-twin-inc-0", 7200.0, 3600.0);
    assert "inc" in IncidentsOf(c, ReapedNames(c, 7200.0, 3600.0)) by {
      assert c.namespaces["ust-twin-inc-0"].incident == "inc";
    }
    assert Underscored("inc") == "inc";
    assert CleanupPrefix("inc") == "twin_inc_" <= "twin_inc_2_0";
    assert TakenWith("twin_inc_2_0", IncidentsOf(c, ReapedNames(c, 7200.0, 3600.0)));
  }

  /** A lone active incident with one old database and its namespace alive. */
  function Lone(incident: string, db: string): Cluster {
    Cluster(map["ust-twin-0" := Namespace(incident, Some(0.0))], map[db := Some(0.0)], {incident})
  }

  /** Read as another incident's, a database past the threshold is dropped, active incident and namespace or not. */
  lemma MistakenDatabaseIsDropped(incident: string, db: string, clean: string, reply: string -> Reply)
    requires incident != "" && ParseTwin(db) == Some(clean) && Norm(incident) != clean
    ensures db !in Collected(Lone(incident, db), 7200.0, 3600.0, reply).databases
  {
    var c := Lone(incident, db);
    WhenTwinDatabasesStay(c, db, clean, 7200.0, 3600.0, reply);
    assert !ActiveClean(c, clean) && !Survives(c, ReapedNames(c, 7200.0, 3600.0), clean);
  }

  /** A capital letter hides an active incident from the clean-up: its database is stored in lower case. */
  lemma CapitalsHideAnActiveIncident(incident: string, index: nat, reply: string -> Reply)
    requires Norm(incident) != "" && '\n' !in Norm(incident) && |Norm(incident)| <= NAME_LIMIT - 7
    requires Lower(Norm(incident)) != Norm(incident)
    ensures var db := Stored(TwinName(Norm(incident), index));
            db !in Collected(Lone(incident, db), 7200.0, 3600.0, reply).databases
  {
    var clean := Norm(incident);
    StoredName(clean, Decimal(index));
    forall k | 0 <= k < |clean| ensures Lower(clean)[k] != '\n' {
      assert Lower(clean)[k] == LowerChar(clean[k]) && clean[k] in clean;
    }
    assert Matches(Stored(TwinName(clean, index)), Lower(clean), KeptDigits(|clean|, Decimal(index)));
    ParseIsTheMatch(Stored(TwinName(clean, index)), Lower(clean));
    MistakenDatabaseIsDropped(incident, Stored(TwinName(clean, index)), Lower(clean), reply);
  }

  /** So does length: `inc_` and 54 digits or more are cut to a name that reads as a database of `inc`. */
  lemma LengthHidesAnActiveIncident(digits: string, index: nat, reply: string -> Reply)
    requires AllDigits(digits) && |digits| >= 54
    ensures var incident := "inc_" + digits;
            var db := Stored(TwinName(incident, index));
            Norm(incident) == incident && db !in Collected(Lone(incident, db), 7200.0, 3600.0, reply).databases
  {
    var incident := "inc_" + digits;
    LongIncidentIsNormal(digits);
    LongNameIsCut(digits, index);
    ParseIsTheMatch(Stored(TwinName(incident, index)), "inc");
    MistakenDatabaseIsDropped(incident, Stored(TwinName(incident, index)), "inc", reply);
  }

  lemma LongIncidentIsNormal(digits: string)
    requires AllDigits(digits)
    ensures Norm("inc_" + digits) == "inc_" + digits
  {
    var a := "inc_" + digits;
    forall k | 0 <= k < |a| ensures a[k] != '-' {
      if k >= 4 { assert a[k] == digits[k - 4] && IsDigit(a[k]); }
    }
    assert Underscored(a) == a;
    assert IsDigit(a[|a| - 1]) by { assert a[|a| - 1] == digits[|digits| - 1]; }
  }

  lemma LongNameIsCut(digits: string, index: nat)
    requires AllDigits(digits) && |digits| >= 54
    ensures Matches(Stored(TwinName("inc_" + digits, index)), "inc", digits[..54])
  {
    var name, cut := TwinName("inc_" + digits, index), "twin_" + "inc" + "_" + digits[..54];
    assert name == "twin_inc_" + digits + "_" + Decimal(index);
    forall k | 0 <= k < 63 ensures Stored(name)[k] == cut[k] {
      if k >= 9 {
        assert name[k] == digits[k - 9] == cut[k] && IsDigit(digits[k - 9]);
      } else {
        assert name[k] == "twin_inc_"[k] == cut[k];
      }
    }
    assert Stored(name) == cut;
  }

  /** A database dropped as an orphan was stamped long ago; its incident is inactive and without a namespace. */
  lemma OrphansAreAbandoned(c: Cluster, incident: string, index: nat, now: real, threshold: real)
    requires var db := TwinName(Norm(incident), index); db in Orphans(c, now, threshold)
    requires Norm(incident) != "" && '\n' !in Norm(incident)
    ensures incident !in c.active
    ensures forall n :: n in c.namespaces && n != "" && c.namespaces[n].incident == incident && incident != "" ==>
              n in ReapedNames(c, now, threshold)
    ensures var created := c.databases[TwinName(Norm(incident), index)];
            created.Some? && (now - created.value >= threshold || threshold <= 0.0)
  {
    PrinterParses(Norm(incident), index);
    var reaped := ReapedNames(c, now, threshold);
    assert !Survives(c, reaped, Norm(incident));
    forall n | n in c.namespaces && n != "" && c.namespaces[n].incident == incident && incident != ""
      ensures n in reaped
    {
      assert !Keeps(c, reaped, Norm(incident), n);
    }
  }

  /** Nothing but twin databases is ever dropped. */
  lemma OtherDatabasesStay(c: Cluster, db: string, now: real, threshold: real, reply: string -> Reply)
    requires db in c.databases && !("twin_" <= db)
    ensures db in Collected(c, now, threshold, reply).databases
  {
    forall r ensures !(CleanupPrefix(Norm(r)) <= db) {
      assert "twin_" <= CleanupPrefix(Norm(r));
    }
  }

  /** A second collection at the same time drops no database and deletes only namespaces the first delete left. */
  lemma SecondCollectionDeletesNothing(c: Cluster, now: real, threshold: real, reply: string -> Reply,
          again: string -> Reply)
    ensures var d := Collected(c, now, threshold, reply);
            && Collected(d, now, threshold, again).databases == d.databases
            && (Collected(d, now, threshold, again) == d <==>
                forall n :: n in ReapedNames(c, now, threshold) ==> Leaves(reply(n)) || !Leaves(again(n)))
  {
    var reaped, d := ReapedNames(c, now, threshold), Collected(c, now, threshold, reply);
    StaleIsWhatStayed(c, d, now, threshold, reply);
    NothingIsTakenAgain(c, d, now, threshold, reply);
    NoOrphanIsLeft(c, d, now, threshold, reply);
    assert d.databases - ({} + {}) == d.databases;
    var more := Gone(ReapedNames(d, now, threshold), again);
    assert forall n :: n in more <==> n in reaped && !Leaves(reply(n)) && Leaves(again(n));
    assert d.namespaces - more == d.namespaces <==> more == {} by {
      if n :| n in more { assert n in d.namespaces && n !in d.namespaces - more; }
    }
  }

  /** What is stale now was stale before, and its delete did not take it away. */
  lemma StaleIsWhatStayed(c: Cluster, d: Cluster, now: real, threshold: real, reply: string -> Reply)
    requires d.namespaces == c.namespaces - Gone(ReapedNames(c, now, threshold), reply) && d.active == c.active
    ensures ReapedNames(d, now, threshold) == set n | n in ReapedNames(c, now, threshold) && !Leaves(reply(n))
  {
    forall n | n in d.namespaces ensures Stale(d, n, now, threshold) == Stale(c, n, now, threshold) {}
  }

  lemma NothingIsTakenAgain(c: Cluster, d: Cluster, now: real, threshold: real, reply: string -> Reply)
    requires d == Collected(c, now, threshold, reply)
    ensures Taken(d, now, threshold) == {}
  {
    StaleIsWhatStayed(c, d, now, threshold, reply);
    var before, after := ReapedIncidents(c, now, threshold), ReapedIncidents(d, now, threshold);
    assert after <= before;
    forall db | db in d.databases ensures !TakenWith(db, after) {
      assert !TakenWith(db, before);
    }
  }

  lemma NoOrphanIsLeft(c: Cluster, d: Cluster, now: real, threshold: real, reply: string -> Reply)
    requires d == Collected(c, now, threshold, reply)
    ensures Orphans(d, now, threshold) == {}
  {
    StaleIsWhatStayed(c, d, now, threshold, reply);
    var reaped := ReapedNames(d, now, threshold);
    forall db | db in d.databases ensures !Orphan(d, reaped, db, now, threshold) {
      assert db !in Orphans(c, now, threshold);
      if ParseTwin(db).Some? { SameSurvivors(c, d, ReapedNames(c, now, threshold), reaped, ParseTwin(db).value); }
    }
  }

  lemma SameSurvivors(c: Cluster, d: Cluster, reaped: set<string>, again: set<string>, clean: string)
    requires forall n :: n in d.namespaces ==> n in c.namespaces && d.namespaces[n] == c.namespaces[n]
    requires forall n :: n in c.namespaces && n !in reaped ==> n in d.namespaces && n !in again
    requires forall n :: n in d.namespaces && n !in again ==> n !in reaped
    ensures Survives(d, again, clean) == Survives(c, reaped, clean)
  {
    if n :| n in d.namespaces && Keeps(d, again, clean, n) { assert Keeps(c, reaped, clean, n); }
    if n :| n in c.namespaces && Keeps(c, reaped, clean, n) { assert Keeps(d, again, clean, n); }
  }
}
