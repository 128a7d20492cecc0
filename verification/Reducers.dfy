/** The keyed state reducers (plans, twins, evidence): an ordered upsert by id. */
module Reducers {
  import opened Text

  function Keys<T>(s: seq<T>, key: T -> string): (r: seq<string>)
    ensures |r| == |s| && forall i :: 0 <= i < |s| ==> r[i] == key(s[i])
  {
    seq(|s|, i requires 0 <= i < |s| => key(s[i]))
  }

  /** `{x.id: x for x in s}`: the last value of an id wins. */
  function View<T>(s: seq<T>, key: T -> string): (m: map<string, T>)
    ensures forall k :: k in m ==> key(m[k]) == k
  {
    if s == [] then map[] else
      var last := s[|s| - 1];
      View(s[..|s| - 1], key)[key(last) := last]
  }

  /** The ids of that dict in order: each where it first appears. */
  function Order<T>(s: seq<T>, key: T -> string): seq<string> {
    if s == [] then [] else
      var before, k := Order(s[..|s| - 1], key), key(s[|s| - 1]);
      if k in before then before else before + [k]
  }

  function Minus(s: seq<string>, gone: set<string>): seq<string> {
    if s == [] then [] else
      var before, k := Minus(s[..|s| - 1], gone), s[|s| - 1];
      if k in gone then before else before + [k]
  }

  /** The first list item of an id takes the update's value. */
  function Merged<T>(current: seq<T>, update: map<string, T>, key: T -> string): seq<T> {
    if current == [] then [] else
      var most, x := current[..|current| - 1], current[|current| - 1];
      var k := key(x);
      Merged(most, update, key) + [if k in update && k !in Keys(most, key) then update[k] else x]
  }

  function ValuesOf<T>(m: map<string, T>, ids: seq<string>): seq<T>
    requires forall k :: k in ids ==> k in m
  {
    seq(|ids|, i requires 0 <= i < |ids| => m[ids[i]])
  }

  /** The update's ids that are new, in its order. */
  function NewIds<T>(current: seq<T>, update: seq<T>, key: T -> string): (r: seq<string>)
    ensures forall k :: k in r ==> k in View(update, key)
  {
    OrderListsKeys(update, key);
    MinusHolds(Order(update, key), ToSet(Keys(current, key)));
    Minus(Order(update, key), ToSet(Keys(current, key)))
  }

  function Reduced<T>(current: seq<T>, update: seq<T>, key: T -> string): seq<T> {
    if current == [] then update
    else Merged(current, View(update, key), key) + ValuesOf(View(update, key), NewIds(current, update, key))
  }

  lemma {:induction false} MinusHolds(s: seq<string>, gone: set<string>)
    ensures forall k :: k in Minus(s, gone) <==> k in s && k !in gone
  {
    if s != [] {
      MinusHolds(s[..|s| - 1], gone);
      assert s == s[..|s| - 1] + [s[|s| - 1]];
    }
  }

  lemma {:induction false} OrderListsKeys<T>(s: seq<T>, key: T -> string)
    ensures forall k :: k in Order(s, key) <==> k in View(s, key)
    ensures forall k :: k in View(s, key) <==> k in Keys(s, key)
  {
    if s != [] {
      OrderListsKeys(s[..|s| - 1], key);
      assert Keys(s, key) == Keys(s[..|s| - 1], key) + [key(s[|s| - 1])];
    }
  }

  /** Pop each current id from the dict. */
  method PopCurrent<T>(current: seq<T>, update: map<string, T>, key: T -> string) returns (result: seq<T>,
          rest: map<string, T>)
    ensures result == Merged(current, update, key) && rest == update - ToSet(Keys(current, key))
  {
    result, rest := [], update;
    assert Keys(current[..0], key) == [];
    for i := 0 to |current|
      invariant result == Merged(current[..i], update, key)
      invariant rest == update - ToSet(Keys(current[..i], key))
    {
      var x := current[i];
      assert current[..i + 1][..i] == current[..i];
      assert Keys(current[..i + 1], key) == Keys(current[..i], key) + [key(x)];
      if key(x) in rest {
        result := result + [rest[key(x)]];
        rest := rest - {key(x)};
      } else {
        result := result + [x];
      }
    }
    assert current[..|current|] == current;
  }

  /** The loop over the current list, then what is left of the dict. */
  method Reduce<T>(current: seq<T>, update: Option<seq<T>>, key: T -> string) returns (result: seq<T>)
    ensures result == if update.None? then current else Reduced(current, update.value, key)
  {
    if update.None? { return current; }
    var validated := update.value;
    if current == [] { return validated; }
    var rest;
    result, rest := PopCurrent(current, View(validated, key), key);
    OrderListsKeys(validated, key);
    var left := Leftover(rest, Order(validated, key), ToSet(Keys(current, key)));
    assert left == ValuesOf(View(validated, key), NewIds(current, validated, key));
    result := result + left;
  }

  /** `updated_by_id.values()` after the pops. */
  method Leftover<T>(rest: map<string, T>, order: seq<string>, gone: set<string>) returns (r: seq<T>)
    requires forall k :: k in order && k !in gone ==> k in rest
    ensures forall k :: k in Minus(order, gone) ==> k in rest
    ensures r == ValuesOf(rest, Minus(order, gone))
  {
    r := [];
    ghost var ids: seq<string> := [];
    for i := 0 to |order|
      invariant ids == Minus(order[..i], gone) && forall k :: k in ids ==> k in rest
      invariant r == ValuesOf(rest, ids)
    {
      var k := order[i];
      assert order[..i + 1][..i] == order[..i] && k in order;
      if k !in gone {
        r, ids := r + [rest[k]], ids + [k];
      }
    }
    assert order[..|order|] == order;
  }

  // ---------------------------------------------------------------- what the result is

  ghost predicate NoDuplicates<T>(s: seq<T>, key: T -> string) { Distinct(Keys(s, key)) }

  lemma {:induction false} MinusDistinct(s: seq<string>, gone: set<string>)
    requires Distinct(s)
    ensures Distinct(Minus(s, gone))
  {
    if s != [] {
      MinusDistinct(s[..|s| - 1], gone);
      MinusHolds(s[..|s| - 1], gone);
    }
  }

  lemma {:induction false} OrderDistinct<T>(s: seq<T>, key: T -> string)
    ensures Distinct(Order(s, key))
    ensures NoDuplicates(s, key) ==> Order(s, key) == Keys(s, key)
  {
    if s != [] {
      var most := s[..|s| - 1];
      OrderDistinct(most, key);
      assert Keys(s, key) == Keys(most, key) + [key(s[|s| - 1])];
      if NoDuplicates(s, key) {
        assert forall i :: 0 <= i < |most| ==> Keys(s, key)[i] == Keys(most, key)[i];
      }
    }
  }

  lemma {:induction false} MergedKeys<T>(current: seq<T>, update: map<string, T>, key: T -> string)
    requires forall k :: k in update ==> key(update[k]) == k
    ensures Keys(Merged(current, update, key), key) == Keys(current, key)
  {
    if current != [] {
      var most := current[..|current| - 1];
      MergedKeys(most, update, key);
      assert Keys(current, key) == Keys(most, key) + [key(current[|current| - 1])];
    }
  }

  /** Current ids keep their places; the update's new ids follow in the update's order. */
  lemma ReducedKeys<T>(current: seq<T>, update: seq<T>, key: T -> string)
    ensures Keys(Reduced(current, update, key), key) ==
            if current == [] then Keys(update, key)
            else Keys(current, key) + NewIds(current, update, key)
  {
    if current != [] {
      MergedKeys(current, View(update, key), key);
      ValuesOfKeys(View(update, key), NewIds(current, update, key), key);
    }
  }

  lemma ValuesOfKeys<T>(m: map<string, T>, ids: seq<string>, key: T -> string)
    requires forall k :: k in m ==> key(m[k]) == k
    requires forall k :: k in ids ==> k in m
    ensures Keys(ValuesOf(m, ids), key) == ids
  {}

  lemma {:induction false} ViewHolds<T>(s: seq<T>, key: T -> string)
    ensures forall k :: k in View(s, key) <==> k in Keys(s, key)
    ensures NoDuplicates(s, key) ==> forall i :: 0 <= i < |s| ==> View(s, key)[key(s[i])] == s[i]
  {
    OrderListsKeys(s, key);
    if s != [] {
      var most := s[..|s| - 1];
      ViewHolds(most, key);
      assert Keys(s, key) == Keys(most, key) + [key(s[|s| - 1])];
      if NoDuplicates(s, key) {
        assert forall i :: 0 <= i < |most| ==> Keys(s, key)[i] == Keys(most, key)[i];
        forall i | 0 <= i < |s| ensures View(s, key)[key(s[i])] == s[i] {
          if i < |most| { assert key(s[i]) == Keys(s, key)[i] != Keys(s, key)[|most|]; }
        }
      }
    }
  }

  lemma {:induction false} MergedAt<T>(current: seq<T>, update: map<string, T>, key: T -> string)
    requires NoDuplicates(current, key)
    ensures |Merged(current, update, key)| == |current|
    ensures forall i :: 0 <= i < |current| ==>
              Merged(current, update, key)[i]
                == if key(current[i]) in update then update[key(current[i])] else current[i]
  {
    if current != [] {
      var most, x := current[..|current| - 1], current[|current| - 1];
      assert Keys(current, key) == Keys(most, key) + [key(x)];
      assert forall i :: 0 <= i < |most| ==> Keys(current, key)[i] == Keys(most, key)[i];
      MergedAt(most, update, key);
      assert key(x) !in Keys(most, key);
    }
  }

  /** No id comes twice, whatever the update repeats, unless nothing was there to reduce onto. */
  lemma ReducedHasNoDuplicates<T>(current: seq<T>, update: seq<T>, key: T -> string)
    ensures NoDuplicates(Reduced(current, update, key), key) <==>
            NoDuplicates(current, key) && (current == [] ==> NoDuplicates(update, key))
  {
    ReducedKeys(current, update, key);
    if current != [] {
      var ks, added := Keys(current, key), NewIds(current, update, key);
      OrderDistinct(update, key);
      MinusDistinct(Order(update, key), ToSet(ks));
      MinusHolds(Order(update, key), ToSet(ks));
      DistinctConcat(ks, added);
    }
  }

  lemma DistinctConcat(a: seq<string>, b: seq<string>)
    requires Distinct(b) && forall k :: k in b ==> k !in a
    ensures Distinct(a + b) <==> Distinct(a)
  {
    assert forall i :: 0 <= i < |a| ==> (a + b)[i] == a[i];
    assert forall i :: |a| <= i < |a| + |b| ==> (a + b)[i] == b[i - |a|] && b[i - |a|] in b;
  }

  /** The id-to-value view is the current one overridden by the update. */
  lemma ReducedView<T>(current: seq<T>, update: seq<T>, key: T -> string)
    requires NoDuplicates(current, key)
    ensures View(Reduced(current, update, key), key) == View(current, key) + View(update, key)
  {
    if current == [] {
      assert View(current, key) == map[];
    } else {
      var m, r := View(update, key), Reduced(current, update, key);
      var added := NewIds(current, update, key);
      ReducedHasNoDuplicates(current, update, key);
      ReducedKeys(current, update, key);
      ViewHolds(r, key);
      ViewHolds(current, key);
      MergedAt(current, m, key);
      OrderListsKeys(update, key);
      MinusHolds(Order(update, key), ToSet(Keys(current, key)));
      forall k ensures k in View(r, key) <==> k in View(current, key) + m {
        assert k in Keys(r, key) <==> k in Keys(current, key) || k in added;
      }
      forall k | k in View(r, key) ensures View(r, key)[k] == (View(current, key) + m)[k] {
        var i :| 0 <= i < |r| && Keys(r, key)[i] == k;
        ReducedValue(current, update, key, i);
      }
    }
  }

  lemma ReducedValue<T>(current: seq<T>, update: seq<T>, key: T -> string, i: nat)
    requires NoDuplicates(current, key) && current != [] && i < |Reduced(current, update, key)|
    ensures var x := Reduced(current, update, key)[i];
            if key(x) in View(update, key) then x == View(update, key)[key(x)]
            else key(x) in View(current, key) && x == View(current, key)[key(x)]
  {
    var m := View(update, key);
    MergedAt(current, m, key);
    ViewHolds(current, key);
    if i < |current| {
      assert key(current[i]) == Keys(current, key)[i];
    } else {
      assert NewIds(current, update, key)[i - |current|] in NewIds(current, update, key);
    }
  }

  /** Ids in order and the view determine a list without duplicates. */
  lemma SameKeysSameView<T>(a: seq<T>, b: seq<T>, key: T -> string)
    requires NoDuplicates(a, key) && NoDuplicates(b, key)
    requires Keys(a, key) == Keys(b, key) && View(a, key) == View(b, key)
    ensures a == b
  {
    ViewHolds(a, key);
    ViewHolds(b, key);
    forall i | 0 <= i < |a| ensures a[i] == b[i] {
      assert key(a[i]) == Keys(a, key)[i] == Keys(b, key)[i] == key(b[i]);
    }
    assert |a| == |Keys(a, key)| == |b|;
  }

  // ---------------------------------------------------------------- laws

  lemma {:induction false} MinusNothing(s: seq<string>, gone: set<string>)
    requires forall k :: k in s ==> k !in gone
    ensures Minus(s, gone) == s
  {
    if s != [] {
      MinusNothing(s[..|s| - 1], gone);
      assert s[|s| - 1] in s;
    }
  }

  lemma {:induction false} MinusAll(s: seq<string>, gone: set<string>)
    requires forall k :: k in s ==> k in gone
    ensures Minus(s, gone) == []
  {
    if s != [] {
      MinusAll(s[..|s| - 1], gone);
      assert s[|s| - 1] in s;
    }
  }

  lemma {:induction false} MinusConcat(a: seq<string>, b: seq<string>, gone: set<string>)
    ensures Minus(a + b, gone) == Minus(a, gone) + Minus(b, gone)
  {
    if b == [] {
      assert a + b == a;
    } else {
      assert (a + b)[..|a + b| - 1] == a + b[..|b| - 1];
      MinusConcat(a, b[..|b| - 1], gone);
    }
  }

  lemma {:induction false} MinusTwice(s: seq<string>, a: set<string>, b: set<string>)
    ensures Minus(Minus(s, a), b) == Minus(s, a + b)
  {
    if s != [] {
      MinusTwice(s[..|s| - 1], a, b);
      var before, k := Minus(s[..|s| - 1], a), s[|s| - 1];
      assert k !in a ==> (before + [k])[..|before|] == before;
    }
  }

  /** Both cases of the reducer at once, for lists without duplicates. */
  lemma KeysOfReduced<T>(a: seq<T>, b: seq<T>, key: T -> string)
    requires NoDuplicates(a, key) && NoDuplicates(b, key)
    ensures Keys(Reduced(a, b, key), key) == Keys(a, key) + Minus(Keys(b, key), ToSet(Keys(a, key)))
    ensures NoDuplicates(Reduced(a, b, key), key)
    ensures View(Reduced(a, b, key), key) == View(a, key) + View(b, key)
  {
    ReducedKeys(a, b, key);
    OrderDistinct(b, key);
    ReducedHasNoDuplicates(a, b, key);
    ReducedView(a, b, key);
    if a == [] { MinusNothing(Keys(b, key), ToSet(Keys(a, key))); }
  }

  /** Re-applying an update changes nothing. */
  lemma ReducingTwice<T>(current: seq<T>, update: seq<T>, key: T -> string)
    requires NoDuplicates(current, key) && (current == [] ==> NoDuplicates(update, key))
    ensures var r := Reduced(current, update, key); Reduced(r, update, key) == r
  {
    var r := Reduced(current, update, key);
    ReducedHasNoDuplicates(current, update, key);
    ReducedView(current, update, key);
    if r != [] {
      ReducedHasNoDuplicates(r, update, key);
      ReducedView(r, update, key);
      ReducedKeys(r, update, key);
      ViewHolds(r, key);
      OrderListsKeys(update, key);
      MinusAll(Order(update, key), ToSet(Keys(r, key)));
      assert NewIds(r, update, key) == [];
      assert Keys(Reduced(r, update, key), key) == Keys(r, key);
      SameKeysSameView(Reduced(r, update, key), r, key);
    }
  }

  /** The empty list changes nothing, from either side. */
  lemma EmptyIsIdentity<T>(s: seq<T>, key: T -> string)
    ensures Reduced([], s, key) == s && Reduced(s, [], key) == s
  {
    if s != [] {
      NothingMerges(s, key);
      assert NewIds(s, [], key) == [];
    }
  }

  lemma {:induction false} NothingMerges<T>(s: seq<T>, key: T -> string)
    ensures Merged(s, map[], key) == s
  {
    if s != [] { NothingMerges(s[..|s| - 1], key); }
  }

  lemma RegroupedKeys(a: seq<string>, b: seq<string>, c: seq<string>)
    ensures var ab, bc := a + Minus(b, ToSet(a)), b + Minus(c, ToSet(b));
            ab + Minus(c, ToSet(ab)) == a + Minus(bc, ToSet(a))
  {
    var ab := a + Minus(b, ToSet(a));
    MinusHolds(b, ToSet(a));
    assert ToSet(ab) == ToSet(b) + ToSet(a) by {
      forall k ensures k in ab <==> k in b || k in a {}
    }
    MinusConcat(b, Minus(c, ToSet(b)), ToSet(a));
    MinusTwice(c, ToSet(b), ToSet(a));
    Regroup(a, Minus(b, ToSet(a)), Minus(c, ToSet(ab)));
  }

  lemma KeysRegroup<T>(a: seq<T>, b: seq<T>, c: seq<T>, key: T -> string)
    requires NoDuplicates(a, key) && NoDuplicates(b, key) && NoDuplicates(c, key)
    ensures var l, r := Reduced(Reduced(a, b, key), c, key), Reduced(a, Reduced(b, c, key), key);
            NoDuplicates(l, key) && NoDuplicates(r, key) && Keys(l, key) == Keys(r, key)
  {
    var ab, bc := Reduced(a, b, key), Reduced(b, c, key);
    KeysOfReduced(a, b, key);
    KeysOfReduced(b, c, key);
    KeysOfReduced(ab, c, key);
    KeysOfReduced(a, bc, key);
    RegroupedKeys(Keys(a, key), Keys(b, key), Keys(c, key));
  }

  lemma ViewsRegroup<T>(a: seq<T>, b: seq<T>, c: seq<T>, key: T -> string)
    requires NoDuplicates(a, key) && NoDuplicates(b, key) && NoDuplicates(c, key)
    ensures View(Reduced(Reduced(a, b, key), c, key), key) == View(Reduced(a, Reduced(b, c, key), key), key)
  {
    KeysOfReduced(a, b, key);
    ReducedView(b, c, key);
    ReducedView(Reduced(a, b, key), c, key);
    ReducedView(a, Reduced(b, c, key), key);
    MapsRegroup(View(a, key), View(b, key), View(c, key));
  }

  lemma MapsRegroup<T>(a: map<string, T>, b: map<string, T>, c: map<string, T>)
    ensures (a + b) + c == a + (b + c)
  {}

  /** Updates may be combined before they are applied. */
  lemma ReducingIsAssociative<T>(a: seq<T>, b: seq<T>, c: seq<T>, key: T -> string)
    requires NoDuplicates(a, key) && NoDuplicates(b, key) && NoDuplicates(c, key)
    ensures Reduced(Reduced(a, b, key), c, key) == Reduced(a, Reduced(b, c, key), key)
  {
    KeysRegroup(a, b, c, key);
    ViewsRegroup(a, b, c, key);
    SameKeysSameView(Reduced(Reduced(a, b, key), c, key), Reduced(a, Reduced(b, c, key), key), key);
  }

  lemma RepeatedPair<T>(x: T, y: T, key: T -> string)
    requires key(x) == key(y)
    ensures View([x, y], key) == map[key(x) := y] && Order([x, y], key) == [key(x)]
  {
    var u := [x, y];
    assert u[..1] == [x] && [x][..0] == [];
    assert View([x], key) == map[key(x) := x] && Order([x], key) == [key(x)];
  }

  lemma MinusOne(k: string, gone: set<string>)
    requires k !in gone
    ensures Minus([k], gone) == [k]
  {
    assert [k][..0] == [];
  }

  /** An update that repeats an id is kept whole on an empty list, and collapsed on any other. */
  lemma RepeatsAreKeptOnlyOnEmpty<T>(x: T, y: T, z: T, key: T -> string)
    requires key(x) == key(y) != key(z)
    ensures Reduced([], [x, y], key) == [x, y] && Reduced([z], [x, y], key) == [z, y]
  {
    RepeatedPair(x, y, key);
    MinusOne(key(x), ToSet(Keys([z], key)));
    MergedAt([z], View([x, y], key), key);
    assert Merged([z], View([x, y], key), key) == [z];
    assert NewIds([z], [x, y], key) == [key(x)];
  }

  // ---------------------------------------------------------------- the start of a run

  type Instant = real

  /** `reduce_started_at`. */
  function ReduceStartedAt(current: Option<Instant>, update: Option<Instant>): Option<Instant> {
    if current.Some? then current else update
  }

  /** The field after a run's updates. */
  function StartedAt(updates: seq<Option<Instant>>): Option<Instant> {
    if updates == [] then None else ReduceStartedAt(StartedAt(updates[..|updates| - 1]), updates[|updates| - 1])
  }

  ghost predicate FirstGiven(updates: seq<Option<Instant>>, i: int) {
    0 <= i < |updates| && updates[i].Some? && forall j :: 0 <= j < i ==> updates[j].None?
  }

  ghost predicate NoLaterThanAny(t: Instant, updates: seq<Option<Instant>>) {
    forall j :: 0 <= j < |updates| && updates[j].Some? ==> t <= updates[j].value
  }

  /** The earliest instant given, if any was. */
  ghost predicate IsEarliest(r: Option<Instant>, updates: seq<Option<Instant>>) {
    && (r.None? <==> forall j :: 0 <= j < |updates| ==> updates[j].None?)
    && (r.Some? ==> r in updates && NoLaterThanAny(r.value, updates))
  }

  lemma {:induction false} StartIsTheFirstGiven(updates: seq<Option<Instant>>)
    ensures StartedAt(updates).None? <==> forall j :: 0 <= j < |updates| ==> updates[j].None?
    ensures StartedAt(updates).Some? ==> exists i :: FirstGiven(updates, i) && updates[i] == StartedAt(updates)
  {
    if updates != [] {
      var n := |updates| - 1;
      var most := updates[..n];
      StartIsTheFirstGiven(most);
      assert forall j :: 0 <= j < n ==> most[j] == updates[j];
      if StartedAt(most).Some? {
        var i :| FirstGiven(most, i) && most[i] == StartedAt(most);
        assert FirstGiven(updates, i);
      } else if updates[n].Some? {
        assert FirstGiven(updates, n);
      }
    }
  }

  /** It is the earliest instant given exactly when the first one given is no later than any other. */
  lemma WhenTheStartIsTheEarliest(updates: seq<Option<Instant>>)
    ensures IsEarliest(StartedAt(updates), updates) <==>
            forall i :: FirstGiven(updates, i) ==> NoLaterThanAny(updates[i].value, updates)
  {
    StartIsTheFirstGiven(updates);
    if StartedAt(updates).Some? {
      var i :| FirstGiven(updates, i) && updates[i] == StartedAt(updates);
      forall j | FirstGiven(updates, j) ensures j == i { OneFirst(updates, i, j); }
      assert updates[i] in updates;
    }
  }

  lemma OneFirst(updates: seq<Option<Instant>>, i: int, j: int)
    requires FirstGiven(updates, i) && FirstGiven(updates, j)
    ensures i == j
  {}

  /** An earlier instant that comes second is ignored. */
  lemma ALaterStartCanStay()
    ensures StartedAt([Some(2.0), Some(1.0)]) == Some(2.0) && !IsEarliest(Some(2.0), [Some(2.0), Some(1.0)])
  {
    var u: seq<Option<Instant>> := [Some(2.0), Some(1.0)];
    assert u[..1] == [Some(2.0)] && [Some(2.0)][..0] == [];
    assert StartedAt(u[..1]) == Some(2.0);
    assert u[1] == Some(1.0);
  }
}
