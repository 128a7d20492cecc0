/** Incremental checkpoints: every save writes only the channels that changed, under their new versions. */
module Checkpoints {
  import opened Text

  type Versions = map<string, string>

  datatype Key = Key(thread: string, namespace: string, id: string)
  datatype BlobKey = BlobKey(thread: string, namespace: string, channel: string, version: string)
  datatype Saved = Saved(versions: Versions, parent: Option<string>)

  /** The store as keyed maps; a blob without a value is the one tagged "empty". */
  datatype Store<V> = Store(checkpoints: map<Key, Saved>, blobs: map<BlobKey, Option<V>>)

  datatype Save<V> = Save(
    key: Key, parent: Option<string>, versions: Versions, values: map<string, V>, changed: Versions)

  function BlobOf(k: Key, channel: string, version: string): BlobKey {
    BlobKey(k.thread, k.namespace, channel, version)
  }

  function BlobKeys(k: Key, changed: Versions): (r: set<BlobKey>)
    ensures forall b :: b in r <==> b.channel in changed && b == BlobOf(k, b.channel, changed[b.channel])
  {
    set ch | ch in changed :: BlobOf(k, ch, changed[ch])
  }

  function Blobs<V>(k: Key, values: map<string, V>, changed: Versions): map<BlobKey, Option<V>> {
    map b | b in BlobKeys(k, changed) :: Blob(values, b.channel)
  }

  function Blob<V>(values: map<string, V>, channel: string): Option<V> {
    if channel in values then Some(values[channel]) else None
  }

  function NewBlobs<V>(s: Save<V>): map<BlobKey, Option<V>> { Blobs(s.key, s.values, s.changed) }

  function Put<V>(store: Store<V>, s: Save<V>): Store<V> {
    Store(store.checkpoints[s.key := Saved(s.versions, s.parent)], store.blobs + NewBlobs(s))
  }

  /** The channels whose blob is found and not empty. */
  function Values<V>(store: Store<V>, k: Key, versions: Versions): map<string, V> {
    map ch | ch in versions && Found(store, BlobOf(k, ch, versions[ch])) ::
      store.blobs[BlobOf(k, ch, versions[ch])].value
  }

  predicate Found<V>(store: Store<V>, b: BlobKey) { b in store.blobs && store.blobs[b].Some? }

  function Get<V>(store: Store<V>, k: Key): Option<map<string, V>> {
    if k in store.checkpoints then Some(Values(store, k, store.checkpoints[k].versions)) else None
  }

  /** The checkpoint of the given id, or without an id the one whose id sorts last. */
  ghost function Chosen<V>(store: Store<V>, thread: string, namespace: string, id: Option<string>): (k: Option<Key>)
    ensures k.Some? ==> k.value in store.checkpoints
  {
    match id
    case Some(i) => var k := Key(thread, namespace, i); if k in store.checkpoints then Some(k) else None
    case None =>
      var ids := IdsAt(store.checkpoints, thread, namespace);
      if ids == {} then None else Some(Key(thread, namespace, Greatest(ids)))
  }

  function IdsAt(checkpoints: map<Key, Saved>, thread: string, namespace: string): (ids: set<string>)
    ensures forall i :: i in ids <==> Key(thread, namespace, i) in checkpoints
  {
    set k | k in checkpoints && k.thread == thread && k.namespace == namespace :: k.id
  }

  ghost function Greatest(ids: set<string>): (g: string)
    requires ids != {}
    ensures g in ids && forall i :: i in ids ==> i == g || StrLess(i, g)
  {
    var s := Sorted(ids);
    SomethingSorted(ids);
    assert s[|s| - 1] in s;
    s[|s| - 1]
  }

  lemma SomethingSorted(ids: set<string>)
    requires ids != {}
    ensures Sorted(ids) != []
  {}

  /** An id, the parent it names, and the channel values. */
  datatype CheckpointTuple<V> = CheckpointTuple(id: string, parent: Option<string>, values: map<string, V>)

  function TupleAt<V>(store: Store<V>, k: Key): CheckpointTuple<V>
    requires k in store.checkpoints
  {
    var saved := store.checkpoints[k];
    CheckpointTuple(k.id, if saved.parent == Some("") then None else saved.parent, Values(store, k, saved.versions))
  }

  class StoreCheckpointSaver<V(==)> {
    var checkpoints: map<Key, Saved>
    var blobs: map<BlobKey, Option<V>>

    ghost function View(): Store<V>
      reads this
    {
      Store(checkpoints, blobs)
    }

    constructor ()
      ensures View() == Store(map[], map[])
    {
      checkpoints, blobs := map[], map[];
    }

    /** The loop over the new versions, then the checkpoint itself without its values. */
    method Aput(s: Save<V>)
      modifies this
      ensures View() == Put(old(View()), s)
    {
      var rest := s.changed.Keys;
      var toPut: map<BlobKey, Option<V>> := map[];
      while rest != {}
        invariant rest <= s.changed.Keys
        invariant View() == old(View())
        invariant toPut == Blobs(s.key, s.values, s.changed - rest)
        decreases rest
      {
        var ch :| ch in rest;
        BlobAdded(s.key, s.values, s.changed, rest, ch);
        toPut := toPut[BlobOf(s.key, ch, s.changed[ch]) := if ch in s.values then Some(s.values[ch]) else None];
        rest := rest - {ch};
      }
      assert s.changed - rest == s.changed;
      assert toPut == NewBlobs(s);
      blobs := blobs + toPut;
      checkpoints := checkpoints[s.key := Saved(s.versions, s.parent)];
      assert blobs == Put(old(View()), s).blobs;
      assert checkpoints == Put(old(View()), s).checkpoints;
    }

    /** The store's lookup: by id, or the last of the matching ids in order. */
    method GetCheckpoint(thread: string, namespace: string, id: Option<string>) returns (k: Option<Key>)
      ensures k == Chosen(View(), thread, namespace, id)
    {
      if id.Some? {
        var wanted := Key(thread, namespace, id.value);
        return if wanted in checkpoints then Some(wanted) else None;
      }
      var matching := SortNames(IdsAt(checkpoints, thread, namespace));
      if matching == [] {
        assert forall i :: i in IdsAt(checkpoints, thread, namespace) ==> i in matching;
        return None;
      }
      assert matching[|matching| - 1] in matching;
      k := Some(Key(thread, namespace, matching[|matching| - 1]));
    }

    method AgetTuple(thread: string, namespace: string, id: Option<string>) returns (r: Option<CheckpointTuple<V>>)
      ensures r == match Chosen(View(), thread, namespace, id)
                   case Some(k) => Some(TupleAt(View(), k))
                   case None => None
    {
      var k := GetCheckpoint(thread, namespace, id);
      if k.None? { return None; }
      var saved := checkpoints[k.value];
      var found := ReadBlobs(k.value, saved.versions);
      r := Some(CheckpointTuple(k.value.id, if saved.parent == Some("") then None else saved.parent, found));
    }

    method ReadBlobs(k: Key, versions: Versions) returns (found: map<string, V>)
      ensures found == Values(View(), k, versions)
    {
      ghost var store := View();
      found := map[];
      var rest := versions.Keys;
      while rest != {}
        invariant rest <= versions.Keys
        invariant found == Values(store, k, versions - rest)
        decreases rest
      {
        var ch :| ch in rest;
        ValueRead(store, k, versions, rest, ch);
        var b := BlobOf(k, ch, versions[ch]);
        if b in blobs && blobs[b].Some? { found := found[ch := blobs[b].value]; }
        rest := rest - {ch};
      }
      assert versions - rest == versions;
    }
  }

  lemma BlobAdded<V>(k: Key, values: map<string, V>, changed: Versions, rest: set<string>, ch: string)
    requires ch in rest && rest <= changed.Keys
    ensures Blobs(k, values, changed - (rest - {ch}))
         == Blobs(k, values, changed - rest)[BlobOf(k, ch, changed[ch]) := Blob(values, ch)]
  {
    var more, most := changed - (rest - {ch}), changed - rest;
    assert more == most[ch := changed[ch]];
    var x, y := Blobs(k, values, more), Blobs(k, values, most)[BlobOf(k, ch, changed[ch]) := Blob(values, ch)];
    forall b ensures b in x <==> b in y {
      assert b in x <==> b.channel in more && b == BlobOf(k, b.channel, more[b.channel]);
    }
  }

  lemma ValueRead<V>(store: Store<V>, k: Key, versions: Versions, rest: set<string>, ch: string)
    requires ch in rest && rest <= versions.Keys
    ensures var b, before := BlobOf(k, ch, versions[ch]), Values(store, k, versions - rest);
            Values(store, k, versions - (rest - {ch}))
              == if Found(store, b) then before[ch := store.blobs[b].value] else before
  {
    assert versions - (rest - {ch}) == (versions - rest)[ch := versions[ch]];
  }

  // ---------------------------------------------------------------- histories

  /** What was saved under each key. */
  datatype Past<V> = Past(versions: Versions, values: map<string, V>)

  ghost function ParentOf<V>(history: map<Key, Past<V>>, s: Save<V>): Past<V> {
    if s.parent.Some? && s.key.(id := s.parent.value) in history
    then history[s.key.(id := s.parent.value)] else Past(map[], map[])
  }

  /** A save continues an earlier one: versions move for the changed channels only, and only their values differ. */
  ghost predicate Continues<V>(history: map<Key, Past<V>>, s: Save<V>) {
    var past := ParentOf(history, s);
    && s.versions == past.versions + s.changed && s.values.Keys <= s.versions.Keys
    && forall ch :: ch in past.versions && ch !in s.changed ==> SameAt(past.values, s.values, ch)
  }

  predicate SameAt<V(==)>(a: map<string, V>, b: map<string, V>, ch: string) {
    (ch in a <==> ch in b) && (ch in a ==> a[ch] == b[ch])
  }

  /** No new version was used before on its channel, on whatever branch. */
  predicate Unused<V>(store: Store<V>, s: Save<V>) {
    forall ch :: ch in s.changed ==> BlobOf(s.key, ch, s.changed[ch]) !in store.blobs
  }

  ghost predicate Holds<V(!new)>(store: Store<V>, k: Key, past: Past<V>) {
    && past.values.Keys <= past.versions.Keys
    && forall ch :: ch in past.versions ==> HasBlob(store, k, past, ch)
  }

  ghost predicate HasBlob<V(!new)>(store: Store<V>, k: Key, past: Past<V>, ch: string)
    requires ch in past.versions
  {
    var b := BlobOf(k, ch, past.versions[ch]);
    b in store.blobs && store.blobs[b] == Blob(past.values, ch)
  }

  ghost predicate Inv<V(!new)>(store: Store<V>, history: map<Key, Past<V>>) {
    && store.checkpoints.Keys == history.Keys
    && forall k :: k in history ==> store.checkpoints[k].versions == history[k].versions && Holds(store, k, history[k])
  }

  function Recorded<V>(history: map<Key, Past<V>>, s: Save<V>): map<Key, Past<V>> {
    history[s.key := Past(s.versions, s.values)]
  }

  lemma OldBlobsStay<V(!new)>(store: Store<V>, s: Save<V>, k: Key, past: Past<V>)
    requires Unused(store, s) && Holds(store, k, past)
    ensures Holds(Put(store, s), k, past)
  {
    forall ch | ch in past.versions ensures HasBlob(Put(store, s), k, past, ch) {
      assert HasBlob(store, k, past, ch);
      assert BlobOf(k, ch, past.versions[ch]) !in NewBlobs(s);
    }
  }

  lemma NewCheckpointHolds<V(!new)>(store: Store<V>, history: map<Key, Past<V>>, s: Save<V>)
    requires Inv(store, history) && Continues(history, s) && Unused(store, s)
    ensures Holds(Put(store, s), s.key, Past(s.versions, s.values))
  {
    var past, now := ParentOf(history, s), Past(s.versions, s.values);
    var parent := if s.parent.Some? then s.key.(id := s.parent.value) else s.key;
    forall ch | ch in s.versions ensures HasBlob(Put(store, s), s.key, now, ch) {
      var b := BlobOf(s.key, ch, s.versions[ch]);
      if ch in s.changed {
        assert b in NewBlobs(s);
      } else {
        assert ch in past.versions && parent in history && HasBlob(store, parent, past, ch);
        assert SameAt(past.values, s.values, ch);
        assert b !in NewBlobs(s);
      }
    }
  }

  lemma SavesKeepInv<V(!new)>(store: Store<V>, history: map<Key, Past<V>>, s: Save<V>)
    requires Inv(store, history) && Continues(history, s) && Unused(store, s)
    ensures Inv(Put(store, s), Recorded(history, s))
  {
    NewCheckpointHolds(store, history, s);
    forall k | k in history ensures Holds(Put(store, s), k, history[k]) { OldBlobsStay(store, s, k, history[k]); }
  }

  lemma HeldIsRead<V(!new)>(store: Store<V>, k: Key, past: Past<V>)
    requires Holds(store, k, past)
    ensures Values(store, k, past.versions) == past.values
  {
    forall ch | ch in past.versions
      ensures (ch in Values(store, k, past.versions) <==> ch in past.values)
           && (ch in past.values ==> Values(store, k, past.versions)[ch] == past.values[ch]) {
      assert HasBlob(store, k, past, ch);
    }
  }

  ghost predicate Run<V(!new)>(stores: seq<Store<V>>, histories: seq<map<Key, Past<V>>>, saves: seq<Save<V>>) {
    && |stores| == |histories| == |saves| + 1 && stores[0] == Store(map[], map[]) && histories[0] == map[]
    && forall i :: 0 <= i < |saves| ==> Saves(stores[i], histories[i], saves[i], stores[i + 1], histories[i + 1])
  }

  ghost predicate Saves<V(!new)>(store: Store<V>, history: map<Key, Past<V>>, s: Save<V>, after: Store<V>,
          next: map<Key, Past<V>>) {
    Continues(history, s) && Unused(store, s) && after == Put(store, s) && next == Recorded(history, s)
  }

  /** Over any tree of saves, every checkpoint reads back with exactly the values it was saved with. */
  lemma {:induction false} EveryCheckpointReadsBack<V(!new)>(
      stores: seq<Store<V>>, histories: seq<map<Key, Past<V>>>, saves: seq<Save<V>>, n: nat)
    requires Run(stores, histories, saves) && n < |stores|
    ensures Inv(stores[n], histories[n])
    ensures forall k :: Get(stores[n], k) == if k in histories[n] then Some(histories[n][k].values) else None
  {
    if n > 0 {
      EveryCheckpointReadsBack(stores, histories, saves, n - 1);
      assert Saves(stores[n - 1], histories[n - 1], saves[n - 1], stores[n], histories[n]);
      SavesKeepInv(stores[n - 1], histories[n - 1], saves[n - 1]);
    }
    forall k | k in histories[n] ensures Get(stores[n], k) == Some(histories[n][k].values) {
      HeldIsRead(stores[n], k, histories[n][k]);
    }
  }

  /** A save is found under its key with its versions and its parent, and no other checkpoint is touched. */
  lemma WhatASaveRecords<V(!new)>(store: Store<V>, s: Save<V>)
    ensures var e := Put(store, s);
            && s.key in e.checkpoints && e.checkpoints[s.key].versions == s.versions
            && e.checkpoints[s.key].parent == s.parent && TupleAt(e, s.key).id == s.key.id
            && (s.parent.Some? && s.parent.value != "" ==> TupleAt(e, s.key).parent == s.parent)
            && (!(s.parent.Some? && s.parent.value != "") ==> TupleAt(e, s.key).parent == None)
            && forall k :: k != s.key ==> (k in e.checkpoints <==> k in store.checkpoints)
                                          && (k in store.checkpoints ==> e.checkpoints[k] == store.checkpoints[k])
  {}

  lemma {:induction false} CheckpointsAreTheSaves<V(!new)>(
      stores: seq<Store<V>>, histories: seq<map<Key, Past<V>>>, saves: seq<Save<V>>, n: nat)
    requires Run(stores, histories, saves) && n < |stores|
    ensures forall k :: k in stores[n].checkpoints <==> exists i :: 0 <= i < n && saves[i].key == k
  {
    if n > 0 {
      CheckpointsAreTheSaves(stores, histories, saves, n - 1);
      assert Saves(stores[n - 1], histories[n - 1], saves[n - 1], stores[n], histories[n]);
    }
  }

  /** No save of the thread and namespace of save `n` that came before it has an id that sorts later. */
  ghost predicate SortsLast<V(!new)>(saves: seq<Save<V>>, n: nat)
    requires n < |saves|
  {
    forall i :: 0 <= i < n && SamePlace(saves[i].key, saves[n].key) ==> !StrLess(saves[n].key.id, saves[i].key.id)
  }

  predicate SamePlace(k: Key, l: Key) { k.thread == l.thread && k.namespace == l.namespace }

  lemma NotAbove(a: string, g: string)
    requires a == g || StrLess(a, g)
    ensures !StrLess(g, a)
  {
    StrOrder();
  }

  lemma LatestOfSaves<V(!new)>(store: Store<V>, saves: seq<Save<V>>, n: nat)
    requires n < |saves|
    requires forall k :: k in store.checkpoints <==> exists i :: 0 <= i < n + 1 && saves[i].key == k
    ensures var last := saves[n].key;
            var k := Chosen(store, last.thread, last.namespace, None);
            k.Some? && (k.value == last <==> SortsLast(saves, n))
  {
    var last := saves[n].key;
    assert last in store.checkpoints && last == Key(last.thread, last.namespace, last.id);
    var ids := IdsAt(store.checkpoints, last.thread, last.namespace);
    var g := Greatest(ids);
    if g == last.id {
      forall i | 0 <= i < n && SamePlace(saves[i].key, last) ensures !StrLess(last.id, saves[i].key.id) {
        assert saves[i].key == Key(last.thread, last.namespace, saves[i].key.id);
        assert saves[i].key in store.checkpoints;
        NotAbove(saves[i].key.id, g);
      }
    } else {
      var i :| 0 <= i < n + 1 && saves[i].key == Key(last.thread, last.namespace, g);
      assert StrLess(last.id, g);
    }
  }

  /** Without an id the last save is read back exactly when no save of its thread and namespace has a greater id. */
  lemma ResumingReadsTheLastSave<V(!new)>(
      stores: seq<Store<V>>, histories: seq<map<Key, Past<V>>>, saves: seq<Save<V>>, n: nat)
    requires Run(stores, histories, saves) && n < |saves|
    ensures var k := Chosen(stores[n + 1], saves[n].key.thread, saves[n].key.namespace, None);
            && k.Some? && (k.value == saves[n].key <==> SortsLast(saves, n))
            && (k.value == saves[n].key ==> TupleAt(stores[n + 1], k.value).values == saves[n].values)
  {
    CheckpointsAreTheSaves(stores, histories, saves, n + 1);
    LatestOfSaves(stores[n + 1], saves, n);
    EveryCheckpointReadsBack(stores, histories, saves, n + 1);
    assert Saves(stores[n], histories[n], saves[n], stores[n + 1], histories[n + 1]);
    assert Get(stores[n + 1], saves[n].key) == Some(histories[n + 1][saves[n].key].values);
  }

  /** Branches that share a version share its blob: the first reads its own value only if the second wrote the same. */
  lemma SharedVersionsCollide<V(!new)>(store: Store<V>, s: Save<V>, t: Save<V>, ch: string)
    requires s.key.thread == t.key.thread && s.key.namespace == t.key.namespace && s.key != t.key
    requires ch in s.changed && ch in t.changed && s.changed[ch] == t.changed[ch]
    requires ch in s.versions && s.versions[ch] == s.changed[ch] && ch in s.values && ch in t.values
    ensures var read := Get(Put(Put(store, s), t), s.key);
            read.Some? && ch in read.value && (read.value[ch] == s.values[ch] <==> t.values[ch] == s.values[ch])
  {
    assert BlobOf(s.key, ch, s.changed[ch]) in NewBlobs(t);
  }
}
