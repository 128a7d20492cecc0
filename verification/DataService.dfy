/** The catalogue service: one consolidated join query against the N+1 loop it replaces. */
module DataService {
  import opened Text

  datatype Item = Item(id: int, name: string, description: string)
  datatype DetailRow = DetailRow(id: int, itemId: Option<int>, key: string, value: string)
  datatype Detail = Detail(key: string, value: string)
  datatype View = View(item: Item, details: seq<Detail>)

  // ---------------------------------------------------------------- relational operators

  /** `WHERE item_id = id`; a NULL reference matches nothing. */
  function DetailsOf(details: seq<DetailRow>, id: int): seq<Detail> {
    if details == [] then [] else OwnDetail(details[0], id) + DetailsOf(details[1..], id)
  }

  function OwnDetail(d: DetailRow, id: int): seq<Detail> {
    if d.itemId == Some(id) then [Detail(d.key, d.value)] else []
  }

  /** How often the table lists a key and value for an item. */
  function Occurrences(details: seq<DetailRow>, id: int, key: string, value: string): nat {
    if details == [] then 0 else
      var d := details[0];
      (if d.itemId == Some(id) && d.key == key && d.value == value then 1 else 0)
      + Occurrences(details[1..], id, key, value)
  }

  /** An item's details are the rows that refer to it, each as often as it is listed. */
  lemma {:induction false} WhatDetailsAre(details: seq<DetailRow>, id: int, key: string, value: string)
    ensures multiset(DetailsOf(details, id))[Detail(key, value)] == Occurrences(details, id, key, value)
  {
    if details != [] {
      WhatDetailsAre(details[1..], id, key, value);
      var own, rest := OwnDetail(details[0], id), DetailsOf(details[1..], id);
      assert multiset(own + rest) == multiset(own) + multiset(rest);
    }
  }

  /** A row of the join; `detail` is NULL for an item without details. */
  datatype Joined = Joined(item: Item, detail: Option<Detail>)

  function Pair(item: Item, details: seq<Detail>): seq<Joined> {
    if details == [] then [] else [Joined(item, Some(details[0]))] + Pair(item, details[1..])
  }

  function LeftJoin(items: seq<Item>, details: seq<DetailRow>): seq<Joined> {
    if items == [] then [] else Block(items[0], details) + LeftJoin(items[1..], details)
  }

  /** The joined rows of one item; an item without details keeps one row. */
  function Block(item: Item, details: seq<DetailRow>): seq<Joined> {
    var mine := DetailsOf(details, item.id);
    if mine == [] then [Joined(item, None)] else Pair(item, mine)
  }

  /** `COALESCE(json_agg(...) FILTER (WHERE d.id IS NOT NULL), '[]')` over one group. */
  function Aggregate(joined: seq<Joined>, key: Item): seq<Detail> {
    if joined == [] then [] else Gathered(joined[0], key) + Aggregate(joined[1..], key)
  }

  function Gathered(j: Joined, key: Item): seq<Detail> {
    if j.item == key && j.detail.Some? then [j.detail.value] else []
  }

  /** `GROUP BY i.id, i.name, i.description ORDER BY i.id`: one row a group, in id order. */
  ghost predicate Grouped(joined: seq<Joined>, rows: seq<View>) {
    && (forall i, j :: 0 <= i < j < |rows| ==> rows[i].item.id <= rows[j].item.id && rows[i].item != rows[j].item)
    && (forall k :: InRows(rows, k) <==> InJoin(joined, k))
    && (forall i :: 0 <= i < |rows| ==> rows[i].details == Aggregate(joined, rows[i].item))
  }

  ghost predicate InRows(rows: seq<View>, k: Item) { exists i :: 0 <= i < |rows| && rows[i].item == k }

  ghost predicate InJoin(joined: seq<Joined>, k: Item) { exists i :: 0 <= i < |joined| && joined[i].item == k }

  ghost predicate UniqueIds(items: seq<Item>) {
    forall i, j :: 0 <= i < j < |items| ==> items[i].id != items[j].id
  }

  // ---------------------------------------------------------------- what both endpoints promise

  /** Every item once, in id order, each with exactly its own details in some order. */
  ghost predicate Listing(items: seq<Item>, details: seq<DetailRow>, views: seq<View>) {
    && (forall i, j :: 0 <= i < j < |views| ==> views[i].item.id < views[j].item.id)
    && (forall k :: InRows(views, k) <==> k in items)
    && (forall i :: 0 <= i < |views| ==>
          multiset(views[i].details) == multiset(DetailsOf(details, views[i].item.id)))
  }

  ghost predicate SameListing(a: seq<View>, b: seq<View>) {
    && |a| == |b|
    && forall i :: 0 <= i < |a| ==> a[i].item == b[i].item && multiset(a[i].details) == multiset(b[i].details)
  }

  // ---------------------------------------------------------------- permutations

  lemma {:induction false} AggregateAppend(a: seq<Joined>, b: seq<Joined>, key: Item)
    ensures Aggregate(a + b, key) == Aggregate(a, key) + Aggregate(b, key)
  {
    if a == [] {
      assert a + b == b;
    } else {
      AggregateAppend(a[1..], b, key);
      var s := a + b;
      assert s[0] == a[0] && s[1..] == a[1..] + b;
      Regroup(Gathered(a[0], key), Aggregate(a[1..], key), Aggregate(b, key));
    }
  }

  lemma {:induction false} DetailsOfAppend(a: seq<DetailRow>, b: seq<DetailRow>, id: int)
    ensures DetailsOf(a + b, id) == DetailsOf(a, id) + DetailsOf(b, id)
  {
    if a == [] {
      assert a + b == b;
    } else {
      DetailsOfAppend(a[1..], b, id);
      var s := a + b;
      assert s[0] == a[0] && s[1..] == a[1..] + b;
      Regroup(OwnDetail(a[0], id), DetailsOf(a[1..], id), DetailsOf(b, id));
    }
  }

  lemma FindInPermutation<T>(a: seq<T>, b: seq<T>) returns (i: nat)
    requires a != [] && multiset(a) == multiset(b)
    ensures i < |b| && b[i] == a[0] && multiset(a[1..]) == multiset(Without(b, i))
  {
    assert a[0] in multiset(b);
    i :| 0 <= i < |b| && b[i] == a[0];
    MultisetWithout(b, i);
    MultisetWithout(a, 0);
    assert Without(a, 0) == a[1..];
  }

  lemma MiddleFirst<T>(x: seq<T>, y: seq<T>, z: seq<T>)
    ensures multiset(x + (y + z)) == multiset(y) + multiset(x + z)
  {
    assert multiset(x + (y + z)) == multiset(x) + (multiset(y) + multiset(z));
    assert multiset(x + z) == multiset(x) + multiset(z);
  }

  lemma AggregateWithout(s: seq<Joined>, i: nat, key: Item)
    requires i < |s|
    ensures multiset(Aggregate(s, key)) == multiset(Gathered(s[i], key)) + multiset(Aggregate(Without(s, i), key))
  {
    var before, after := s[..i], s[i + 1..];
    AggregateAppend(before, s[i..], key);
    AggregateAppend(before, after, key);
    assert s == before + s[i..] && s[i..][1..] == after;
    MiddleFirst(Aggregate(before, key), Gathered(s[i], key), Aggregate(after, key));
  }

  lemma DetailsOfWithout(s: seq<DetailRow>, i: nat, id: int)
    requires i < |s|
    ensures multiset(DetailsOf(s, id)) == multiset(OwnDetail(s[i], id)) + multiset(DetailsOf(Without(s, i), id))
  {
    var before, after := s[..i], s[i + 1..];
    DetailsOfAppend(before, s[i..], id);
    DetailsOfAppend(before, after, id);
    assert s == before + s[i..] && s[i..][1..] == after;
    MiddleFirst(DetailsOf(before, id), OwnDetail(s[i], id), DetailsOf(after, id));
  }

  /** The order of the joined rows only reorders each aggregate. */
  lemma {:induction false} AggregateOfPermutation(a: seq<Joined>, b: seq<Joined>, key: Item)
    requires multiset(a) == multiset(b)
    ensures multiset(Aggregate(a, key)) == multiset(Aggregate(b, key))
  {
    assert |a| == |multiset(a)| == |multiset(b)| == |b|;
    if a != [] {
      var i := FindInPermutation(a, b);
      AggregateOfPermutation(a[1..], Without(b, i), key);
      AggregateWithout(b, i, key);
    }
  }

  lemma {:induction false} DetailsOfPermutation(a: seq<DetailRow>, b: seq<DetailRow>, id: int)
    requires multiset(a) == multiset(b)
    ensures multiset(DetailsOf(a, id)) == multiset(DetailsOf(b, id))
  {
    assert |a| == |multiset(a)| == |multiset(b)| == |b|;
    if a != [] {
      var i := FindInPermutation(a, b);
      DetailsOfPermutation(a[1..], Without(b, i), id);
      DetailsOfWithout(b, i, id);
    }
  }

  // ---------------------------------------------------------------- grouping undoes the join

  lemma {:induction false} AggregateOfPair(item: Item, details: seq<Detail>, key: Item)
    ensures Aggregate(Pair(item, details), key) == if item == key then details else []
  {
    if details != [] {
      AggregateOfPair(item, details[1..], key);
      var all := Pair(item, details);
      assert all[0] == Joined(item, Some(details[0])) && all[1..] == Pair(item, details[1..]);
      assert details == [details[0]] + details[1..];
    }
  }

  lemma AggregateOfBlock(item: Item, details: seq<DetailRow>, key: Item)
    ensures Aggregate(Block(item, details), key) == if item == key then DetailsOf(details, item.id) else []
  {
    AggregateOfPair(item, DetailsOf(details, item.id), key);
  }

  lemma HeadIsAlone(items: seq<Item>)
    requires UniqueIds(items) && items != []
    ensures UniqueIds(items[1..]) && items[0] !in items[1..] && items == [items[0]] + items[1..]
  {
    forall j | 0 <= j < |items| - 1 ensures items[1..][j] != items[0] {
      assert items[1..][j] == items[j + 1];
    }
  }

  /** The join of an item with its details, gathered again, is its details; other items add nothing. */
  lemma {:induction false} AggregateOfJoin(items: seq<Item>, details: seq<DetailRow>, key: Item)
    requires UniqueIds(items)
    ensures Aggregate(LeftJoin(items, details), key) == if key in items then DetailsOf(details, key.id) else []
  {
    if items != [] {
      var head, rest := items[0], items[1..];
      HeadIsAlone(items);
      AggregateOfJoin(rest, details, key);
      AggregateOfBlock(head, details, key);
      AggregateAppend(Block(head, details), LeftJoin(rest, details), key);
      assert key in items <==> key == head || key in rest;
    }
  }

  lemma {:induction false} PairItems(item: Item, details: seq<Detail>)
    ensures |Pair(item, details)| == |details|
    ensures forall j :: 0 <= j < |details| ==> Pair(item, details)[j].item == item
  {
    if details != [] { PairItems(item, details[1..]); }
  }

  lemma InJoinAppend(a: seq<Joined>, b: seq<Joined>, k: Item)
    ensures InJoin(a + b, k) <==> InJoin(a, k) || InJoin(b, k)
  {
    if InJoin(a, k) { var j :| 0 <= j < |a| && a[j].item == k; assert (a + b)[j].item == k; }
    if InJoin(b, k) { var j :| 0 <= j < |b| && b[j].item == k; assert (a + b)[|a| + j].item == k; }
  }

  lemma BlockItems(item: Item, details: seq<DetailRow>, k: Item)
    ensures InJoin(Block(item, details), k) <==> k == item
  {
    PairItems(item, DetailsOf(details, item.id));
    assert Block(item, details)[0].item == item;
  }

  /** A left join loses no item and invents none. */
  lemma {:induction false} JoinKeepsItems(items: seq<Item>, details: seq<DetailRow>, k: Item)
    ensures InJoin(LeftJoin(items, details), k) <==> k in items
  {
    if items != [] {
      BlockItems(items[0], details, k);
      JoinKeepsItems(items[1..], details, k);
      InJoinAppend(Block(items[0], details), LeftJoin(items[1..], details), k);
      assert items == [items[0]] + items[1..];
    }
  }

  lemma JoinMembersOfPermutation(a: seq<Joined>, b: seq<Joined>, k: Item)
    requires multiset(a) == multiset(b) && InJoin(a, k)
    ensures InJoin(b, k)
  {
    var i :| 0 <= i < |a| && a[i].item == k;
    assert a[i] in multiset(b);
  }

  /** Any grouped answer to the join, whatever order its rows came in, is a listing. */
  lemma GroupedIsListing(items: seq<Item>, details: seq<DetailRow>, joined: seq<Joined>, rows: seq<View>)
    requires UniqueIds(items)
    requires multiset(joined) == multiset(LeftJoin(items, details)) && Grouped(joined, rows)
    ensures Listing(items, details, rows)
  {
    var join := LeftJoin(items, details);
    forall k ensures InRows(rows, k) <==> k in items {
      JoinKeepsItems(items, details, k);
      if InJoin(joined, k) { JoinMembersOfPermutation(joined, join, k); }
      if InJoin(join, k) { JoinMembersOfPermutation(join, joined, k); }
    }
    forall i | 0 <= i < |rows|
      ensures multiset(rows[i].details) == multiset(DetailsOf(details, rows[i].item.id))
    {
      assert InRows(rows, rows[i].item);
      AggregateOfPermutation(joined, join, rows[i].item);
      AggregateOfJoin(items, details, rows[i].item);
    }
    forall i, j | 0 <= i < j < |rows| ensures rows[i].item.id < rows[j].item.id {
      assert InRows(rows, rows[i].item) && InRows(rows, rows[j].item);
      var a :| 0 <= a < |items| && items[a] == rows[i].item;
      var b :| 0 <= b < |items| && items[b] == rows[j].item;
    }
  }

  /** A listing is determined by the tables, up to the order of each item's details. */
  lemma ListingsAgree(items: seq<Item>, details: seq<DetailRow>, a: seq<View>, b: seq<View>)
    requires Listing(items, details, a) && Listing(items, details, b)
    ensures SameListing(a, b)
  {
    forall k ensures InRows(a, k) <==> InRows(b, k) {}
    if a != [] { SameRank(a, b, |a| - 1); }
    if b != [] { SameRank(b, a, |b| - 1); }
    forall i | 0 <= i < |a| ensures a[i].item == b[i].item && multiset(a[i].details) == multiset(b[i].details) {
      SameRank(a, b, i);
    }
  }

  lemma {:induction false} SameRank(a: seq<View>, b: seq<View>, i: nat)
    requires forall i, j :: 0 <= i < j < |a| ==> a[i].item.id < a[j].item.id
    requires forall i, j :: 0 <= i < j < |b| ==> b[i].item.id < b[j].item.id
    requires forall k :: InRows(a, k) <==> InRows(b, k)
    requires i < |a|
    ensures i < |b| && a[i].item == b[i].item
  {
    if i > 0 { SameRank(a, b, i - 1); }
    assert InRows(a, a[i].item);
    var j :| 0 <= j < |b| && b[j].item == a[i].item;
    if j > i {
      assert InRows(b, b[i].item);
      var m :| 0 <= m < |a| && a[m].item == b[i].item;
      assert m < i;
      SameRank(a, b, m);
    } else if j < i {
      SameRank(a, b, j);
    }
  }

  // ---------------------------------------------------------------- the endpoints

  /** `SELECT id, name, description FROM items ORDER BY id`. */
  ghost predicate Ordered(items: seq<Item>, rows: seq<Item>) {
    && multiset(rows) == multiset(items)
    && forall i, j :: 0 <= i < j < |rows| ==> rows[i].id <= rows[j].id
  }

  lemma OrderedIsStrict(items: seq<Item>, rows: seq<Item>)
    requires UniqueIds(items) && Ordered(items, rows)
    ensures forall i, j :: 0 <= i < j < |rows| ==> rows[i].id < rows[j].id
    ensures forall k :: k in rows <==> k in items
  {
    forall k ensures k in rows <==> k in items {
      assert k in rows <==> k in multiset(rows);
      assert k in items <==> k in multiset(items);
    }
    forall i, j | 0 <= i < j < |rows| ensures rows[i].id < rows[j].id {
      var x, y := rows[i], rows[j];
      assert x in items && y in items;
      if x.id == y.id {
        var a :| 0 <= a < |items| && items[a] == x;
        var b :| 0 <= b < |items| && items[b] == y;
        assert a == b;
        CountedTwice(rows, i, j);
        CountedOnce(items, a);
      }
    }
  }

  lemma CountedOnce(items: seq<Item>, a: nat)
    requires UniqueIds(items) && a < |items|
    ensures multiset(items)[items[a]] == 1
  {
    var x := items[a];
    assert items == items[..a] + ([x] + items[a + 1..]);
    assert multiset(items) == multiset(items[..a]) + (multiset{x} + multiset(items[a + 1..]));
    assert x !in items[..a] && x !in items[a + 1..];
  }

  /** The regression variant: one query for the items, then one more for each of them. */
  method GetItemsRegression(ghost items: seq<Item>, ghost details: seq<DetailRow>,
                            rows: seq<Item>, fetch: nat -> seq<Detail>)
    returns (views: seq<View>)
    requires UniqueIds(items) && Ordered(items, rows)
    requires forall i: nat :: i < |rows| ==> multiset(fetch(i)) == multiset(DetailsOf(details, rows[i].id))
    ensures Listing(items, details, views)
  {
    OrderedIsStrict(items, rows);
    views := [];
    for i := 0 to |rows|
      invariant |views| == i
      invariant forall j :: 0 <= j < i ==> views[j].item == rows[j]
      invariant forall j :: 0 <= j < i ==> multiset(views[j].details) == multiset(DetailsOf(details, rows[j].id))
    {
      views := views + [View(rows[i], fetch(i))];
    }
    forall k ensures InRows(views, k) <==> k in items {
      if k in rows {
        var j :| 0 <= j < |rows| && rows[j] == k;
        assert views[j].item == k;
      }
    }
  }

  /** The loop over the fetched rows. */
  method Shaped(rows: seq<View>) returns (views: seq<View>)
    ensures views == rows
  {
    views := [];
    for i := 0 to |rows|
      invariant views == rows[..i]
    {
      views := views + [View(rows[i].item, rows[i].details)];
    }
  }

  /** The good variant: the rows of the grouped join, whatever order the joined rows took. */
  method GetItemsGood(ghost items: seq<Item>, ghost details: seq<DetailRow>, ghost joined: seq<Joined>, rows: seq<View>)
    returns (views: seq<View>)
    requires UniqueIds(items)
    requires multiset(joined) == multiset(LeftJoin(items, details)) && Grouped(joined, rows)
    ensures Listing(items, details, views)
  {
    views := Shaped(rows);
    GroupedIsListing(items, details, joined, rows);
  }

  /** The single query answers what the N+1 loop answers, over all tables with unique item ids. */
  lemma VariantsAgree(items: seq<Item>, details: seq<DetailRow>, joined: seq<Joined>, good: seq<View>, loop: seq<View>)
    requires UniqueIds(items)
    requires multiset(joined) == multiset(LeftJoin(items, details)) && Grouped(joined, good)
    requires Listing(items, details, loop)
    ensures SameListing(good, loop)
    ensures forall i :: 0 <= i < |good| && DetailsOf(details, good[i].item.id) == [] ==> good[i].details == []
  {
    GroupedIsListing(items, details, joined, good);
    ListingsAgree(items, details, good, loop);
    forall i | 0 <= i < |good| && DetailsOf(details, good[i].item.id) == [] ensures good[i].details == [] {
      assert |multiset(good[i].details)| == |good[i].details|;
    }
  }

  // ---------------------------------------------------------------- creating items

  function GetOrEmpty(m: map<string, string>, key: string): string { if key in m then m[key] else "" }

  /** `details[0..n]` of a payload as stored. */
  function Stored(payload: seq<map<string, string>>): seq<Detail> {
    seq(|payload|, i requires 0 <= i < |payload| =>
      Detail(GetOrEmpty(payload[i], "key"), GetOrEmpty(payload[i], "value")))
  }

  /** Every entry of the payload in its place, a missing key or value as an empty one. */
  lemma WhatIsStored(payload: seq<map<string, string>>)
    ensures |Stored(payload)| == |payload|
    ensures forall i :: 0 <= i < |payload| ==>
              && Stored(payload)[i].key == (if "key" in payload[i] then payload[i]["key"] else "")
              && Stored(payload)[i].value == (if "value" in payload[i] then payload[i]["value"] else "")
  {}

  datatype Post = Post(name: string, description: string)

  /** The items after an insert that takes its id from the sequence; a taken id violates the primary key. */
  function Inserted(items: seq<Item>, next: int, post: Post): seq<Item> {
    if HasId(items, next) then items else items + [Item(next, post.name, post.description)]
  }

  class Catalogue {
    var items: seq<Item>
    var details: seq<DetailRow>
    var next: int              // the next value of the items' id sequence

    /** Primary key and foreign key. */
    ghost predicate Valid()
      reads this
    {
      UniqueIds(items) && References(items, details)
    }

    /** Rows with explicit ids leave the sequence where it was. */
    constructor (items: seq<Item>, details: seq<DetailRow>, next: int)
      requires UniqueIds(items) && References(items, details)
      ensures Valid() && this.items == items && this.details == details && this.next == next
    {
      this.items, this.details, this.next := items, details, next;
    }

    /** `POST /items`. None is the failed insert, which rolls the tables back but not the sequence. */
    method CreateItem(post: Post, payload: seq<map<string, string>>, detailIds: nat -> int) returns (id: Option<int>)
      requires Valid()
      modifies this
      ensures Valid() && next == old(next) + 1 && items == Inserted(old(items), old(next), post)
      ensures id == if HasId(old(items), old(next)) then None else Some(old(next))
      ensures id.None? ==> details == old(details) && items == old(items)
      ensures id.Some? ==> items == old(items) + [Item(id.value, post.name, post.description)]
      ensures id.Some? ==> DetailsOf(details, id.value) == Stored(payload)
      ensures id.Some? ==>
                forall other :: other != id.value ==> DetailsOf(details, other) == DetailsOf(old(details), other)
    {
      var newId := next;
      next := next + 1;
      if exists i :: 0 <= i < |items| && items[i].id == newId { return None; }
      InsertDetails(newId, post, payload, detailIds);
      id := Some(newId);
    }

    method InsertDetails(newId: int, post: Post, payload: seq<map<string, string>>, detailIds: nat -> int)
      requires Valid() && !HasId(items, newId)
      modifies this`items, this`details
      ensures Valid() && items == old(items) + [Item(newId, post.name, post.description)]
      ensures DetailsOf(details, newId) == Stored(payload)
      ensures forall other :: other != newId ==> DetailsOf(details, other) == DetailsOf(old(details), other)
    {
      ReferencesSurvive(items, Item(newId, post.name, post.description), details);
      NoDetailsYet(items, details, newId);
      items := items + [Item(newId, post.name, post.description)];
      ghost var before := details;
      for i := 0 to |payload|
        invariant items == old(items) + [Item(newId, post.name, post.description)]
        invariant References(items, details) && HasId(items, newId)
        invariant DetailsOf(details, newId) == Stored(payload)[..i]
        invariant forall other :: other != newId ==> DetailsOf(details, other) == DetailsOf(before, other)
      {
        var row := DetailRow(detailIds(i), Some(newId), GetOrEmpty(payload[i], "key"), GetOrEmpty(payload[i], "value"));
        DetailsOfNewRow(details, row);
        details := details + [row];
      }
    }
  }

  // ---------------------------------------------------------------- posting to a seeded catalogue

  /** The items after each of a run of posts that started with the sequence at `first`. */
  ghost predicate PostRun(states: seq<seq<Item>>, first: int, posts: seq<Post>) {
    && |states| == |posts| + 1
    && forall n :: 0 <= n < |posts| ==> states[n + 1] == Inserted(states[n], first + n, posts[n])
  }

  lemma InsertedHasId(items: seq<Item>, next: int, post: Post, id: int)
    ensures HasId(Inserted(items, next, post), id) <==> HasId(items, id) || id == next
  {
    var more := items + [Item(next, post.name, post.description)];
    assert forall i :: 0 <= i < |items| ==> more[i] == items[i];
    assert more[|items|].id == next;
  }

  lemma {:induction false} IdsAfterPosts(states: seq<seq<Item>>, first: int, posts: seq<Post>, n: nat, id: int)
    requires PostRun(states, first, posts) && n < |states|
    ensures HasId(states[n], id) <==> HasId(states[0], id) || first <= id < first + n
  {
    if n > 0 {
      IdsAfterPosts(states, first, posts, n - 1, id);
      InsertedHasId(states[n - 1], first + n - 1, posts[n - 1], id);
    }
  }

  /** A post succeeds exactly when no seeded row has the id it draws, whatever was posted before. */
  lemma WhenPostsSucceed(states: seq<seq<Item>>, first: int, posts: seq<Post>, n: nat)
    requires PostRun(states, first, posts) && n < |posts|
    ensures |states[n + 1]| == |states[n]| + 1 <==> !HasId(states[0], first + n)
    ensures HasId(states[0], first + n) ==> states[n + 1] == states[n]
  {
    IdsAfterPosts(states, first, posts, n, first + n);
  }

  /** Seeded with ids 1 to k and the sequence still at 1, exactly the first k posts fail. */
  lemma SeededCatalogueRefusesItsFirstPosts(states: seq<seq<Item>>, posts: seq<Post>, k: nat, n: nat)
    requires PostRun(states, 1, posts) && n < |posts|
    requires forall id :: HasId(states[0], id) <==> 1 <= id <= k
    ensures |states[n + 1]| == |states[n]| + 1 <==> n >= k
  {
    WhenPostsSucceed(states, 1, posts, n);
  }

  const SEED: seq<Item> := [
    Item(1, "Standard Widget", "General purpose widget"), Item(2, "Premium Widget", "High performance widget")]

  /** With the two seeded items the first post fails and the third succeeds. */
  lemma FirstPostOnTheSeedFails(post: Post)
    ensures Inserted(SEED, 1, post) == SEED && Inserted(SEED, 2, post) == SEED
    ensures Inserted(SEED, 3, post) == SEED + [Item(3, post.name, post.description)]
  {
    assert SEED[0].id == 1 && SEED[1].id == 2;
  }

  ghost predicate References(items: seq<Item>, details: seq<DetailRow>) {
    forall d :: d in details && d.itemId.Some? ==> HasId(items, d.itemId.value)
  }

  predicate HasId(items: seq<Item>, id: int) { exists i :: 0 <= i < |items| && items[i].id == id }

  lemma ReferencesSurvive(items: seq<Item>, item: Item, details: seq<DetailRow>)
    requires References(items, details)
    ensures References(items + [item], details) && HasId(items + [item], item.id)
  {
    assert (items + [item])[|items|].id == item.id;
    forall d | d in details && d.itemId.Some? ensures HasId(items + [item], d.itemId.value) {
      var i :| 0 <= i < |items| && items[i].id == d.itemId.value;
      assert (items + [item])[i] == items[i];
    }
  }

  lemma DetailsOfNewRow(details: seq<DetailRow>, row: DetailRow)
    ensures forall x :: DetailsOf(details + [row], x) == DetailsOf(details, x) + OwnDetail(row, x)
  {
    forall x ensures DetailsOf(details + [row], x) == DetailsOf(details, x) + OwnDetail(row, x) {
      DetailsOfAppend(details, [row], x);
      assert DetailsOf([row], x) == OwnDetail(row, x) + DetailsOf([], x);
    }
  }

  lemma {:induction false} NoDetailsYet(items: seq<Item>, details: seq<DetailRow>, id: int)
    requires References(items, details) && forall i :: 0 <= i < |items| ==> items[i].id != id
    ensures DetailsOf(details, id) == []
  {
    if details != [] {
      assert details[0] in details;
      assert forall d :: d in details[1..] ==> d in details;
      NoDetailsYet(items, details[1..], id);
    }
  }
}
