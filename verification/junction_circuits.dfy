/** 2025/08: junction boxes joined pair by pair, closest pairs first, into
    networks. A small database maps each network number to the names of its
    boxes (`data`) and each box name to its network number (`index`). Box names
    are the coordinate strings of the input; the distance order of the pairs is
    taken as given. */
module JunctionCircuits {
  import opened Common

  type Name = string

  /** No element occurs twice. */
  predicate NoDup<T(==)>(s: seq<T>) {
    forall i, j :: 0 <= i < j < |s| ==> s[i] != s[j]
  }

  /** Appending `x` unless it is already there: the `array_find` guarded push
      of `store`, and the position a new key takes in a PHP array. */
  function AppendNew<T(==, !new)>(s: seq<T>, x: T): (r: seq<T>)
    ensures forall y :: y in r <==> y in s || y == x
    ensures NoDup(s) ==> NoDup(r)
    ensures x in s ==> r == s
  {
    if x in s then s else s + [x]
  }

  /** `array_unique`: the first occurrence of every element, in order. */
  function Unique<T(==, !new)>(s: seq<T>): (r: seq<T>)
    ensures NoDup(r)
    ensures forall y :: y in r <==> y in s
  {
    if s == [] then []
    else
      assert forall y :: y in s <==> y in s[..|s| - 1] || y == s[|s| - 1] by {
        assert s == s[..|s| - 1] + [s[|s| - 1]];
      }
      AppendNew(Unique(s[..|s| - 1]), s[|s| - 1])
  }

  /** Without duplicates there is nothing for `array_unique` to drop. */
  lemma {:induction false} UniqueOfNoDup<T(!new)>(s: seq<T>)
    requires NoDup(s)
    ensures Unique(s) == s
  {
    if s != [] {
      var init, last := s[..|s| - 1], s[|s| - 1];
      assert NoDup(init);
      UniqueOfNoDup(init);
      forall i | 0 <= i < |init|
        ensures init[i] != last
      {
        assert init[i] == s[i];
      }
      InitLast(s);
    }
  }

  lemma {:induction false} InitLast<T>(s: seq<T>)
    requires s != []
    ensures s[..|s| - 1] + [s[|s| - 1]] == s
  {
  }

  /** `array_keys($index, $v)`: the names indexed to `v`, in the index's order. */
  function KeysOf(ks: seq<Name>, ix: map<Name, nat>, v: nat): (r: seq<Name>)
    ensures forall x :: x in r <==> x in ks && x in ix && ix[x] == v
    ensures NoDup(ks) ==> NoDup(r)
  {
    if ks == [] then []
    else
      var init := ks[..|ks| - 1];
      var last := ks[|ks| - 1];
      assert ks == init + [last];
      assert NoDup(ks) ==> NoDup(init) && last !in init;
      KeysOf(init, ix, v) + (if last in ix && ix[last] == v then [last] else [])
  }

  /** `array_diff($items, $confirm)`: the items `confirm` does not hold. */
  function Diff(items: seq<Name>, confirm: seq<Name>): (r: seq<Name>)
    ensures forall x :: x in r <==> x in items && x !in confirm
    ensures (forall x :: x in items ==> x in confirm) ==> r == []
  {
    if items == [] then []
    else
      var init := items[..|items| - 1];
      var last := items[|items| - 1];
      assert items == init + [last];
      Diff(init, confirm) + (if last in confirm then [] else [last])
  }

  // ---------------------------------------------------------------------------
  // The network database

  /** The `junction_boxes` database: the box names of each network, the
      network of each box, and the order in which the index got its keys. */
  datatype Db = Db(data: map<nat, seq<Name>>, index: map<Name, nat>, keys: seq<Name>)

  /** The index's keys are listed once each, in `keys`. */
  ghost predicate KeysAgree(db: Db) {
    NoDup(db.keys) && forall x :: x in db.index <==> x in db.keys
  }

  /** Network numbers run below the number of networks, so `count($data)` is
      always a new one. */
  ghost predicate Numbered(db: Db) {
    forall n :: n in db.data ==> n < |db.data|
  }

  /** No network lists a box twice. */
  ghost predicate ListsOnce(db: Db) {
    forall n :: n in db.data ==> NoDup(db.data[n])
  }

  /** A box listed in a network is indexed to it. */
  ghost predicate ListedIndexed(db: Db) {
    forall n, x :: n in db.data && x in db.data[n] ==> x in db.index && db.index[x] == n
  }

  /** An indexed box is listed in the network it is indexed to. */
  ghost predicate IndexedListed(db: Db) {
    forall x :: x in db.index ==> db.index[x] in db.data && x in db.data[db.index[x]]
  }

  /** The database agrees with itself. */
  ghost predicate Consistent(db: Db) {
    KeysAgree(db) && Numbered(db) && ListsOnce(db) && ListedIndexed(db) && IndexedListed(db)
  }

  /** Both boxes are indexed, to the same network. */
  predicate Same(ix: map<Name, nat>, a: Name, b: Name) {
    a in ix && b in ix && ix[a] == ix[b]
  }

  /** The boxes of network `n`, none if the network does not exist. */
  function Members(db: Db, n: nat): seq<Name> {
    if n in db.data then db.data[n] else []
  }

  /** `$index[$item] = $v`. */
  function Put(db: Db, item: Name, v: nat): Db {
    db.(index := db.index[item := v], keys := AppendNew(db.keys, item))
  }

  /** One turn of `store`'s loop: index the item, and list it once. */
  function StoreItem(db: Db, n: nat, item: Name): Db
    requires n in db.data
  {
    if item in db.data[n] then Put(db, item, n)
    else Put(db, item, n).(data := db.data[n := db.data[n] + [item]])
  }

  /** `store`'s loop over `items`. */
  function StoreAll(db: Db, n: nat, items: seq<Name>): (r: Db)
    requires n in db.data
    ensures n in r.data
  {
    if items == [] then db else StoreItem(StoreAll(db, n, items[..|items| - 1]), n, items[|items| - 1])
  }

  lemma {:induction false} StoreAllStep(db: Db, n: nat, items: seq<Name>, k: nat)
    requires n in db.data && k < |items|
    ensures StoreAll(db, n, items[..k + 1]) == StoreItem(StoreAll(db, n, items[..k]), n, items[k])
  {
    assert items[..k + 1][..k] == items[..k];
  }

  /** `store`: creates network `n` if it is missing, then indexes and lists
      each of the two (or one) boxes. */
  function Stored(db: Db, n: nat, a: Name, b: Name): Db {
    StoreAll(WithNetwork(db, n), n, Unique([a, b]))
  }

  /** `store`'s first step: network `n` is created empty if it is missing. */
  function WithNetwork(db: Db, n: nat): (r: Db)
    ensures n in r.data && r.index == db.index && r.keys == db.keys
  {
    if n in db.data then db else db.(data := db.data[n := []])
  }

  /** The index with every box of `items` sent to network `v`. */
  function Reindex(db: Db, items: seq<Name>, v: nat): Db {
    if items == [] then db else Put(Reindex(db, items[..|items| - 1], v), items[|items| - 1], v)
  }

  lemma {:induction false} ReindexStep(db: Db, items: seq<Name>, v: nat, k: nat)
    requires k < |items|
    ensures Reindex(db, items[..k + 1], v) == Put(Reindex(db, items[..k], v), items[k], v)
  {
    assert items[..k + 1][..k] == items[..k];
  }

  /** What a successful merge leaves: the boxes `confirm` appended to network
      `dst` (once each), network `src` emptied, and the boxes re-indexed. */
  function Moved(db: Db, src: nat, dst: nat, confirm: seq<Name>): Db {
    var d := db.(data := db.data[dst := Unique(Members(db, dst) + confirm)]);
    Reindex(d.(data := d.data[src := []]), confirm, dst)
  }

  /** `mergeNetworks` throws: the source network does not exist, or it lists a
      box the index does not send to it. */
  predicate MergeRejects(db: Db, src: nat) {
    src !in db.data || (db.data[src] != [] && Diff(db.data[src], KeysOf(db.keys, db.index, src)) != [])
  }

  /** The outcome of `mergeNetworks`: the number of boxes moved, or the
      exception, together with the new database. */
  function Merge(db: Db, src: nat, dst: nat): (r: (Result<int>, Db))
    ensures r.0.Err? <==> MergeRejects(db, src)
    ensures r.0.Err? ==> r.1 == db
  {
    if src !in db.data then (Err("Cannot merge source does not exist"), db)
    else if db.data[src] == [] then (Ok(0), db)
    else
      var confirm := KeysOf(db.keys, db.index, src);
      if Diff(db.data[src], confirm) == [] then (Ok(|confirm|), Moved(db, src, dst, confirm))
      else (Err("Cannot merge due to data inconsistency"), db)
  }

  // ---------------------------------------------------------------------------
  // What store and mergeNetworks keep

  /** The index keeps every box it had, at the same network. */
  predicate Extends(old_ix: map<Name, nat>, ix: map<Name, nat>) {
    forall x :: x in old_ix ==> x in ix && ix[x] == old_ix[x]
  }

  /** An index that extends another keeps every pair it put together. */
  lemma {:induction false} ExtendsKeepsSame(old_ix: map<Name, nat>, ix: map<Name, nat>)
    requires Extends(old_ix, ix)
    ensures forall x, y :: Same(old_ix, x, y) ==> Same(ix, x, y)
  {
  }

  /** Re-indexing changes nothing but the index, and sends exactly the boxes
      of `items` to `v`; boxes the index already had keep their key order. */
  lemma {:induction false} ReindexFacts(db: Db, items: seq<Name>, v: nat)
    ensures var r := Reindex(db, items, v);
      && r.data == db.data
      && (forall x :: x in r.index <==> x in db.index || x in items)
      && (forall x :: x in r.index ==> r.index[x] == if x in items then v else db.index[x])
      && ((forall x :: x in items ==> x in db.keys) ==> r.keys == db.keys)
  {
    if items != [] {
      var init := items[..|items| - 1];
      assert items == init + [items[|items| - 1]];
      ReindexFacts(db, init, v);
    }
  }

  /** `store` takes one turn for a single box and two for two boxes. */
  lemma {:induction false} StoredSteps(db: Db, n: nat, a: Name, b: Name)
    ensures var d := StoreItem(WithNetwork(db, n), n, a);
      Stored(db, n, a, b) == if a == b then d else StoreItem(d, n, b)
  {
    assert [a, b][..1] == [a] && [a][..0] == [];
    assert Unique([a]) == [a];
    var d0 := WithNetwork(db, n);
    assert StoreAll(d0, n, [a]) == StoreItem(d0, n, a);
  }

  /** Creating network `n`, the next free number, keeps the database consistent. */
  lemma {:induction false} WithNetworkKeeps(db: Db, n: nat)
    requires Consistent(db) && (n in db.data || n == |db.data|)
    ensures Consistent(WithNetwork(db, n)) && WithNetwork(db, n).index == db.index
  {
    if n !in db.data {
      var d := WithNetwork(db, n);
      assert |d.data| == |db.data| + 1;
      assert forall m :: m in d.data && m != n ==> d.data[m] == db.data[m];
    }
  }

  lemma {:induction false} StoreItemKeys(db: Db, n: nat, item: Name)
    requires KeysAgree(db) && n in db.data
    ensures KeysAgree(StoreItem(db, n, item))
  {
  }

  lemma {:induction false} StoreItemNumbered(db: Db, n: nat, item: Name)
    requires Numbered(db) && n in db.data
    ensures Numbered(StoreItem(db, n, item))
  {
    assert |StoreItem(db, n, item).data| == |db.data|;
  }

  lemma {:induction false} StoreItemLists(db: Db, n: nat, item: Name)
    requires ListsOnce(db) && n in db.data
    ensures ListsOnce(StoreItem(db, n, item))
  {
    var r := StoreItem(db, n, item);
    forall m | m in r.data ensures NoDup(r.data[m]) {
      if m != n { assert r.data[m] == db.data[m]; }
    }
  }

  lemma {:induction false} StoreItemListed(db: Db, n: nat, item: Name)
    requires ListedIndexed(db) && n in db.data
    requires item !in db.index || db.index[item] == n
    ensures ListedIndexed(StoreItem(db, n, item))
  {
    var r := StoreItem(db, n, item);
    forall m, x | m in r.data && x in r.data[m] ensures x in r.index && r.index[x] == m {
      if m != n {
        assert r.data[m] == db.data[m];
      }
    }
  }

  lemma {:induction false} StoreItemIndexed(db: Db, n: nat, item: Name)
    requires IndexedListed(db) && n in db.data
    ensures IndexedListed(StoreItem(db, n, item))
  {
    var r := StoreItem(db, n, item);
    forall x | x in r.index ensures r.index[x] in r.data && x in r.data[r.index[x]] {
      if x != item && db.index[x] != n {
        assert r.data[db.index[x]] == db.data[db.index[x]];
      }
    }
  }

  /** The index after `store`: both boxes sent to `n`, the others kept. */
  lemma {:induction false} StoredIndex(db: Db, n: nat, a: Name, b: Name)
    requires a !in db.index || db.index[a] == n
    requires b !in db.index || db.index[b] == n
    ensures var r := Stored(db, n, a, b);
      a in r.index && b in r.index && r.index[a] == n && r.index[b] == n && Extends(db.index, r.index)
  {
    StoredSteps(db, n, a, b);
    var d1 := StoreItem(WithNetwork(db, n), n, a);
    PutExtends(db.index, a, n);
    if a != b {
      PutExtends(d1.index, b, n);
    }
  }

  /** Indexing a box that is new or already at `n` to `n` moves no box. */
  lemma {:induction false} PutExtends(ix: map<Name, nat>, item: Name, n: nat)
    requires item !in ix || ix[item] == n
    ensures Extends(ix, ix[item := n])
  {
  }

  lemma {:induction false} StoredKeys(db: Db, n: nat, a: Name, b: Name)
    requires KeysAgree(db)
    ensures KeysAgree(Stored(db, n, a, b))
  {
    StoredSteps(db, n, a, b);
    var d := WithNetwork(db, n);
    StoreItemKeys(d, n, a);
    StoreItemKeys(StoreItem(d, n, a), n, b);
  }

  lemma {:induction false} StoredNumbered(db: Db, n: nat, a: Name, b: Name)
    requires Consistent(db) && (n in db.data || n == |db.data|)
    ensures Numbered(Stored(db, n, a, b))
  {
    StoredSteps(db, n, a, b);
    WithNetworkKeeps(db, n);
    var d := WithNetwork(db, n);
    StoreItemNumbered(d, n, a);
    StoreItemNumbered(StoreItem(d, n, a), n, b);
  }

  lemma {:induction false} StoredLists(db: Db, n: nat, a: Name, b: Name)
    requires Consistent(db) && (n in db.data || n == |db.data|)
    ensures ListsOnce(Stored(db, n, a, b))
  {
    StoredSteps(db, n, a, b);
    WithNetworkKeeps(db, n);
    var d := WithNetwork(db, n);
    StoreItemLists(d, n, a);
    StoreItemLists(StoreItem(d, n, a), n, b);
  }

  lemma {:induction false} StoredListed(db: Db, n: nat, a: Name, b: Name)
    requires Consistent(db) && (n in db.data || n == |db.data|)
    requires a !in db.index || db.index[a] == n
    requires b !in db.index || db.index[b] == n
    ensures ListedIndexed(Stored(db, n, a, b))
  {
    StoredSteps(db, n, a, b);
    WithNetworkKeeps(db, n);
    var d := WithNetwork(db, n);
    StoreItemListed(d, n, a);
    StoreItemListed(StoreItem(d, n, a), n, b);
  }

  lemma {:induction false} StoredIndexed(db: Db, n: nat, a: Name, b: Name)
    requires Consistent(db) && (n in db.data || n == |db.data|)
    ensures IndexedListed(Stored(db, n, a, b))
  {
    StoredSteps(db, n, a, b);
    WithNetworkKeeps(db, n);
    var d := WithNetwork(db, n);
    StoreItemIndexed(d, n, a);
    StoreItemIndexed(StoreItem(d, n, a), n, b);
  }

  /** `store` of boxes that are new or already in network `n`, where `n` is a
      network or the next free number, keeps the database consistent, puts
      both boxes in network `n` and moves no other box. */
  lemma {:induction false} StoreKeeps(db: Db, n: nat, a: Name, b: Name)
    requires Consistent(db) && (n in db.data || n == |db.data|)
    requires a !in db.index || db.index[a] == n
    requires b !in db.index || db.index[b] == n
    ensures var r := Stored(db, n, a, b);
      && Consistent(r)
      && a in r.index && r.index[a] == n && Same(r.index, a, b)
      && Extends(db.index, r.index)
  {
    StoredIndex(db, n, a, b);
    StoredKeys(db, n, a, b);
    StoredNumbered(db, n, a, b);
    StoredLists(db, n, a, b);
    StoredListed(db, n, a, b);
    StoredIndexed(db, n, a, b);
  }

  /** The boxes `array_keys` finds for a network are those it lists. */
  lemma {:induction false} ConfirmIsMembers(db: Db, src: nat)
    requires KeysAgree(db) && ListedIndexed(db) && IndexedListed(db) && src in db.data
    ensures forall x :: x in KeysOf(db.keys, db.index, src) <==> x in db.data[src]
    ensures Diff(db.data[src], KeysOf(db.keys, db.index, src)) == []
  {
  }

  /** Merging two different networks of a consistent database never throws,
      keeps it consistent, lists in `dst` the boxes of both networks, empties
      `src` and sends its boxes to `dst`; no other box moves. */
  lemma {:induction false} MergeKeeps(db: Db, src: nat, dst: nat)
    requires Consistent(db) && src in db.data && dst in db.data && src != dst
    ensures !MergeRejects(db, src)
    ensures var r := Merge(db, src, dst).1;
      && Consistent(r)
      && src in r.data && dst in r.data && r.data[src] == []
      && (forall x :: x in r.data[dst] <==> x in db.data[dst] || x in db.data[src])
      && (forall x :: x in db.index ==> x in r.index && r.index[x] == if db.index[x] == src then dst else db.index[x])
  {
    ConfirmIsMembers(db, src);
    if db.data[src] != [] {
      assert Merge(db, src, dst).1 == Moved(db, src, dst, KeysOf(db.keys, db.index, src));
      var confirm := KeysOf(db.keys, db.index, src);
      MovedKeeps(db, src, dst, confirm);
      MovedConsistent(db, src, dst, confirm);
    }
  }

  lemma {:induction false} MovedKeeps(db: Db, src: nat, dst: nat, confirm: seq<Name>)
    requires Consistent(db) && src in db.data && dst in db.data && src != dst
    requires confirm == KeysOf(db.keys, db.index, src)
    requires forall x :: x in confirm <==> x in db.data[src]
    ensures var r := Moved(db, src, dst, confirm);
      && src in r.data && dst in r.data && r.data[src] == []
      && (forall x :: x in r.data[dst] <==> x in db.data[dst] || x in db.data[src])
      && (forall x :: x in db.index ==> x in r.index && r.index[x] == if db.index[x] == src then dst else db.index[x])
  {
    MovedShape(db, src, dst, confirm);
  }

  lemma {:induction false} MovedConsistent(db: Db, src: nat, dst: nat, confirm: seq<Name>)
    requires Consistent(db) && src in db.data && dst in db.data && src != dst
    requires confirm == KeysOf(db.keys, db.index, src)
    requires forall x :: x in confirm <==> x in db.data[src]
    ensures Consistent(Moved(db, src, dst, confirm))
  {
    var u := Unique(Members(db, dst) + confirm);
    var r := Moved(db, src, dst, confirm);
    MovedShape(db, src, dst, confirm);
    assert forall x :: x in db.index ==> (x in confirm <==> db.index[x] == src);
    MovedKeysAgree(db, r, confirm);
    MovedNumbered(db, r, src, dst, u);
    MovedLists(db, r, src, dst, u);
    MovedListed(db, r, src, dst, u, confirm);
    MovedIndexed(db, r, src, dst, u, confirm);
  }

  /** The database after a merge, spelled out. */
  lemma {:induction false} MovedShape(db: Db, src: nat, dst: nat, confirm: seq<Name>)
    requires dst in db.data
    requires forall x :: x in confirm ==> x in db.keys
    ensures var u := Unique(Members(db, dst) + confirm);
      var r := Moved(db, src, dst, confirm);
      && NoDup(u) && (forall x :: x in u <==> x in db.data[dst] || x in confirm)
      && r.data == db.data[dst := u][src := []]
      && r.keys == db.keys
      && (forall x :: x in r.index <==> x in db.index || x in confirm)
      && (forall x :: x in r.index ==> r.index[x] == if x in confirm then dst else db.index[x])
  {
    var u := Unique(Members(db, dst) + confirm);
    var d := db.(data := db.data[dst := u]);
    var d' := d.(data := d.data[src := []]);
    ReindexFacts(d', confirm, dst);
    assert forall x :: x in Members(db, dst) + confirm <==> x in db.data[dst] || x in confirm;
  }

  lemma {:induction false} MovedKeysAgree(db: Db, r: Db, confirm: seq<Name>)
    requires KeysAgree(db) && r.keys == db.keys
    requires forall x :: x in confirm ==> x in db.index
    requires forall x :: x in r.index <==> x in db.index || x in confirm
    ensures KeysAgree(r)
  {
  }

  lemma {:induction false} MovedNumbered(db: Db, r: Db, src: nat, dst: nat, u: seq<Name>)
    requires Numbered(db) && src in db.data && dst in db.data
    requires r.data == db.data[dst := u][src := []]
    ensures Numbered(r)
  {
    assert |r.data| == |db.data|;
  }

  lemma {:induction false} MovedLists(db: Db, r: Db, src: nat, dst: nat, u: seq<Name>)
    requires ListsOnce(db) && NoDup(u)
    requires r.data == db.data[dst := u][src := []]
    ensures ListsOnce(r)
  {
    forall m | m in r.data ensures NoDup(r.data[m]) {
      if m != src && m != dst { assert r.data[m] == db.data[m]; }
    }
  }

  lemma {:induction false} MovedListed(db: Db, r: Db, src: nat, dst: nat, u: seq<Name>, confirm: seq<Name>)
    requires ListedIndexed(db) && src in db.data && dst in db.data && src != dst
    requires r.data == db.data[dst := u][src := []]
    requires forall x :: x in u <==> x in db.data[dst] || x in confirm
    requires forall x :: x in confirm ==> x in db.index && db.index[x] == src
    requires forall x :: x in r.index <==> x in db.index || x in confirm
    requires forall x :: x in r.index ==> r.index[x] == if x in confirm then dst else db.index[x]
    ensures ListedIndexed(r)
  {
    forall m, x | m in r.data && x in r.data[m] ensures x in r.index && r.index[x] == m {
      if m != src && m != dst {
        assert r.data[m] == db.data[m];
      }
    }
  }

  lemma {:induction false} MovedIndexed(db: Db, r: Db, src: nat, dst: nat, u: seq<Name>, confirm: seq<Name>)
    requires IndexedListed(db) && src in db.data && dst in db.data && src != dst
    requires r.data == db.data[dst := u][src := []]
    requires forall x :: x in u <==> x in db.data[dst] || x in confirm
    requires forall x :: x in db.index ==> (x in confirm <==> db.index[x] == src)
    requires forall x :: x in r.index <==> x in db.index || x in confirm
    requires forall x :: x in r.index ==> r.index[x] == if x in confirm then dst else db.index[x]
    requires forall x :: x in confirm ==> x in db.index
    ensures IndexedListed(r)
  {
    forall x | x in r.index ensures r.index[x] in r.data && x in r.data[r.index[x]] {
      if x !in confirm && db.index[x] != dst {
        assert r.data[db.index[x]] == db.data[db.index[x]];
      }
    }
  }

  /** Every pair of boxes in one network stays in one network. */
  ghost predicate KeepsPairs(old_ix: map<Name, nat>, ix: map<Name, nat>) {
    forall x, y :: Same(old_ix, x, y) ==> Same(ix, x, y)
  }

  /** `store` indexes no box but the two it is given. */
  lemma {:induction false} StoredDomain(db: Db, n: nat, a: Name, b: Name)
    ensures forall x :: x in Stored(db, n, a, b).index ==> x in db.index || x == a || x == b
  {
    StoredSteps(db, n, a, b);
  }

  /** A merge indexes no new box, and keeps every pair together. */
  lemma {:induction false} MergeDomain(db: Db, src: nat, dst: nat)
    requires Consistent(db) && src in db.data && dst in db.data && src != dst
    ensures forall x :: x in Merge(db, src, dst).1.index ==> x in db.index
    ensures KeepsPairs(db.index, Merge(db, src, dst).1.index)
  {
    MergeKeeps(db, src, dst);
    ConfirmIsMembers(db, src);
    var confirm := KeysOf(db.keys, db.index, src);
    var d := db.(data := db.data[dst := Unique(Members(db, dst) + confirm)]);
    ReindexFacts(d.(data := d.data[src := []]), confirm, dst);
  }

  /** A full network of a consistent database whose boxes all come from
      `names`, with as many boxes as `names` has, holds every one of them. */
  lemma {:induction false} FullNetwork(db: Db, names: set<Name>, n: nat)
    requires Consistent(db) && n in db.data && |db.data[n]| == |names|
    requires forall x :: x in db.index ==> x in names
    ensures forall x :: x in names ==> x in db.data[n] && Same(db.index, x, db.data[n][0])
  {
    var listed := set x | x in db.data[n];
    assert listed <= names;
    DistinctCount(db.data[n]);
    if listed != names {
      SubsetSmaller(listed, names);
    }
  }

  /** So every box of `names` shares its network with any one of them. */
  lemma {:induction false} AllInOne(db: Db, names: set<Name>, k: Name)
    requires Consistent(db) && exists n :: n in db.data && |db.data[n]| == |names|
    requires forall x :: x in db.index ==> x in names
    requires k in names
    ensures forall x :: x in names ==> Same(db.index, x, k)
  {
    var n :| n in db.data && |db.data[n]| == |names|;
    FullNetwork(db, names, n);
  }

  /** A list without repeats has as many elements as its set. */
  lemma {:induction false} DistinctCount<T>(s: seq<T>)
    requires NoDup(s)
    ensures |set x | x in s| == |s|
  {
    if s != [] {
      var init := s[..|s| - 1];
      assert NoDup(init);
      DistinctCount(init);
      assert s == init + [s[|s| - 1]];
      assert (set x | x in s) == (set x | x in init) + {s[|s| - 1]};
    }
  }

  lemma {:induction false} SubsetSmaller<T>(a: set<T>, b: set<T>)
    requires a < b
    ensures |a| < |b|
  {
    var x :| x in b && x !in a;
    SubsetNoLarger(a, b - {x});
  }

  lemma {:induction false} SubsetNoLarger<T>(a: set<T>, b: set<T>)
    requires a <= b
    ensures |a| <= |b|
  {
    if a != {} {
      var x :| x in a;
      SubsetNoLarger(a - {x}, b - {x});
    }
  }

  // ---------------------------------------------------------------------------
  // PHP's ordering of the key lists of two networks

  /** PHP's comparison of two strings that are not numeric: character by
      character, a proper prefix first. */
  function StrCmp(s: string, t: string): (r: int)
    ensures -1 <= r <= 1
    ensures r == 0 <==> s == t
  {
    if s == [] && t == [] then 0
    else if s == [] then -1
    else if t == [] then 1
    else if s[0] < t[0] then -1
    else if s[0] > t[0] then 1
    else
      var r := StrCmp(s[1..], t[1..]);
      assert s == [s[0]] + s[1..] && t == [t[0]] + t[1..];
      r
  }

  lemma {:induction false} StrCmpFlip(s: string, t: string)
    ensures StrCmp(s, t) == -StrCmp(t, s)
  {
    if s != [] && t != [] && s[0] == t[0] {
      StrCmpFlip(s[1..], t[1..]);
    }
  }

  /** PHP's comparison of two lists: the shorter first, then the first
      differing element decides. */
  function ListCmp(a: seq<Name>, b: seq<Name>): (r: int)
    ensures -1 <= r <= 1
  {
    if |a| != |b| then (if |a| < |b| then -1 else 1)
    else if a == [] then 0
    else if StrCmp(a[0], b[0]) != 0 then StrCmp(a[0], b[0])
    else ListCmp(a[1..], b[1..])
  }

  /** The comparison is antisymmetric, so swapping the two networks swaps
      their order unless their lists are equal. */
  lemma {:induction false} ListCmpFlip(a: seq<Name>, b: seq<Name>)
    ensures ListCmp(a, b) == -ListCmp(b, a)
    ensures ListCmp(a, b) == 0 <==> a == b
  {
    if |a| == |b| && a != [] {
      StrCmpFlip(a[0], b[0]);
      ListCmpFlip(a[1..], b[1..]);
      if StrCmp(a[0], b[0]) == 0 {
        assert a == [a[0]] + a[1..] && b == [b[0]] + b[1..];
      }
    }
  }

  /** `array_unique(array_filter([$index_1, $index_2]))`: the networks the
      two boxes are already in. */
  function Found(i1: Option<nat>, i2: Option<nat>): (r: seq<nat>)
    ensures |r| == 0 <==> i1.None? && i2.None?
    ensures |r| == 2 <==> i1.Some? && i2.Some? && i1 != i2
    ensures |r| == 1 ==> (i1.Some? ==> i1.value == r[0]) && (i2.Some? ==> i2.value == r[0])
  {
    match (i1, i2)
    case (None, None) => []
    case (Some(v), None) => [v]
    case (None, Some(v)) => [v]
    case (Some(v), Some(w)) => if v == w then [v] else [v, w]
  }

  // ---------------------------------------------------------------------------
  // The largest networks

  /** A network of `getLargestNetworks`: its number and its boxes. */
  datatype Network = Network(id: nat, nodes: seq<Name>)

  /** `$largest_networks` while it is filled: the network numbers in the order
      they were first met, and the boxes of each. */
  datatype Table = Table(order: seq<nat>, nodes: map<nat, seq<Name>>)

  /** One turn of the loop: a network met for the first time gets an entry. */
  function AddNode(t: Table, id: nat, name: Name): Table {
    if id in t.nodes then t.(nodes := t.nodes[id := t.nodes[id] + [name]])
    else Table(t.order + [id], t.nodes[id := [name]])
  }

  /** The loop over the index, in its key order. */
  function Grouped(ks: seq<Name>, ix: map<Name, nat>): Table
    requires forall x :: x in ks ==> x in ix
  {
    if ks == [] then Table([], map[])
    else AddNode(Grouped(ks[..|ks| - 1], ix), ix[ks[|ks| - 1]], ks[|ks| - 1])
  }

  lemma {:induction false} GroupedStep(ks: seq<Name>, ix: map<Name, nat>, k: nat)
    requires forall x :: x in ks ==> x in ix
    requires k < |ks|
    ensures Grouped(ks[..k + 1], ix) == AddNode(Grouped(ks[..k], ix), ix[ks[k]], ks[k])
  {
    assert ks[..k + 1][..k] == ks[..k];
  }

  /** Every network met is listed once in the order. */
  lemma {:induction false} GroupedOrder(ks: seq<Name>, ix: map<Name, nat>)
    requires forall x :: x in ks ==> x in ix
    ensures var t := Grouped(ks, ix);
      NoDup(t.order) && forall id :: id in t.nodes <==> id in t.order
  {
    if ks != [] {
      GroupedOrder(ks[..|ks| - 1], ix);
    }
  }

  /** A network is met exactly when some box is indexed to it. */
  lemma {:induction false} GroupedMet(ks: seq<Name>, ix: map<Name, nat>)
    requires forall x :: x in ks ==> x in ix
    ensures forall id :: id in Grouped(ks, ix).nodes <==> exists x :: x in ks && ix[x] == id
  {
    if ks != [] {
      var init := ks[..|ks| - 1];
      assert ks == init + [ks[|ks| - 1]];
      GroupedMet(init, ix);
    }
  }

  /** Each network's boxes are the boxes indexed to it, in index order; a
      network never met has none. */
  lemma {:induction false} GroupedNodes(ks: seq<Name>, ix: map<Name, nat>)
    requires forall x :: x in ks ==> x in ix
    ensures var t := Grouped(ks, ix);
      forall id :: KeysOf(ks, ix, id) == if id in t.nodes then t.nodes[id] else []
  {
    if ks != [] {
      var init := ks[..|ks| - 1];
      var last := ks[|ks| - 1];
      GroupedNodes(init, ix);
      var t := Grouped(init, ix);
      var u := Grouped(ks, ix);
      assert u == AddNode(t, ix[last], last);
      forall id
        ensures KeysOf(ks, ix, id) == if id in u.nodes then u.nodes[id] else []
      {
        assert KeysOf(ks, ix, id) == KeysOf(init, ix, id) + (if ix[last] == id then [last] else []);
        if id != ix[last] {
          assert (id in u.nodes) == (id in t.nodes);
          assert id in u.nodes ==> u.nodes[id] == t.nodes[id];
        } else if id in t.nodes {
          assert u.nodes[id] == t.nodes[id] + [last];
        } else {
          assert u.nodes[id] == [last];
        }
      }
    }
  }

  /** The entries of the table as a list, in the table's order. */
  function Listed(order: seq<nat>, nodes: map<nat, seq<Name>>): (r: seq<Network>)
    requires forall id :: id in order ==> id in nodes
    ensures |r| == |order|
    ensures forall j :: 0 <= j < |r| ==> r[j] == Network(order[j], nodes[order[j]])
  {
    if order == [] then []
    else Listed(order[..|order| - 1], nodes) + [Network(order[|order| - 1], nodes[order[|order| - 1]])]
  }

  /** `Network::sortSizeDesc` puts the larger network first. */
  ghost predicate SortedBySize(s: seq<Network>) {
    forall i, j :: 0 <= i < j < |s| ==> |s[i].nodes| >= |s[j].nodes|
  }

  /** Inserts `g` after every network at least as large: the stable insertion
      step of `uasort`. */
  function InsertBySize(g: Network, s: seq<Network>): (r: seq<Network>)
    ensures multiset(r) == multiset(s) + multiset{g}
  {
    if s == [] then [g]
    else if |s[0].nodes| >= |g.nodes| then
      assert s == [s[0]] + s[1..];
      [s[0]] + InsertBySize(g, s[1..])
    else [g] + s
  }

  lemma {:induction false} InsertBySizeSorted(g: Network, s: seq<Network>)
    requires SortedBySize(s)
    ensures SortedBySize(InsertBySize(g, s))
  {
    if s != [] {
      if |s[0].nodes| >= |g.nodes| {
        var rest := s[1..];
        InsertBySizeSorted(g, rest);
        var t := InsertBySize(g, rest);
        forall k | 0 <= k < |t|
          ensures |s[0].nodes| >= |t[k].nodes|
        {
          assert t[k] in multiset(t);
          if t[k] != g {
            var m :| 0 <= m < |rest| && rest[m] == t[k];
            assert s[m + 1] == t[k];
          }
        }
        LeadSorted(s[0], t);
      } else {
        LeadSorted(g, s);
      }
    }
  }

  /** A network at least as large as every network of a sorted list can lead it. */
  lemma {:induction false} LeadSorted(h: Network, t: seq<Network>)
    requires SortedBySize(t)
    requires forall k :: 0 <= k < |t| ==> |h.nodes| >= |t[k].nodes|
    ensures SortedBySize([h] + t)
  {
    var r := [h] + t;
    forall i, j | 0 <= i < j < |r|
      ensures |r[i].nodes| >= |r[j].nodes|
    {
      assert r[j] == t[j - 1];
      if i > 0 {
        assert r[i] == t[i - 1];
      }
    }
  }

  /** `uasort($largest_networks, ['Network', 'sortSizeDesc'])`. */
  function SortBySize(s: seq<Network>): (r: seq<Network>)
    ensures multiset(r) == multiset(s)
  {
    if s == [] then []
    else
      assert s == s[..|s| - 1] + [s[|s| - 1]];
      InsertBySize(s[|s| - 1], SortBySize(s[..|s| - 1]))
  }

  lemma {:induction false} SortBySizeSorted(s: seq<Network>)
    ensures SortedBySize(SortBySize(s))
  {
    if s != [] {
      SortBySizeSorted(s[..|s| - 1]);
      InsertBySizeSorted(s[|s| - 1], SortBySize(s[..|s| - 1]));
    }
  }

  /** `array_slice($networks, 0, $limit)` for a positive limit, else all. */
  function Take(s: seq<Network>, limit: Option<int>): (r: seq<Network>)
    ensures limit.Some? && limit.value > 0 ==> |r| == Min(limit.value, |s|)
    ensures r <= s
  {
    if limit.Some? && limit.value > 0 then s[..Min(limit.value, |s|)] else s
  }

  /** What `getLargestNetworks` returns. */
  function Largest(ks: seq<Name>, ix: map<Name, nat>, limit: Option<int>): seq<Network>
    requires forall x :: x in ks ==> x in ix
  {
    var t := Grouped(ks, ix);
    GroupedOrder(ks, ix);
    Take(SortBySize(Listed(t.order, t.nodes)), limit)
  }

  /** The largest networks come largest first. */
  lemma {:induction false} LargestSorted(ks: seq<Name>, ix: map<Name, nat>, limit: Option<int>)
    requires forall x :: x in ks ==> x in ix
    ensures SortedBySize(Largest(ks, ix, limit))
  {
    var t := Grouped(ks, ix);
    GroupedOrder(ks, ix);
    SortBySizeSorted(Listed(t.order, t.nodes));
  }

  /** In a consistent database each of the largest networks is a network of
      the database, with exactly the boxes listed for it. */
  lemma {:induction false} LargestMembers(db: Db, limit: Option<int>)
    requires Consistent(db)
    ensures var r := Largest(db.keys, db.index, limit);
      forall j :: 0 <= j < |r| ==>
        r[j].id in db.data && (forall x :: x in r[j].nodes <==> x in db.data[r[j].id])
  {
    var t := Grouped(db.keys, db.index);
    GroupedOrder(db.keys, db.index);
    var l := Listed(t.order, t.nodes);
    var r := Largest(db.keys, db.index, limit);
    assert r <= SortBySize(l);
    forall j | 0 <= j < |r|
      ensures r[j].id in db.data && (forall x :: x in r[j].nodes <==> x in db.data[r[j].id])
    {
      LargestFromTable(db.keys, db.index, limit, j);
      TableEntry(db, t, r[j]);
    }
  }

  /** Each of the largest networks is an entry of the table. */
  lemma {:induction false} LargestFromTable(ks: seq<Name>, ix: map<Name, nat>, limit: Option<int>, j: nat)
    requires forall x :: x in ks ==> x in ix
    requires j < |Largest(ks, ix, limit)|
    ensures var t := Grouped(ks, ix);
      (forall id :: id in t.order ==> id in t.nodes) && Largest(ks, ix, limit)[j] in Listed(t.order, t.nodes)
  {
    var t := Grouped(ks, ix);
    GroupedOrder(ks, ix);
    var l := Listed(t.order, t.nodes);
    var sorted := SortBySize(l);
    assert Largest(ks, ix, limit)[j] == sorted[j];
    assert sorted[j] in multiset(l);
  }

  lemma {:induction false} TableEntry(db: Db, t: Table, net: Network)
    requires Consistent(db) && t == Grouped(db.keys, db.index)
    requires forall id :: id in t.order ==> id in t.nodes
    requires net in Listed(t.order, t.nodes)
    ensures net.id in db.data && (forall x :: x in net.nodes <==> x in db.data[net.id])
  {
    GroupedMet(db.keys, db.index);
    GroupedNodes(db.keys, db.index);
    var l := Listed(t.order, t.nodes);
    var k :| 0 <= k < |l| && l[k] == net;
    var x :| x in db.keys && db.index[x] == net.id;
    ConfirmIsMembers(db, net.id);
  }

  /** No network is listed twice. */
  lemma {:induction false} LargestDistinct(ks: seq<Name>, ix: map<Name, nat>, limit: Option<int>)
    requires forall x :: x in ks ==> x in ix
    ensures var r := Largest(ks, ix, limit);
      forall i, j :: 0 <= i < j < |r| ==> r[i].id != r[j].id
  {
    var t := Grouped(ks, ix);
    GroupedOrder(ks, ix);
    var l := Listed(t.order, t.nodes);
    var r := Largest(ks, ix, limit);
    forall i, j | 0 <= i < j < |r|
      ensures r[i].id != r[j].id
    {
      MultisetIds(l, SortBySize(l), t.order, i, j);
    }
  }

  /** Without a limit, every network of a consistent database that has a box
      is among them. */
  lemma {:induction false} LargestAll(db: Db)
    requires Consistent(db)
    ensures var r := Largest(db.keys, db.index, None);
      forall n :: n in db.data && db.data[n] != [] ==> exists j :: 0 <= j < |r| && r[j].id == n
  {
    var t := Grouped(db.keys, db.index);
    GroupedOrder(db.keys, db.index);
    var l := Listed(t.order, t.nodes);
    var r := Largest(db.keys, db.index, None);
    assert r == SortBySize(l);
    forall n | n in db.data && db.data[n] != []
      ensures exists j :: 0 <= j < |r| && r[j].id == n
    {
      NonEmptyMet(db, n);
      var k :| 0 <= k < |t.order| && t.order[k] == n;
      ListedInSorted(l, k);
    }
  }

  /** A network with a box is met by the loop over the index. */
  lemma {:induction false} NonEmptyMet(db: Db, n: nat)
    requires Consistent(db) && n in db.data && db.data[n] != []
    ensures n in Grouped(db.keys, db.index).nodes
  {
    GroupedMet(db.keys, db.index);
    var x := db.data[n][0];
    assert x in db.data[n];
    assert x in db.keys && db.index[x] == n;
  }

  lemma {:induction false} ListedInSorted(l: seq<Network>, k: nat)
    requires k < |l|
    ensures exists j :: 0 <= j < |SortBySize(l)| && SortBySize(l)[j].id == l[k].id
  {
    assert l[k] in multiset(SortBySize(l));
    assert l[k] in SortBySize(l);
  }

  /** Two positions of a reordering of the table's list hold different
      networks, since the table lists each network once. */
  lemma {:induction false} MultisetIds(l: seq<Network>, sorted: seq<Network>, order: seq<nat>, i: nat, j: nat)
    requires multiset(sorted) == multiset(l) && |l| == |order| && NoDup(order)
    requires forall k :: 0 <= k < |l| ==> l[k].id == order[k]
    requires i < j < |sorted|
    ensures sorted[i].id != sorted[j].id
  {
    assert sorted[i] in multiset(l) && sorted[j] in multiset(l);
    var a :| 0 <= a < |l| && l[a] == sorted[i];
    var b :| 0 <= b < |l| && l[b] == sorted[j];
    if sorted[i].id == sorted[j].id {
      assert a == b;
      TwoCopies(sorted, i, j);
      OneCopy(l, order, a);
    }
  }

  lemma {:induction false} TwoCopies(s: seq<Network>, i: nat, j: nat)
    requires i < j < |s| && s[i] == s[j]
    ensures multiset(s)[s[i]] >= 2
  {
    assert s == s[..j] + [s[j]] + s[j + 1..];
    assert s[i] in s[..j];
  }

  lemma {:induction false} OneCopy(l: seq<Network>, order: seq<nat>, a: nat)
    requires |l| == |order| && NoDup(order) && a < |l|
    requires forall k :: 0 <= k < |l| ==> l[k].id == order[k]
    ensures multiset(l)[l[a]] == 1
  {
    assert l == l[..a] + [l[a]] + l[a + 1..];
    assert l[a] !in l[..a];
    assert l[a] !in l[a + 1..];
  }

  // ---------------------------------------------------------------------------
  // The boxes

  /** `JunctionBox::MAX_CONNECTIONS`: 0 means no limit. */
  const MaxConnections: int := 0

  /** The product of two boxes' x coordinates, the answer once every box is
      in one network. */
  function MultiX(a: JunctionBox, b: JunctionBox): int {
    a.x * b.x
  }

  /** A junction box: its name, its coordinates, and the names of the boxes it
      has connected to (`out`) and been connected from (`in`). */
  class JunctionBox {
    const name: Name
    const x: int
    const y: int
    const z: int
    var inbound: seq<Name>
    var outbound: seq<Name>

    constructor(name: Name, x: int, y: int, z: int)
      ensures this.name == name && this.x == x && this.y == y && this.z == z
      ensures inbound == [] && outbound == []
    {
      this.name := name;
      this.x := x;
      this.y := y;
      this.z := z;
      inbound := [];
      outbound := [];
    }

    /** `connect`: a box already connected either way is left alone; otherwise,
        with no limit on connections, the edge is recorded at both ends. It
        always succeeds and never records an edge twice. */
    method Connect(jb: JunctionBox) returns (r: bool)
      modifies this, jb
      ensures r
      ensures jb.name in outbound || jb.name in inbound
      ensures old(jb.name in inbound || jb.name in outbound) ==>
        inbound == old(inbound) && outbound == old(outbound)
        && jb.inbound == old(jb.inbound) && jb.outbound == old(jb.outbound)
      ensures !old(jb.name in inbound || jb.name in outbound) ==>
        outbound == old(outbound) + [jb.name] && jb.inbound == old(jb.inbound) + [name]
        && (jb != this ==> inbound == old(inbound) && jb.outbound == old(jb.outbound))
      ensures NoDup(old(outbound)) ==> NoDup(outbound)
    {
      var alreadyIn := jb.name in inbound;
      if alreadyIn {
        return true;
      }
      var alreadyOut := jb.name in outbound;
      if alreadyOut {
        return true;
      }
      var outCount, inCount := |outbound|, |jb.inbound|;
      var unlimited := MaxConnections == 0;
      var limited := outCount < MaxConnections && inCount < MaxConnections;
      r := unlimited || limited;
      if r {
        outbound := outbound + [jb.name];
        jb.inbound := jb.inbound + [name];
      }
    }
  }

  // ---------------------------------------------------------------------------
  // The circuits

  /** `IndexMode`: look a box up, or also hand out the next network number. */
  datatype IndexMode = CheckIndex | ForceIndex

  class Circuits {
    /** The boxes by name. */
    const boxes: map<Name, JunctionBox>
    /** The pairs of box names, closest first. */
    const pairs: seq<(Name, Name)>
    var db: Db

    ghost predicate Valid()
      reads this
    {
      && Consistent(db)
      && (forall j :: 0 <= j < |pairs| ==> pairs[j].0 in boxes && pairs[j].1 in boxes)
      && (forall x :: x in db.index ==> x in boxes)
    }

    constructor(bs: map<Name, JunctionBox>, ps: seq<(Name, Name)>)
      requires forall j :: 0 <= j < |ps| ==> ps[j].0 in bs && ps[j].1 in bs
      ensures boxes == bs && pairs == ps && db == Db(map[], map[], [])
      ensures Valid()
    {
      boxes := bs;
      pairs := ps;
      db := Db(map[], map[], []);
    }

    /** `getIndex`: the box's network; in force mode a box without one gets
        the number of networks, which is a new network number. */
    function GetIndex(key: Name, mode: IndexMode): (r: Option<nat>)
      reads this
      ensures key in db.index ==> r == Some(db.index[key])
      ensures key !in db.index ==> (r.Some? <==> mode.ForceIndex?)
      ensures Numbered(db) && key !in db.index && r.Some? ==> r.value !in db.data
    {
      var i := if key in db.index then Some(db.index[key]) else None;
      if mode.CheckIndex? || i.Some? then i
      else
        assert Numbered(db) ==> |db.data| !in db.data;
        Some(|db.data|)
    }

    /** `sameNetwork`: both boxes are indexed, to the same network; in a
        consistent database, exactly when some network lists both. */
    function SameNetwork(a: Name, b: Name): (r: bool)
      reads this
      ensures r <==> Same(db.index, a, b)
      ensures Consistent(db) ==> (r <==> exists n :: n in db.data && a in db.data[n] && b in db.data[n])
    {
      var i1 := GetIndex(a, CheckIndex);
      var i2 := GetIndex(b, CheckIndex);
      i1.Some? && i1 == i2
    }

    /** `findNetworkSize` found a network: some network lists `size` boxes. */
    predicate HasNetworkOfSize(size: int)
      reads this
    {
      exists n :: n in db.data && |db.data[n]| == size
    }

    /** `sortIndexesByCreated`: the destination first, then the source. The
        network with fewer indexed boxes comes first; on a tie, the one whose
        box names compare lower. */
    function SortIndexesByCreated(i1: nat, i2: nat): (r: (nat, nat))
      reads this
      ensures r == (i1, i2) || r == (i2, i1)
      ensures |KeysOf(db.keys, db.index, i1)| < |KeysOf(db.keys, db.index, i2)| ==> r == (i1, i2)
      ensures |KeysOf(db.keys, db.index, i1)| > |KeysOf(db.keys, db.index, i2)| ==> r == (i2, i1)
    {
      if i1 == i2 then (i1, i2)
      else
        var k1 := KeysOf(db.keys, db.index, i1);
        var k2 := KeysOf(db.keys, db.index, i2);
        if ListCmp(k1, k2) <= 0 then (i1, i2) else (i2, i1)
    }

    /** The order does not depend on which box of the pair came first, as
        long as the two networks' key lists differ. */
    lemma {:induction false} SortIndexesSymmetric(i1: nat, i2: nat)
      requires i1 == i2 || KeysOf(db.keys, db.index, i1) != KeysOf(db.keys, db.index, i2)
      ensures SortIndexesByCreated(i1, i2) == SortIndexesByCreated(i2, i1)
    {
      ListCmpFlip(KeysOf(db.keys, db.index, i1), KeysOf(db.keys, db.index, i2));
    }

    /** `store`. */
    method Store(n: nat, a: Name, b: Name)
      modifies this
      ensures db == Stored(old(db), n, a, b)
    {
      if n !in db.data {
        db := db.(data := db.data[n := []]);
      }
      var items := Unique([a, b]);
      ghost var d0 := db;
      for k := 0 to |items|
        invariant n in db.data && db == StoreAll(d0, n, items[..k])
      {
        var item := items[k];
        ghost var before := db;
        db := db.(index := db.index[item := n], keys := AppendNew(db.keys, item));
        if item !in db.data[n] {
          db := db.(data := db.data[n := db.data[n] + [item]]);
        }
        assert db == StoreItem(before, n, item);
        StoreAllStep(d0, n, items, k);
      }
      assert items[..|items|] == items;
    }

    /** `mergeNetworks`. */
    method MergeNetworks(src: nat, dst: nat) returns (r: Result<int>)
      modifies this
      ensures (r, db) == Merge(old(db), src, dst)
    {
      if src !in db.data {
        return Err("Cannot merge source does not exist");
      }
      if db.data[src] == [] {
        return Ok(0);
      }
      var items := db.data[src];
      var confirm := KeysOf(db.keys, db.index, src);
      var diff := Diff(items, confirm);
      if |diff| == 0 {
        var listed := if dst in db.data then db.data[dst] else [];
        var moved := Unique(listed + confirm);
        db := db.(data := db.data[dst := moved][src := []]);
        ghost var d0 := db;
        for k := 0 to |confirm|
          invariant db == Reindex(d0, confirm[..k], dst)
        {
          ghost var before := db;
          db := db.(index := db.index[confirm[k] := dst], keys := AppendNew(db.keys, confirm[k]));
          assert db == Put(before, confirm[k], dst);
          ReindexStep(d0, confirm, dst, k);
        }
        assert confirm[..|confirm|] == confirm;
        return Ok(|confirm|);
      }
      return Err("Cannot merge due to data inconsistency");
    }

    /** `addJunctionBoxConnection`: puts both boxes into one network, a new
        one if neither had a network, and merges their networks if each had
        its own. Every pair already together stays together, and no box but
        the two joins. */
    method AddJunctionBoxConnection(k1: Name, k2: Name) returns (n: nat)
      requires Valid() && k1 in boxes && k2 in boxes
      modifies this
      ensures Valid()
      ensures k1 in db.index && db.index[k1] == n && Same(db.index, k1, k2)
      ensures KeepsPairs(old(db.index), db.index)
      ensures forall x :: x in db.index ==> x in old(db.index) || x == k1 || x == k2
    {
      ghost var ix0 := db.index;
      n := ChooseNetwork(k1, k2);
      ghost var ix1 := db.index;
      StoreKeeps(db, n, k1, k2);
      StoredDomain(db, n, k1, k2);
      Store(n, k1, k2);
      ExtendsKeepsSame(ix1, db.index);
      forall x, y | Same(ix0, x, y) ensures Same(db.index, x, y) {
        assert Same(ix1, x, y);
      }
    }

    /** The network the pair goes to: the new network when neither box has
        one, the one network they have, or the destination of merging their
        two networks. Either box already indexed is in it afterwards, and no
        pair is split and no box indexed by the merge. */
    method ChooseNetwork(k1: Name, k2: Name) returns (n: nat)
      requires Valid() && k1 in boxes && k2 in boxes
      modifies this
      ensures Valid()
      ensures n in db.data || n == |db.data|
      ensures (k1 !in db.index || db.index[k1] == n) && (k2 !in db.index || db.index[k2] == n)
      ensures KeepsPairs(old(db.index), db.index)
      ensures forall x :: x in db.index ==> x in old(db.index)
    {
      var i1 := GetIndex(k1, CheckIndex);
      var i2 := GetIndex(k2, CheckIndex);
      var indexes := Found(i1, i2);
      if |indexes| == 0 {
        n := GetIndex(k1, ForceIndex).value;
      } else if |indexes| == 1 {
        n := indexes[0];
      } else {
        var order := SortIndexesByCreated(i1.value, i2.value);
        var src := order.1;
        n := order.0;
        MergeKeeps(db, src, n);
        MergeDomain(db, src, n);
        var _ := MergeNetworks(src, n);
      }
    }

    /** `getLargestNetworks`: the networks that have boxes, largest first,
        cut to `limit` when it is positive. */
    method GetLargestNetworks(limit: Option<int>) returns (r: seq<Network>)
      requires Valid()
      ensures r == Largest(db.keys, db.index, limit)
    {
      var order: seq<nat> := [];
      var nodes: map<nat, seq<Name>> := map[];
      for k := 0 to |db.keys|
        invariant Table(order, nodes) == Grouped(db.keys[..k], db.index)
      {
        var name := db.keys[k];
        var id := db.index[name];
        if id in nodes {
          nodes := nodes[id := nodes[id] + [name]];
        } else {
          order := order + [id];
          nodes := nodes[id := [name]];
        }
        GroupedStep(db.keys, db.index, k);
      }
      assert db.keys[..|db.keys|] == db.keys;
      GroupedOrder(db.keys, db.index);
      var networks := Listed(order, nodes);
      r := Take(SortBySize(networks), limit);
    }

    /** `connectJuntionBoxes`: takes the pairs closest first, at most `max` of
        them when `max` is positive, connecting and joining the two boxes of
        each pair not yet in one network, and stops after the pair that leaves
        one network holding as many boxes as there are. Every pair taken ends
        in one network; on stopping, every box is in the network of the last
        pair, and the result is the product of that pair's x coordinates;
        otherwise it is the number of pairs taken. */
    method ConnectJunctionBoxes(max: int) returns (r: int, ghost taken: nat)
      requires Valid()
      modifies this, boxes.Values
      ensures Valid()
      ensures taken <= |pairs| && (max > 0 ==> taken <= max)
      ensures forall j :: 0 <= j < taken ==> Same(db.index, pairs[j].0, pairs[j].1)
      ensures taken < |pairs| && (max <= 0 || taken < max) ==> taken > 0 && HasNetworkOfSize(|boxes|)
      ensures taken > 0 && HasNetworkOfSize(|boxes|) ==>
        r == MultiX(boxes[pairs[taken - 1].0], boxes[pairs[taken - 1].1])
      ensures taken > 0 && HasNetworkOfSize(|boxes|) ==>
        forall x :: x in boxes ==> Same(db.index, x, pairs[taken - 1].0)
      ensures !(taken > 0 && HasNetworkOfSize(|boxes|)) ==> r == taken
    {
      var i, stop, multiX := ConnectPairs(max);
      taken := i;
      if stop {
        r := multiX;
        assert |boxes.Keys| == |boxes|;
        AllInOne(db, boxes.Keys, pairs[i - 1].0);
      } else {
        r := i;
      }
    }

    /** The loop of `connectJuntionBoxes`: the number of pairs taken, whether
        it stopped on a network holding every box, and the product of the
        last pair's x coordinates when it did. */
    method ConnectPairs(max: int) returns (i: nat, stop: bool, multiX: int)
      requires Valid()
      modifies this, boxes.Values
      ensures Valid()
      ensures i <= |pairs| && (max > 0 ==> i <= max)
      ensures forall j :: 0 <= j < i ==> Same(db.index, pairs[j].0, pairs[j].1)
      ensures stop == (i > 0 && HasNetworkOfSize(|boxes|))
      ensures i < |pairs| && (max <= 0 || i < max) ==> stop
      ensures stop ==> multiX == MultiX(boxes[pairs[i - 1].0], boxes[pairs[i - 1].1])
    {
      var l := |pairs|;
      var count := |boxes|;
      var limit := if max > 0 then max else l;
      i, stop, multiX := 0, false, 0;
      while i < l && i < limit && !stop
        invariant 0 <= i <= l && Valid()
        invariant forall j :: 0 <= j < i ==> Same(db.index, pairs[j].0, pairs[j].1)
        invariant stop == (i > 0 && HasNetworkOfSize(count))
        invariant stop ==> multiX == MultiX(boxes[pairs[i - 1].0], boxes[pairs[i - 1].1])
        invariant max > 0 ==> i <= max
        decreases l - i
      {
        var k1, k2 := pairs[i].0, pairs[i].1;
        ghost var ix := db.index;
        JoinPair(k1, k2);
        forall j | 0 <= j <= i ensures Same(db.index, pairs[j].0, pairs[j].1) {
          if j < i {
            assert Same(ix, pairs[j].0, pairs[j].1);
          }
        }
        stop := HasNetworkOfSize(count);
        if stop {
          multiX := MultiX(boxes[k1], boxes[k2]);
        }
        i := i + 1;
      }
    }

    /** One pair of the loop: unless the boxes are already in one network,
        connects them and puts them in one network. Afterwards they are,
        and every pair that was together still is. */
    method JoinPair(k1: Name, k2: Name)
      requires Valid() && k1 in boxes && k2 in boxes
      modifies this, boxes.Values
      ensures Valid() && Same(db.index, k1, k2)
      ensures KeepsPairs(old(db.index), db.index)
    {
      var same := SameNetwork(k1, k2);
      if !same {
        var connected := boxes[k1].Connect(boxes[k2]);
        if connected {
          var _ := AddJunctionBoxConnection(k1, k2);
        }
      }
    }
  }
}
