/**
  The read-through cache: the requested values that are cached are taken from the cache, the rows
  of the others are fetched, cached and converted. Values travel in an envelope, so that a cached
  value is told from a missing one whatever it is.
 */
module RawCache {
  import opened Wrappers

  type Id = string

  type Key = string

  /** How one kind of rows is cached. */
  datatype Options<!Row, !V> = Options(
    cacheKey: Id -> Key, fetch: seq<Id> -> seq<Row>, rowId: Row -> Id, toValue: Row -> V)

  datatype Entry<V> = Entry(key: Key, value: V)

  /** The fetch returns the rows of the requested ids that exist, and no other rows. */
  ghost predicate Fetches<Row, V>(opts: Options<Row, V>, table: map<Id, Row>) {
    && (forall id :: id in table ==> opts.rowId(table[id]) == id)
    && forall ids: seq<Id> :: FetchesFor(opts, table, ids)
  }

  ghost predicate FetchesFor<Row, V>(opts: Options<Row, V>, table: map<Id, Row>, ids: seq<Id>) {
    var rows := opts.fetch(ids);
    && (forall row :: row in rows ==>
        opts.rowId(row) in ids && opts.rowId(row) in table && table[opts.rowId(row)] == row)
    && forall id :: id in ids && id in table ==> table[id] in rows
  }

  ghost predicate Injective(key: Id -> Key) {
    forall a: Id, b: Id :: key(a) == key(b) ==> a == b
  }

  /** Fetching and converting without a cache. */
  function Direct<Row, V>(ids: seq<Id>, opts: Options<Row, V>, table: map<Id, Row>): map<Id, V> {
    map id | id in ids && id in table :: opts.toValue(table[id])
  }

  /** What a read through the cache `store` gives, whether or not its entries are right. */
  function Through<Row, V>(ids: seq<Id>, opts: Options<Row, V>, table: map<Id, Row>, store: map<Key, V>): map<Id, V> {
    map id | id in ids && (opts.cacheKey(id) in store || id in table) ::
      if opts.cacheKey(id) in store then store[opts.cacheKey(id)] else opts.toValue(table[id])
  }

  /** The entry of the id, if there is one, is what fetching would give. */
  predicate EntryIsRight<Row, V(==)>(id: Id, opts: Options<Row, V>, table: map<Id, Row>, store: map<Key, V>) {
    opts.cacheKey(id) in store ==> id in table && store[opts.cacheKey(id)] == opts.toValue(table[id])
  }

  ghost predicate Coherent<Row, V>(opts: Options<Row, V>, table: map<Id, Row>, store: map<Key, V>) {
    forall id: Id :: EntryIsRight(id, opts, table, store)
  }

  function Written<V>(store: map<Key, V>, entries: seq<Entry<V>>): map<Key, V> {
    if entries == [] then store
    else Written(store, entries[..|entries| - 1])[entries[|entries| - 1].key := entries[|entries| - 1].value]
  }

  function EntriesOf<Row, V>(rows: seq<Row>, opts: Options<Row, V>): seq<Entry<V>> {
    seq(|rows|, i requires 0 <= i < |rows| => Entry(opts.cacheKey(opts.rowId(rows[i])), opts.toValue(rows[i])))
  }

  /** After `Mget` the ids fall into those found, with their values, and those missed. */
  ghost predicate Parted<Row, V(!new)>(
    ids: seq<Id>, opts: Options<Row, V>, store: map<Key, V>, found: map<Id, V>, missed: seq<Id>)
  {
    && (forall id :: id in missed <==> id in ids && opts.cacheKey(id) !in store)
    && (forall id :: id in found <==> id in ids && opts.cacheKey(id) in store)
    && forall id :: id in found ==> found[id] == store[opts.cacheKey(id)]
  }

  class RawCacheService<V(!new)> {
    var store: map<Key, V>

    method Mget(keys: seq<Key>) returns (found: seq<Option<V>>)
      ensures |found| == |keys|
      ensures forall i :: 0 <= i < |keys| ==> found[i] == if keys[i] in store then Some(store[keys[i]]) else None
    {
      found := seq(|keys|, i requires 0 <= i < |keys| reads this =>
        if keys[i] in store then Some(store[keys[i]]) else None);
    }

    method SetMany(entries: seq<Entry<V>>)
      modifies this
      ensures store == Written(old(store), entries)
    {
      for i := 0 to |entries|
        invariant store == Written(old(store), entries[..i])
      {
        assert entries[..i + 1][..i] == entries[..i];
        store := store[entries[i].key := entries[i].value];
      }
      assert entries[..|entries|] == entries;
    }

    method TakeCached<Row>(ids: seq<Id>, opts: Options<Row, V>) returns (found: map<Id, V>, missed: seq<Id>)
      ensures Parted(ids, opts, store, found, missed)
    {
      var cached := Mget(seq(|ids|, i requires 0 <= i < |ids| => opts.cacheKey(ids[i])));
      found, missed := map[], [];
      for i := 0 to |ids|
        invariant Parted(ids[..i], opts, store, found, missed)
      {
        assert ids[..i + 1] == ids[..i] + [ids[i]];
        if cached[i].Some? {
          found := found[ids[i] := cached[i].value];
        } else {
          missed := missed + [ids[i]];
        }
      }
      assert ids[..|ids|] == ids;
    }

    method TakeFetched<Row>(rows: seq<Row>, opts: Options<Row, V>, found: map<Id, V>) returns (result: map<Id, V>)
      ensures Merged(rows, opts, found, result)
    {
      result := found;
      for i := 0 to |rows|
        invariant Merged(rows[..i], opts, found, result)
      {
        assert rows[..i + 1] == rows[..i] + [rows[i]];
        result := result[opts.rowId(rows[i]) := opts.toValue(rows[i])];
      }
      assert rows[..|rows|] == rows;
    }

    /**
      Cached values come from the cache and the others from the table; the cache gains what was
      fetched and loses nothing.
     */
    method CachedByKeys<Row>(ids: seq<Id>, opts: Options<Row, V>, ghost table: map<Id, Row>)
      returns (result: map<Id, V>)
      requires Fetches(opts, table)
      modifies this
      ensures result == Through(ids, opts, table, old(store))
      ensures Filled(ids, opts, table, old(store), store)
    {
      if |ids| == 0 {
        return map[];
      }
      var missed: seq<Id>;
      result, missed := TakeCached(ids, opts);
      var found := result;
      if |missed| > 0 {
        var rows := opts.fetch(missed);
        SetMany(EntriesOf(rows, opts));
        result := TakeFetched(rows, opts, found);
        FetchedFills(ids, opts, table, old(store), found, missed);
        MergedIsThrough(ids, opts, table, old(store), found, missed, result);
      } else {
        NothingMissed(ids, opts, table, store, found);
      }
    }
  }

  /** `result` is `found` with the values of the rows put in. */
  ghost predicate Merged<Row, V(!new)>(rows: seq<Row>, opts: Options<Row, V>, found: map<Id, V>, result: map<Id, V>) {
    && (forall id :: id in found ==> id in result)
    && (forall row :: row in rows ==> opts.rowId(row) in result)
    && forall id :: id in result ==> Came(id, rows, opts, found, result[id])
  }

  ghost predicate Came<Row, V(!new)>(id: Id, rows: seq<Row>, opts: Options<Row, V>, found: map<Id, V>, value: V) {
    (id in found && found[id] == value)
      || exists row :: row in rows && opts.rowId(row) == id && opts.toValue(row) == value
  }

  /** Every requested row is cached now; every entry was there before or is one of them. */
  ghost predicate Filled<Row, V(!new)>(
    ids: seq<Id>, opts: Options<Row, V>, table: map<Id, Row>, before: map<Key, V>, after: map<Key, V>)
  {
    && (forall key :: key in before ==> key in after)
    && (forall id :: id in ids && id in table ==> opts.cacheKey(id) in after)
    && forall key :: key in after ==>
      Kept(key, before, after) || exists id :: IsRowEntry(id, key, ids, opts, table, after)
  }

  ghost predicate Kept<V(!new)>(key: Key, before: map<Key, V>, after: map<Key, V>) {
    key in before && key in after && after[key] == before[key]
  }

  ghost predicate IsRowEntry<Row, V(!new)>(
    id: Id, key: Key, ids: seq<Id>, opts: Options<Row, V>, table: map<Id, Row>, after: map<Key, V>)
  {
    id in ids && id in table && opts.cacheKey(id) == key && key in after && after[key] == opts.toValue(table[id])
  }

  // ----- the steps of one read

  lemma MergedIsThrough<Row, V(!new)>(ids: seq<Id>, opts: Options<Row, V>, table: map<Id, Row>, store: map<Key, V>,
                                      found: map<Id, V>, missed: seq<Id>, result: map<Id, V>)
    requires Parted(ids, opts, store, found, missed) && Fetches(opts, table)
    requires Merged(opts.fetch(missed), opts, found, result)
    ensures result == Through(ids, opts, table, store)
  {
    var rows, through := opts.fetch(missed), Through(ids, opts, table, store);
    assert FetchesFor(opts, table, missed);
    forall id | id in result
      ensures id in through && result[id] == through[id]
    {
      assert Came(id, rows, opts, found, result[id]);
    }
    forall id | id in through
      ensures id in result
    {
      if id !in found {
        assert table[id] in rows;
      }
    }
  }

  lemma NothingMissed<Row, V(!new)>(
    ids: seq<Id>, opts: Options<Row, V>, table: map<Id, Row>, store: map<Key, V>, found: map<Id, V>)
    requires Parted(ids, opts, store, found, [])
    ensures found == Through(ids, opts, table, store) && Filled(ids, opts, table, store, store)
  {
    assert forall id :: id in ids ==> id !in [] && id in found;
    assert forall key :: key in store ==> Kept(key, store, store);
  }

  lemma {:induction false} WrittenMeans<V(!new)>(store: map<Key, V>, entries: seq<Entry<V>>)
    ensures forall key :: key in store ==> key in Written(store, entries)
    ensures forall e :: e in entries ==> e.key in Written(store, entries)
    ensures forall key :: key in Written(store, entries) ==>
      Kept(key, store, Written(store, entries)) || Entry(key, Written(store, entries)[key]) in entries
  {
    if entries != [] {
      var front, last := entries[..|entries| - 1], entries[|entries| - 1];
      WrittenMeans(store, front);
      assert entries == front + [last];
    }
  }

  lemma FetchedFills<Row, V(!new)>(ids: seq<Id>, opts: Options<Row, V>, table: map<Id, Row>, store: map<Key, V>,
                                   found: map<Id, V>, missed: seq<Id>)
    requires Parted(ids, opts, store, found, missed) && Fetches(opts, table)
    ensures Filled(ids, opts, table, store, Written(store, EntriesOf(opts.fetch(missed), opts)))
  {
    var rows := opts.fetch(missed);
    assert FetchesFor(opts, table, missed);
    var entries := EntriesOf(rows, opts);
    var after := Written(store, entries);
    WrittenMeans(store, entries);
    forall id | id in ids && id in table
      ensures opts.cacheKey(id) in after
    {
      if id in missed {
        var i :| 0 <= i < |rows| && rows[i] == table[id];
        assert entries[i] in entries;
      }
    }
    forall key | key in after && !Kept(key, store, after)
      ensures exists id :: IsRowEntry(id, key, ids, opts, table, after)
    {
      var i :| 0 <= i < |entries| && entries[i] == Entry(key, after[key]);
      assert rows[i] in rows;
      assert IsRowEntry(opts.rowId(rows[i]), key, ids, opts, table, after);
    }
  }

  // ----- reading through the cache and reading directly

  /** A read is right exactly when the entries it meets are. */
  lemma ThroughIsDirect<Row, V(!new)>(ids: seq<Id>, opts: Options<Row, V>, table: map<Id, Row>, store: map<Key, V>)
    ensures Through(ids, opts, table, store) == Direct(ids, opts, table) <==>
              forall id :: id in ids ==> EntryIsRight(id, opts, table, store)
  {
    var through, direct := Through(ids, opts, table, store), Direct(ids, opts, table);
    if id :| id in ids && !EntryIsRight(id, opts, table, store) {
      assert id in through && (id !in direct || through[id] != direct[id]);
    } else {
      assert forall id :: id in ids && opts.cacheKey(id) in store ==> EntryIsRight(id, opts, table, store);
    }
  }

  /** A read leaves a coherent cache coherent; no two ids share a key. */
  lemma FillingKeepsCoherence<Row, V(!new)>(
    ids: seq<Id>, opts: Options<Row, V>, table: map<Id, Row>, before: map<Key, V>, after: map<Key, V>)
    requires Injective(opts.cacheKey) && Coherent(opts, table, before) && Filled(ids, opts, table, before, after)
    ensures Coherent(opts, table, after)
  {
    forall id: Id | opts.cacheKey(id) in after
      ensures EntryIsRight(id, opts, table, after)
    {
      var key := opts.cacheKey(id);
      if Kept(key, before, after) {
        assert EntryIsRight(id, opts, table, before);
      } else {
        var other :| IsRowEntry(other, key, ids, opts, table, after);
        assert other == id;
      }
    }
  }

  lemma ExpiryKeepsCoherence<Row, V(!new)>(
    opts: Options<Row, V>, table: map<Id, Row>, store: map<Key, V>, expired: set<Key>)
    requires Coherent(opts, table, store)
    ensures Coherent(opts, table, store - expired)
  {
    forall id: Id
      ensures EntryIsRight(id, opts, table, store - expired)
    {
      assert EntryIsRight(id, opts, table, store);
    }
  }

  /** Any number of reads, with any entries expiring before each of them, are all right. */
  method ReadMany<Row, V(!new)>(cache: RawCacheService<V>, requests: seq<seq<Id>>, expired: nat -> set<Key>,
                                opts: Options<Row, V>, ghost table: map<Id, Row>)
    returns (results: seq<map<Id, V>>)
    requires Fetches(opts, table) && Injective(opts.cacheKey) && Coherent(opts, table, cache.store)
    modifies cache
    ensures Coherent(opts, table, cache.store)
    ensures |results| == |requests| && forall i :: 0 <= i < |requests| ==>
              results[i] == Direct(requests[i], opts, table)
  {
    results := [];
    for i := 0 to |requests|
      invariant Coherent(opts, table, cache.store)
      invariant |results| == i && forall k :: 0 <= k < i ==> results[k] == Direct(requests[k], opts, table)
    {
      ExpiryKeepsCoherence(opts, table, cache.store, expired(i));
      cache.store := cache.store - expired(i);
      ghost var store := cache.store;
      var result := cache.CachedByKeys(requests[i], opts, table);
      ThroughIsDirect(requests[i], opts, table, store);
      FillingKeepsCoherence(requests[i], opts, table, store, cache.store);
      results := results + [result];
    }
  }
}
