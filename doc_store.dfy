/** The PouchDB document stores (`Transactions`, `Secrets`) as a map from `_id` to record. */
module DocStores {
  import opened JsValues

  /** `rows` is what `allDocs({ include_docs: true })` reads: every stored record once, in
      the store's own order. */
  ghost predicate IsListing(records: map<string, Record>, rows: seq<Record>) {
    multiset(rows) == multiset(records.Values)
  }

  /** Records stored under their own `_id` are pairwise distinct, so the store holds as many
      values as keys and `IsListing` counts every record. */
  lemma {:induction false} DistinctValues(records: map<string, Record>)
    requires forall id :: id in records ==> Lookup(records[id], "_id") == Some(id)
    ensures |records.Values| == |records|
    decreases |records|
  {
    if records != map[] {
      var k :| k in records;
      var rest := records - {k};
      DistinctValues(rest);
      assert records[k] !in rest.Values by {
        forall j | j in rest
          ensures rest[j] != records[k]
        {
          assert Lookup(rest[j], "_id") == Some(j);
        }
      }
      assert records.Values == rest.Values + {records[k]};
      assert records.Keys == rest.Keys + {k};
    }
  }

  class DocStore {
    var records: map<string, Record>

    /** Every record is stored under its own `_id`. */
    ghost predicate Valid()
      reads this
    {
      forall id :: id in records ==> Lookup(records[id], "_id") == Some(id)
    }

    constructor (initial: map<string, Record>)
      requires forall id :: id in initial ==> Lookup(initial[id], "_id") == Some(id)
      ensures records == initial && Valid()
    {
      records := initial;
    }

    /** `allDocs`: the rows of every stored record, or `None` when the read is rejected.
        The model's store is always readable; callers are proved for both outcomes. */
    method AllDocs() returns (res: Option<seq<Record>>)
      requires Valid()
      ensures res.Some? ==> IsListing(records, res.value) && |res.value| == |records|
    {
      var rows: seq<Record> := [];
      var left := records.Values;
      while left != {}
        invariant left <= records.Values
        invariant multiset(rows) + multiset(left) == multiset(records.Values)
        decreases left
      {
        var d :| d in left;
        assert multiset(left) == multiset(left - {d}) + multiset{d};
        rows := rows + [d];
        left := left - {d};
      }
      assert |rows| == |multiset(records.Values)| == |records.Values|;
      DistinctValues(records);
      res := Some(rows);
    }

    /** `put(doc)` as an upsert: the record is stored under its `_id`, replacing any record
        there; a record without `_id` is refused. */
    method Put(doc: Record) returns (ok: bool)
      requires Valid()
      modifies this
      ensures Valid()
      ensures ok == ("_id" in doc)
      ensures records == if ok then old(records)[doc["_id"] := doc] else old(records)
    {
      ok := "_id" in doc;
      if ok {
        records := records[doc["_id"] := doc];
      }
    }

    /** `remove(doc)`: deletes the record stored under `doc._id`; refused when there is none. */
    method Remove(doc: Record) returns (ok: bool)
      requires Valid()
      modifies this
      ensures Valid()
      ensures ok == ("_id" in doc && doc["_id"] in old(records))
      ensures records == if ok then old(records) - {doc["_id"]} else old(records)
    {
      ok := "_id" in doc && doc["_id"] in records;
      if ok {
        records := records - {doc["_id"]};
      }
    }
  }
}
