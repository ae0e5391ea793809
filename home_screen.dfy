/** `HomeScreen`: the transaction list and the actions on the ledger. */
module HomeScreens {
  import opened JsValues
  import opened AppState
  import opened DocStores
  import opened Ledger

  /** What a reload with the default `prevTx = []` may leave: the list as it was (read
      rejected, or nothing stored), or the display order of a non-empty listing. */
  ghost predicate Reloaded(before: seq<Record>, after: seq<Record>, records: map<string, Record>) {
    after == before || exists rows :: IsListing(records, rows) && rows != [] && after == Display(rows)
  }

  /** Once the ledger is empty a reload with the default `prevTx = []` cannot replace the list:
      the reload `deleteTransaction` makes after removing the last record keeps it. (The reload
      `shouldComponentUpdate` makes with the list on screen as `prevTx` is not part of this model;
      it would see a different length and refresh the list.) */
  lemma EmptyLedgerKeepsList(before: seq<Record>, after: seq<Record>)
    requires Reloaded(before, after, map[])
    ensures after == before
  {
    forall rows | IsListing(map[], rows)
      ensures rows == []
    {
      assert multiset(rows) == multiset{};
    }
  }

  class HomeScreen {
    const db: DocStore
    const app: AppStore
    var transactions: seq<Record>
    var isLoadingList: bool

    constructor (db: DocStore, app: AppStore)
      ensures this.db == db && this.app == app
      ensures transactions == [] && isLoadingList
    {
      this.db, this.app := db, app;
      transactions, isLoadingList := [], true;
    }

    /** `loadTransactions(prevTx)`: reads every record, orders them newest first and replaces
        the list only when the count differs from `prevTx`'s; `listing` is what the read gave. */
    method LoadTransactions(prevTx: seq<Record>) returns (changed: bool, ghost listing: Option<seq<Record>>)
      requires db.Valid()
      modifies this
      ensures !isLoadingList
      ensures listing.None? ==> !changed && transactions == old(transactions)
      ensures listing.Some? ==> IsListing(db.records, listing.value)
      ensures listing.Some? ==> changed == (|listing.value| != |prevTx|)
      ensures listing.Some? ==> transactions == if changed then Display(listing.value) else old(transactions)
    {
      var res := db.AllDocs();
      listing := res;
      changed := false;
      if res.Some? {
        var sorted := Display(res.value);
        assert |sorted| == |res.value| by {
          assert |multiset(sorted)| == |multiset(res.value)|;
        }
        if |sorted| != |prevTx| {
          transactions := sorted;
          changed := true;
        }
      }
      isLoadingList := false;
    }

    /** The reload the actions below trigger, `loadTransactions()` with `prevTx = []`. */
    method Reload()
      requires db.Valid()
      modifies this
      ensures !isLoadingList
      ensures Reloaded(old(transactions), transactions, db.records)
    {
      var changed, listing := LoadTransactions([]);
      if changed {
        assert IsListing(db.records, listing.value) && listing.value != [] && transactions == Display(listing.value);
      }
    }

    /** `toggleDetailModal`: flips the detail modal and nothing else. */
    method ToggleDetailModal()
      modifies app
      ensures app.Snapshot() == old(app.Snapshot()).(isDetailModalVisible := !old(app.isDetailModalVisible))
    {
      app.isDetailModalVisible := !app.isDetailModalVisible;
    }

    /** `saveTransaction(tx)` with `freshId` as the `uuid()` drawn: stores `{ _id: freshId, ...tx }`,
        reloads, and clears `currentXdr` on every path. */
    method SaveTransaction(tx: Record, freshId: string)
      requires db.Valid()
      modifies this, db, app
      ensures db.Valid()
      ensures var doc := WithFreshId(freshId, tx); db.records == old(db.records)[doc["_id"] := doc]
      ensures Reloaded(old(transactions), transactions, db.records) && !isLoadingList
      ensures app.Snapshot() == old(app.Snapshot()).(currentXdr := None)
    {
      var doc := WithFreshId(freshId, tx);
      var _ := db.Put(doc);
      Reload();
      app.currentXdr := None;
    }

    /** `cancelTransaction`: stores the current transaction again with status `REJECTED`,
        reloads, flips the detail modal and clears the current transaction. Without a current
        transaction the property access throws and nothing changes. */
    method CancelTransaction()
      requires db.Valid()
      modifies this, db, app
      ensures db.Valid()
      ensures old(app.currentTransaction).None? ==>
        && db.records == old(db.records) && transactions == old(transactions) && isLoadingList == old(isLoadingList)
        && app.Snapshot() == old(app.Snapshot())
      ensures old(app.currentTransaction).Some? ==>
        var doc := AsRejected(old(app.currentTransaction).value);
        && db.records == (if "_id" in doc then old(db.records)[doc["_id"] := doc] else old(db.records))
        && Reloaded(old(transactions), transactions, db.records) && !isLoadingList
        && app.Snapshot() == old(app.Snapshot()).(isDetailModalVisible := !old(app.isDetailModalVisible), currentTransaction := None)
    {
      var current := app.currentTransaction;
      if current.Some? {
        var _ := db.Put(AsRejected(current.value));
        Reload();
        ToggleDetailModal();
        app.currentTransaction := None;
      }
    }

    /** `deleteTransaction(doc)`: removes the record stored under `doc._id` and reloads; a
        refused removal skips the reload. */
    method DeleteTransaction(doc: Record)
      requires db.Valid()
      modifies this, db
      ensures db.Valid()
      ensures var removed := "_id" in doc && doc["_id"] in old(db.records);
        && db.records == (if removed then old(db.records) - {doc["_id"]} else old(db.records))
        && (if removed then Reloaded(old(transactions), transactions, db.records) && !isLoadingList
            else transactions == old(transactions) && isLoadingList == old(isLoadingList))
    {
      var ok := db.Remove(doc);
      if ok {
        Reload();
      }
    }
  }
}
