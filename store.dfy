/** The invoice record store: an ordered collection of invoices, newest first,
    mirrored into one slot of the browser's key-value storage. */
module InvoiceStore {
  import opened Types

  /** The one storage slot the store reads and overwrites. */
  const StorageKey: string := "parsewise-invoices"

  /** What a storage slot holds: a collection that parses back, or text that
      does not (including the empty string, which the load skips). */
  datatype Stored = Records(records: seq<Invoice>) | Malformed

  // ---------------------------------------------------------------------
  // The collection, as values
  // ---------------------------------------------------------------------

  /** The ids present in a collection. */
  function Ids(s: seq<Invoice>): set<string> {
    set x | x in s :: x.id
  }

  /** No two entries share an id. */
  ghost predicate UniqueIds(s: seq<Invoice>) {
    forall i, j :: 0 <= i < j < |s| ==> s[i].id != s[j].id
  }

  /** The first entry with the given id, or None (`Array.prototype.find`). */
  function Find(s: seq<Invoice>, id: string): (r: Option<Invoice>)
    ensures r.None? <==> id !in Ids(s)
    ensures r.Some? ==> exists k :: 0 <= k < |s| && s[k] == r.value && FirstWithId(s, id, k)
  {
    if s == [] then None
    else if s[0].id == id then
      assert FirstWithId(s, id, 0);
      Some(s[0])
    else
      var r := Find(s[1..], id);
      assert s == [s[0]] + s[1..];
      assert Ids(s) == {s[0].id} + Ids(s[1..]);
      FindShift(s, id, r);
      r
  }

  lemma FindShift(s: seq<Invoice>, id: string, r: Option<Invoice>)
    requires s != [] && s[0].id != id
    requires r.Some? ==> exists k :: 0 <= k < |s[1..]| && s[1..][k] == r.value && FirstWithId(s[1..], id, k)
    ensures r.Some? ==> exists k :: 0 <= k < |s| && s[k] == r.value && FirstWithId(s, id, k)
  {
    if r.Some? {
      var k :| 0 <= k < |s[1..]| && s[1..][k] == r.value && FirstWithId(s[1..], id, k);
      assert FirstWithId(s, id, k + 1);
    }
  }

  /** Index `k` holds the first entry whose id is `id`. */
  ghost predicate FirstWithId(s: seq<Invoice>, id: string, k: int) {
    0 <= k < |s| && s[k].id == id && forall j :: 0 <= j < k ==> s[j].id != id
  }

  /** Every entry whose id is `u.id` replaced by `u` (`map` with an id test). */
  function Replace(s: seq<Invoice>, u: Invoice): (r: seq<Invoice>)
    ensures |r| == |s|
    ensures forall k :: 0 <= k < |s| && s[k].id == u.id ==> r[k] == u
    ensures forall k :: 0 <= k < |s| && s[k].id != u.id ==> r[k] == s[k]
  {
    if s == [] then []
    else [if s[0].id == u.id then u else s[0]] + Replace(s[1..], u)
  }

  /** The entries whose id differs from `id` (`filter` with an id test). */
  function Remove(s: seq<Invoice>, id: string): (r: seq<Invoice>)
    ensures |r| <= |s|
    ensures forall x :: multiset(r)[x] == if x.id != id then multiset(s)[x] else 0
    ensures forall x :: x in r <==> x in s && x.id != id
    ensures SubsequenceOf(r, s)
  {
    if s == [] then []
    else
      var t := Remove(s[1..], id);
      assert s == [s[0]] + s[1..];
      assert forall x :: multiset(s)[x] == multiset([s[0]])[x] + multiset(s[1..])[x];
      if s[0].id == id then t else [s[0]] + t
  }

  /** What the load effect leaves in memory: the stored collection if the slot
      holds one, otherwise the current collection. */
  function Loaded(items: map<string, Stored>, current: seq<Invoice>): (r: seq<Invoice>)
    ensures StorageKey in items && items[StorageKey].Records? ==> r == items[StorageKey].records
    ensures StorageKey !in items || items[StorageKey].Malformed? ==> r == current
  {
    if StorageKey in items then
      match items[StorageKey]
      case Records(rs) => rs
      case Malformed => current
    else current
  }

  /** The storage area after the persist effect: the slot is overwritten with
      the whole collection once the store is initialized and the write
      succeeds; otherwise the storage is as it was. */
  function Mirrored(items: map<string, Stored>, initialized: bool, writeOk: bool,
                    records: seq<Invoice>): (r: map<string, Stored>)
    ensures initialized && writeOk ==> StorageKey in r && r[StorageKey] == Records(records)
    ensures forall k :: k != StorageKey ==> (k in r <==> k in items)
    ensures forall k :: k in r && k != StorageKey ==> r[k] == items[k]
    ensures !(initialized && writeOk) ==> r == items
  {
    if initialized && writeOk then items[StorageKey := Records(records)] else items
  }

  // ---------------------------------------------------------------------
  // Lemmas about the collection
  // ---------------------------------------------------------------------

  lemma {:induction false} UniqueIdsCons(x: Invoice, t: seq<Invoice>)
    ensures UniqueIds([x] + t) <==> x.id !in Ids(t) && UniqueIds(t)
  {
    var s := [x] + t;
    assert s[1..] == t;
    if UniqueIds(s) {
      forall y | y in t ensures y.id != x.id {
        var j :| 0 <= j < |t| && t[j] == y;
        assert s[0] == x && s[j + 1] == y;
        assert s[0].id != s[j + 1].id;
      }
    }
    if x.id !in Ids(t) && UniqueIds(t) {
      forall i, j | 0 <= i < j < |s| ensures s[i].id != s[j].id {
        if i == 0 {
          assert s[j] in t;
        } else {
          assert s[i] == t[i - 1] && s[j] == t[j - 1];
        }
      }
    }
  }

  /** Create: prepending a record with a fresh id keeps ids unique, and the
      record is then what a lookup of its id finds. */
  lemma PrependKeepsUnique(x: Invoice, s: seq<Invoice>)
    requires UniqueIds(s) && x.id !in Ids(s)
    ensures UniqueIds([x] + s)
    ensures Find([x] + s, x.id) == Some(x)
  {
    UniqueIdsCons(x, s);
  }

  /** Update keeps every entry's id in place, so it keeps ids unique. */
  lemma ReplaceKeepsIds(s: seq<Invoice>, u: Invoice)
    ensures forall k :: 0 <= k < |s| ==> Replace(s, u)[k].id == s[k].id
    ensures Ids(Replace(s, u)) == Ids(s)
    ensures UniqueIds(s) ==> UniqueIds(Replace(s, u))
  {
    var r := Replace(s, u);
    forall x | x in r ensures x.id in Ids(s) {
      var k :| 0 <= k < |r| && r[k] == x;
      assert s[k] in s;
    }
    forall x | x in s ensures x.id in Ids(r) {
      var k :| 0 <= k < |s| && s[k] == x;
      assert r[k] in r;
    }
  }

  /** Update with an id that matches nothing changes nothing. */
  lemma {:induction false} ReplaceUnknownIsIdentity(s: seq<Invoice>, u: Invoice)
    requires u.id !in Ids(s)
    ensures Replace(s, u) == s
  {
    if s != [] {
      assert s[0] in s;
      assert Ids(s[1..]) <= Ids(s) by {
        forall x | x in s[1..] ensures x in s { }
      }
      ReplaceUnknownIsIdentity(s[1..], u);
    }
  }

  /** Update alone does not protect the creation time: a record with a
      matching id and another `createdAt` is stored verbatim. */
  lemma UpdateDoesNotGuardCreatedAt(s: seq<Invoice>, k: nat, t: Timestamp)
    requires k < |s|
    ensures Replace(s, s[k].(createdAt := t))[k].createdAt == t
  {
  }

  /** After an update of a present id, a lookup of that id finds the new record. */
  lemma FindAfterReplace(s: seq<Invoice>, u: Invoice)
    requires u.id in Ids(s)
    ensures Find(Replace(s, u), u.id) == Some(u)
  {
    var r := Replace(s, u);
    ReplaceKeepsIds(s, u);
    var f := Find(r, u.id);
    var k :| 0 <= k < |r| && r[k] == f.value && FirstWithId(r, u.id, k);
  }

  /** Delete of an id that matches nothing changes nothing. */
  lemma {:induction false} RemoveUnknownIsIdentity(s: seq<Invoice>, id: string)
    requires id !in Ids(s)
    ensures Remove(s, id) == s
  {
    if s != [] {
      assert s[0] in s;
      assert Ids(s[1..]) <= Ids(s) by {
        forall x | x in s[1..] ensures x in s { }
      }
      RemoveUnknownIsIdentity(s[1..], id);
    }
  }

  /** Delete is idempotent, and afterwards the id is not found. */
  lemma RemoveIdempotent(s: seq<Invoice>, id: string)
    ensures Remove(Remove(s, id), id) == Remove(s, id)
    ensures Find(Remove(s, id), id) == None
  {
    RemoveUnknownIsIdentity(Remove(s, id), id);
  }

  /** Delete keeps ids unique. */
  lemma {:induction false} RemoveKeepsUnique(s: seq<Invoice>, id: string)
    requires UniqueIds(s)
    ensures UniqueIds(Remove(s, id))
  {
    if s != [] {
      assert s == [s[0]] + s[1..];
      UniqueIdsCons(s[0], s[1..]);
      RemoveKeepsUnique(s[1..], id);
      if s[0].id != id {
        var t := Remove(s[1..], id);
        assert s[0].id !in Ids(t) by {
          forall x | x in t ensures x.id != s[0].id {
            assert x in s[1..];
          }
        }
        UniqueIdsCons(s[0], t);
      }
    }
  }

  /** With unique ids, deleting a present id removes exactly one entry. */
  lemma {:induction false} RemovePresentShrinksByOne(s: seq<Invoice>, id: string)
    requires UniqueIds(s) && id in Ids(s)
    ensures |Remove(s, id)| == |s| - 1
  {
    assert s == [s[0]] + s[1..];
    UniqueIdsCons(s[0], s[1..]);
    if s[0].id == id {
      RemoveUnknownIsIdentity(s[1..], id);
    } else {
      var x :| x in s && x.id == id;
      assert x in s[1..];
      RemovePresentShrinksByOne(s[1..], id);
    }
  }

  // ---------------------------------------------------------------------
  // The store
  // ---------------------------------------------------------------------

  /** The browser's key-value storage area, shared by every store instance. */
  class LocalStorage {
    var items: map<string, Stored>

    constructor (items: map<string, Stored>)
      ensures this.items == items
    {
      this.items := items;
    }
  }

  /** One instance of the store hook: the in-memory collection, whether the
      mirror has been loaded, and the storage it mirrors into. */
  class Store {
    var invoices: seq<Invoice>
    var isInitialized: bool
    const storage: LocalStorage

    /** A new store starts empty and not initialized; storage is untouched. */
    constructor (storage: LocalStorage)
      ensures this.storage == storage
      ensures invoices == [] && !isInitialized
    {
      this.storage := storage;
      invoices := [];
      isInitialized := false;
    }

    /** The persist effect: once initialized, overwrite the slot with the whole
        collection. A failed write is only logged; memory is never rolled back. */
    method Persist(writeOk: bool)
      modifies storage
      ensures storage.items == Mirrored(old(storage.items), isInitialized, writeOk, invoices)
    {
      if isInitialized && writeOk {
        storage.items := storage.items[StorageKey := Records(invoices)];
      }
    }

    /** The load effect: take the stored collection if the slot holds one
        that parses, keep the current one otherwise, and become initialized
        whatever the outcome; the write-through this change triggers follows. */
    method Load(writeOk: bool)
      modifies this, storage
      ensures invoices == Loaded(old(storage.items), old(invoices))
      ensures isInitialized
      ensures storage.items == Mirrored(old(storage.items), true, writeOk, invoices)
    {
      if StorageKey in storage.items {
        match storage.items[StorageKey]
        case Records(rs) => invoices := rs;
        case Malformed =>
      }
      isInitialized := true;
      Persist(writeOk);
    }

    /** Create: complete the draft with a fresh id and the current time and put
        it in front of the collection; the other records follow in order. */
    method AddInvoice(draft: Draft, newId: string, now: Timestamp, writeOk: bool) returns (r: Invoice)
      modifies this, storage
      ensures r == Stamp(draft, newId, now)
      ensures invoices == [r] + old(invoices)
      ensures UniqueIds(old(invoices)) && newId !in Ids(old(invoices)) ==> UniqueIds(invoices)
      ensures isInitialized == old(isInitialized)
      ensures storage.items == Mirrored(old(storage.items), isInitialized, writeOk, invoices)
    {
      r := Stamp(draft, newId, now);
      if UniqueIds(invoices) && newId !in Ids(invoices) {
        PrependKeepsUnique(r, invoices);
      }
      invoices := [r] + invoices;
      Persist(writeOk);
    }

    /** Lookup: the first record with the given id, or None; nothing changes. */
    method GetInvoiceById(id: string) returns (r: Option<Invoice>)
      ensures r.None? <==> id !in Ids(invoices)
      ensures r.Some? ==> r.value.id == id && r.value in invoices
      ensures r == Find(invoices, id)
    {
      r := Find(invoices, id);
    }

    /** Update: every record whose id matches is replaced verbatim, the rest
        and the order are kept; an unknown id changes nothing. */
    method UpdateInvoice(updated: Invoice, writeOk: bool) returns (r: Invoice)
      modifies this, storage
      ensures r == updated
      ensures invoices == Replace(old(invoices), updated)
      ensures updated.id !in Ids(old(invoices)) ==> invoices == old(invoices)
      ensures UniqueIds(old(invoices)) ==> UniqueIds(invoices)
      ensures isInitialized == old(isInitialized)
      ensures storage.items == Mirrored(old(storage.items), isInitialized, writeOk, invoices)
    {
      ReplaceKeepsIds(invoices, updated);
      if updated.id !in Ids(invoices) {
        ReplaceUnknownIsIdentity(invoices, updated);
      }
      invoices := Replace(invoices, updated);
      Persist(writeOk);
      r := updated;
    }

    /** Delete: drop every record with the given id, keeping the others in
        order; deleting an absent id changes nothing. */
    method DeleteInvoice(id: string, writeOk: bool)
      modifies this, storage
      ensures invoices == Remove(old(invoices), id)
      ensures id !in Ids(invoices)
      ensures id !in Ids(old(invoices)) ==> invoices == old(invoices)
      ensures UniqueIds(old(invoices)) ==> UniqueIds(invoices)
      ensures isInitialized == old(isInitialized)
      ensures storage.items == Mirrored(old(storage.items), isInitialized, writeOk, invoices)
    {
      if id !in Ids(invoices) {
        RemoveUnknownIsIdentity(invoices, id);
      }
      if UniqueIds(invoices) {
        RemoveKeepsUnique(invoices, id);
      }
      invoices := Remove(invoices, id);
      Persist(writeOk);
    }
  }

  /** Two creates put the later record first; a successful write-through
      followed by a fresh store's load gives back the same collection. */
  method CreateTwiceThenReload(a: Draft, b: Draft, idA: string, idB: string, t: Timestamp)
    returns (reloaded: seq<Invoice>)
    requires idA != idB
    ensures |reloaded| == 2
    ensures reloaded[0] == Stamp(b, idB, t) && reloaded[1] == Stamp(a, idA, t)
    ensures UniqueIds(reloaded)
  {
    var storage := new LocalStorage(map[]);
    var store := new Store(storage);
    store.Load(true);
    assert store.invoices == [];
    var x := store.AddInvoice(a, idA, t, true);
    var y := store.AddInvoice(b, idB, t, true);
    assert store.invoices == [y, x];
    var other := new Store(storage);
    other.Load(true);
    reloaded := other.invoices;
    assert UniqueIds(reloaded);
  }
}
