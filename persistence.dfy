/**
 * What the object stores hold after the save effects run. Each store is keyed
 * by `id`; saving a collection `put`s its records one by one, which inserts or
 * overwrites and never removes. The save effect itself only fires for a loaded,
 * non-empty collection. A storage model with both behaviours as written, the
 * records they leave behind, and a corrected save that mirrors the collection.
 */
module Persistence {
  import opened Collection
  import opened Records
  import AgendaStore

  lemma IdsCons<T>(items: seq<T>, idOf: T -> string)
    requires items != []
    ensures Ids(items, idOf) == {idOf(items[0])} + Ids(items[1..], idOf)
  {
    forall k | k in Ids(items, idOf) ensures k in {idOf(items[0])} + Ids(items[1..], idOf) {
      var i :| 0 <= i < |items| && idOf(items[i]) == k;
      if i > 0 {
        assert items[1..][i - 1] == items[i];
      }
    }
  }

  /** `for (const item of data) store.put(item)`: upsert each record by its id, in order. */
  function SaveAll<T>(store: map<string, T>, items: seq<T>, idOf: T -> string): (r: map<string, T>)
    ensures r.Keys == store.Keys + Ids(items, idOf)
    ensures forall k :: k in store && k !in Ids(items, idOf) ==> r[k] == store[k]
    decreases |items|
  {
    if items == [] then store
    else
      IdsCons(items, idOf);
      SaveAll(store[idOf(items[0]) := items[0]], items[1..], idOf)
  }

  /** With unique ids, every saved record is stored under its id. */
  lemma {:induction false} SaveAllStoresEach<T>(store: map<string, T>, items: seq<T>, idOf: T -> string)
    requires UniqueIds(items, idOf)
    ensures forall i :: 0 <= i < |items| ==> SaveAll(store, items, idOf)[idOf(items[i])] == items[i]
    decreases |items|
  {
    if items != [] {
      var rest := items[1..];
      assert UniqueIds(rest, idOf) by {
        forall i, j | 0 <= i < j < |rest| ensures idOf(rest[i]) != idOf(rest[j]) {
          assert rest[i] == items[i + 1] && rest[j] == items[j + 1];
        }
      }
      var s' := store[idOf(items[0]) := items[0]];
      SaveAllStoresEach(s', rest, idOf);
      assert idOf(items[0]) !in Ids(rest, idOf) by {
        forall j | 0 <= j < |rest| ensures idOf(rest[j]) != idOf(items[0]) {
          assert rest[j] == items[j + 1];
        }
      }
      forall i | 0 <= i < |items| ensures SaveAll(store, items, idOf)[idOf(items[i])] == items[i] {
        if i > 0 {
          assert items[i] == rest[i - 1];
        }
      }
    }
  }

  /** `getAll`: the records a store holds, as a set. */
  function GetAll<T>(store: map<string, T>): (r: set<T>)
    ensures forall k :: k in store ==> store[k] in r
    ensures forall v :: v in r ==> exists k :: k in store && store[k] == v
  {
    store.Values
  }

  /** Saving a collection with unique ids into an empty store and reading it back gives its records. */
  lemma SaveThenGetAll<T>(coll: seq<T>, idOf: T -> string)
    requires UniqueIds(coll, idOf)
    ensures GetAll(SaveAll(map[], coll, idOf)) == set x | x in coll
  {
    var r := SaveAll(map[], coll, idOf);
    SaveAllStoresEach(map[], coll, idOf);
    forall v | v in GetAll(r) ensures v in coll {
      var k :| k in r && r[k] == v;
      var i :| 0 <= i < |coll| && idOf(coll[i]) == k;
    }
    forall x | x in coll ensures x in GetAll(r) {
      var i :| 0 <= i < |coll| && coll[i] == x;
      assert r[idOf(coll[i])] == x;
    }
  }

  /** The storage after one save effect, as written: gated on loaded and non-empty, then upsert. */
  function PersistAsWritten<T>(store: map<string, T>, isLoaded: bool, coll: seq<T>, idOf: T -> string)
    : (r: map<string, T>)
    ensures !isLoaded || coll == [] ==> r == store
    ensures isLoaded && coll != [] ==> r.Keys == store.Keys + Ids(coll, idOf)
    ensures forall k :: k in store && k !in Ids(coll, idOf) ==> r[k] == store[k]
  {
    if AgendaStore.ShouldSave(isLoaded, |coll|) then SaveAll(store, coll, idOf) else store
  }

  /** With unique ids, an as-written save of a loaded, non-empty collection stores each record under its id. */
  lemma AsWrittenStoresEach<T>(store: map<string, T>, coll: seq<T>, idOf: T -> string)
    requires coll != [] && UniqueIds(coll, idOf)
    ensures forall i :: 0 <= i < |coll| ==> PersistAsWritten(store, true, coll, idOf)[idOf(coll[i])] == coll[i]
  {
    SaveAllStoresEach(store, coll, idOf);
  }

  /** A collection deleted from in memory is never deleted from storage: nothing ever shrinks it. */
  lemma AsWrittenNeverForgets<T>(store: map<string, T>, isLoaded: bool, coll: seq<T>, idOf: T -> string)
    ensures forall k :: k in store ==> k in PersistAsWritten(store, isLoaded, coll, idOf)
  {
  }

  /** Save [a, b], delete `a` in memory, save again: `a` is still stored and comes back on reload. */
  lemma DeletedEventComesBack(a: Event, b: Event)
    requires a.id != b.id
    ensures var s1 := PersistAsWritten(map[], true, [a, b], EventId);
      var s2 := PersistAsWritten(s1, true, AgendaStore.DeleteEvents([a, b], a.id), EventId);
      a.id in s2 && s2[a.id] == a
  {
    var s1 := PersistAsWritten(map[], true, [a, b], EventId);
    SaveAllStoresEach(map[], [a, b], EventId);
    assert s1[a.id] == a;
    var rest := AgendaStore.DeleteEvents([a, b], a.id);
    assert rest == [b] by {
      assert [a, b][1..] == [b];
      assert [b][1..] == [];
    }
    assert Ids([b], EventId) == {b.id};
  }

  /** Delete the only event: no save fires at all, so storage keeps it. */
  lemma LastEventDeleteNotSaved(a: Event)
    ensures var s1 := PersistAsWritten(map[], true, [a], EventId);
      var s2 := PersistAsWritten(s1, true, AgendaStore.DeleteEvents([a], a.id), EventId);
      s2 == s1 && a.id in s2 && s2[a.id] == a
  {
    SaveAllStoresEach(map[], [a], EventId);
  }

  /** `clear` then `put` each record: the store holds exactly the collection. */
  function ReplaceAll<T>(coll: seq<T>, idOf: T -> string): (r: map<string, T>)
    ensures r.Keys == Ids(coll, idOf)
  {
    SaveAll(map[], coll, idOf)
  }

  /**
   * The corrected save. A loaded collection whose read succeeded, empty or not,
   * replaces the store. A collection whose read failed loaded as `[]` without
   * the stored records, so its saves only upsert, as the program's do: the
   * records the read missed are never erased.
   */
  function PersistCorrected<T>(store: map<string, T>, isLoaded: bool, readOk: bool, coll: seq<T>, idOf: T -> string)
    : (r: map<string, T>)
    ensures !isLoaded ==> r == store
    ensures isLoaded && readOk ==> r.Keys == Ids(coll, idOf)
    ensures isLoaded && !readOk ==> r.Keys == store.Keys + Ids(coll, idOf)
  {
    if !isLoaded then store
    else if readOk then ReplaceAll(coll, idOf)
    else SaveAll(store, coll, idOf)
  }

  /**
   * After a corrected save of a loaded collection with unique ids, storage
   * mirrors it: its keys are the collection's ids and each key holds its record,
   * whatever the store held before.
   */
  lemma CorrectedMirrors<T>(store: map<string, T>, coll: seq<T>, idOf: T -> string)
    requires UniqueIds(coll, idOf)
    ensures PersistCorrected(store, true, true, coll, idOf).Keys == Ids(coll, idOf)
    ensures forall i :: 0 <= i < |coll| ==> PersistCorrected(store, true, true, coll, idOf)[idOf(coll[i])] == coll[i]
  {
    SaveAllStoresEach(map[], coll, idOf);
  }

  /**
   * With the corrected save, a deleted event is gone from storage, also when it
   * was the last, unless the read failed and storage still holds the id.
   */
  lemma CorrectedDeleteRemoves(store: map<string, Event>, readOk: bool, events: seq<Event>, id: string)
    requires readOk || id !in store
    ensures id !in PersistCorrected(store, true, readOk, AgendaStore.DeleteEvents(events, id), EventId)
  {
  }

  /**
   * After a failed read the corrected save loses no stored record: the run the
   * load itself triggers (on `[]`) changes nothing, and later saves only add or
   * overwrite the collection's own ids.
   */
  lemma CorrectedKeepsUnreadRecords<T>(store: map<string, T>, coll: seq<T>, idOf: T -> string)
    ensures PersistCorrected(store, true, false, [], idOf) == store
    ensures forall k :: k in store ==> k in PersistCorrected(store, true, false, coll, idOf)
    ensures forall k :: k in store && k !in Ids(coll, idOf) ==> PersistCorrected(store, true, false, coll, idOf)[k] == store[k]
  {
  }
}
