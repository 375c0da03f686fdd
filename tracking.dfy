/**
 * The tracking table: one row per (download id, service name) holding the
 * time, in integer seconds, at which the item was first seen stalled.
 */
module Tracking {

  /** A row's primary key: (download_id, arr_service). */
  type Key = (string, string)

  /** The table's contents after an insert-or-ignore of `k` with time `t`. */
  function InsertIfAbsent(rows: map<Key, int>, k: Key, t: int): (r: map<Key, int>)
    ensures k in r
    ensures k in rows ==> r == rows
    ensures k !in rows ==> r[k] == t && r.Keys == rows.Keys + {k}
    ensures forall j :: j in rows ==> j in r && r[j] == rows[j]
  {
    if k in rows then rows else rows[k := t]
  }

  /** The table's contents after deleting the row keyed `k`, if any. */
  function DeleteKey(rows: map<Key, int>, k: Key): (r: map<Key, int>)
    ensures k !in r
    ensures r.Keys == rows.Keys - {k}
    ensures forall j :: j in r ==> r[j] == rows[j]
  {
    rows - {k}
  }

  /** The rows of one service, keyed by download id alone. */
  function ServiceView(rows: map<Key, int>, service: string): (v: map<string, int>)
    ensures forall id :: id in v <==> (id, service) in rows
    ensures forall id :: id in v ==> v[id] == rows[(id, service)]
  {
    map id | id in (set k | k in rows && k.1 == service :: k.0) :: rows[(id, service)]
  }

  /** Inserting a key that is already present changes nothing: the timer never restarts. */
  lemma {:induction false} InsertIfAbsentIdempotent(rows: map<Key, int>, k: Key, t1: int, t2: int)
    ensures InsertIfAbsent(InsertIfAbsent(rows, k, t1), k, t2) == InsertIfAbsent(rows, k, t1)
    ensures InsertIfAbsent(InsertIfAbsent(rows, k, t1), k, t2)[k] == (if k in rows then rows[k] else t1)
  {
  }

  /** Writes for one service never show through another service's view. */
  lemma {:induction false} ViewsAreSeparate(rows: map<Key, int>, id: string, service: string, other: string, t: int)
    requires other != service
    ensures ServiceView(InsertIfAbsent(rows, (id, service), t), other) == ServiceView(rows, other)
    ensures ServiceView(DeleteKey(rows, (id, service)), other) == ServiceView(rows, other)
  {
    var a := ServiceView(InsertIfAbsent(rows, (id, service), t), other);
    var b := ServiceView(DeleteKey(rows, (id, service)), other);
    var c := ServiceView(rows, other);
    assert forall x :: x in a <==> x in c;
    assert forall x :: x in b <==> x in c;
  }

  /** The persistent store, as a mutable table. */
  class TrackingStore {
    var rows: map<Key, int>

    /** A freshly created, empty table. */
    constructor ()
      ensures rows == map[]
    {
      rows := map[];
    }

    /** Read the rows of one service, keyed by download id. */
    method GetForService(service: string) returns (snapshot: map<string, int>)
      ensures snapshot == ServiceView(rows, service)
    {
      snapshot := ServiceView(rows, service);
    }

    /** Insert-or-ignore: inserts only an absent key and says whether it did. */
    method Add(downloadId: string, firstDetected: int, service: string) returns (added: bool)
      modifies this
      ensures added <==> (downloadId, service) !in old(rows)
      ensures rows == InsertIfAbsent(old(rows), (downloadId, service), firstDetected)
    {
      added := (downloadId, service) !in rows;
      if added {
        rows := rows[(downloadId, service) := firstDetected];
      }
    }

    /** Delete the row of this download id and service, if there is one. */
    method Remove(downloadId: string, service: string)
      modifies this
      ensures rows == DeleteKey(old(rows), (downloadId, service))
    {
      rows := rows - {(downloadId, service)};
    }
  }
}
