/**
 * One check cycle for one service: fetch the queue, classify each item, and
 * reconcile the classification with the tracking table. A newly seen target
 * starts a timer; a known target whose timer has run for longer than the
 * timeout is remediated and its row deleted.
 */
module Debounce {
  import opened Queue
  import opened Tracking
  import opened Paging
  import opened Remediation

  /** The settings a cycle consults: STALLED_TIMEOUT (seconds) and STALLED_ACTION (upper-cased). */
  datatype Config = Config(timeout: int, action: string)

  /** What the cycle does with one queue item. */
  datatype Decision =
    | Skip                                  // not a target in this mode
    | StartTimer(downloadId: string, at: int) // target not yet tracked: record `at`
    | Wait(downloadId: string)              // tracked, timeout not yet exceeded
    | Fire(request: RemediationRequest)     // tracked, timeout exceeded: remediate

  /**
   * The decision for `item` at time `now`, given the rows of this service read
   * at the start of the cycle.
   */
  function Decide(snapshot: map<string, int>, item: QueueItem, mode: CheckMode, timeout: int, now: int): (d: Decision)
    ensures d.Skip? <==> !IsTarget(item, mode)
    ensures d.StartTimer? <==> IsTarget(item, mode) && DownloadId(item) !in snapshot
    ensures d.StartTimer? ==> d == StartTimer(DownloadId(item), now)
    ensures d.Wait? ==> d.downloadId == DownloadId(item) && DownloadId(item) in snapshot
                        && now - snapshot[DownloadId(item)] <= timeout
    ensures d.Fire? <==>
      IsTarget(item, mode) && DownloadId(item) in snapshot && now - snapshot[DownloadId(item)] > timeout
    ensures d.Fire? ==> d.request == RequestFor(item)
  {
    if !IsTarget(item, mode) then Skip
    else
      var id := DownloadId(item);
      if id !in snapshot then StartTimer(id, now)
      else if now - snapshot[id] > timeout then Fire(RequestFor(item))
      else Wait(id)
  }

  /** The decisions of a cycle, item by item; `clock(i)` is the time read while handling item `i`. */
  function Decisions(snapshot: map<string, int>, records: seq<QueueItem>, mode: CheckMode, timeout: int,
                     clock: nat -> int): (ds: seq<Decision>)
    ensures |ds| == |records|
    ensures forall i :: 0 <= i < |records| ==> ds[i] == Decide(snapshot, records[i], mode, timeout, clock(i))
  {
    seq(|records|, i requires 0 <= i < |records| => Decide(snapshot, records[i], mode, timeout, clock(i)))
  }

  /** The table after acting on one decision of this service. */
  function StepRows(rows: map<Key, int>, service: string, d: Decision): map<Key, int>
  {
    match d
    case StartTimer(id, at) => InsertIfAbsent(rows, (id, service), at)
    case Fire(r) => DeleteKey(rows, (r.downloadId, service))
    case _ => rows
  }

  /** The table after acting on a cycle's decisions in order. */
  function ApplyAll(rows: map<Key, int>, service: string, ds: seq<Decision>): map<Key, int>
  {
    if ds == [] then rows
    else StepRows(ApplyAll(rows, service, ds[..|ds| - 1]), service, ds[|ds| - 1])
  }

  /** The calls sent for one decision; `status` is the backend's answer to a delete. */
  function StepCalls(d: Decision, service: string, action: string, status: DeleteStatus): seq<Call>
  {
    if d.Fire? then ActionCalls(d.request, service, action, status) else []
  }

  /** The calls sent for a cycle's decisions in order; `deleted(i)` answers the delete of item `i`. */
  function AllCalls(ds: seq<Decision>, service: string, action: string, deleted: nat -> DeleteStatus): seq<Call>
  {
    if ds == [] then []
    else AllCalls(ds[..|ds| - 1], service, action, deleted) + StepCalls(ds[|ds| - 1], service, action, deleted(|ds| - 1))
  }

  /** The table after a cycle over `records` that started from `rows`. */
  function CycleRows(rows: map<Key, int>, service: string, records: seq<QueueItem>, mode: CheckMode,
                     timeout: int, clock: nat -> int): map<Key, int>
  {
    ApplyAll(rows, service, Decisions(ServiceView(rows, service), records, mode, timeout, clock))
  }

  /** The calls a cycle over `records` that started from `rows` sends. */
  function CycleCalls(rows: map<Key, int>, service: string, records: seq<QueueItem>, mode: CheckMode,
                      cfg: Config, clock: nat -> int, deleted: nat -> DeleteStatus): seq<Call>
  {
    AllCalls(Decisions(ServiceView(rows, service), records, mode, cfg.timeout, clock), service, cfg.action, deleted)
  }

  /** Extending the decisions by one extends the table update and the calls by one step. */
  lemma ApplyOneMore(rows: map<Key, int>, service: string, action: string, deleted: nat -> DeleteStatus,
                     ds: seq<Decision>, i: nat)
    requires i < |ds|
    ensures ApplyAll(rows, service, ds[..i + 1]) == StepRows(ApplyAll(rows, service, ds[..i]), service, ds[i])
    ensures AllCalls(ds[..i + 1], service, action, deleted)
            == AllCalls(ds[..i], service, action, deleted) + StepCalls(ds[i], service, action, deleted(i))
  {
    assert ds[..i + 1][..i] == ds[..i];
  }

  /**
   * One cycle: fetch the queue, read this service's rows once, then handle
   * the records in order. The new table and the calls sent are those of the
   * decisions taken against that one snapshot.
   */
  method CheckQueueAndAct(store: TrackingStore, server: seq<Reply>, service: string, mode: CheckMode,
                          cfg: Config, clock: nat -> int, deleted: nat -> DeleteStatus)
    returns (calls: seq<Call>)
    modifies store
    ensures store.rows == CycleRows(old(store.rows), service, Fetched(server).0, mode, cfg.timeout, clock)
    ensures calls == CycleCalls(old(store.rows), service, Fetched(server).0, mode, cfg, clock, deleted)
  {
    var records, requested := QueryPaginated(server);
    PaginationIsFetched(server, records, requested);
    if records == [] {
      calls := [];
      return;
    }
    var snapshot := store.GetForService(service);
    calls := Reconcile(store, snapshot, records, service, mode, cfg, clock, deleted);
  }

  /** The loop over the records of a cycle, against the snapshot read at its start. */
  method Reconcile(store: TrackingStore, snapshot: map<string, int>, records: seq<QueueItem>, service: string,
                   mode: CheckMode, cfg: Config, clock: nat -> int, deleted: nat -> DeleteStatus)
    returns (calls: seq<Call>)
    modifies store
    ensures var ds := Decisions(snapshot, records, mode, cfg.timeout, clock);
            store.rows == ApplyAll(old(store.rows), service, ds)
            && calls == AllCalls(ds, service, cfg.action, deleted)
  {
    calls := [];
    ghost var ds := Decisions(snapshot, records, mode, cfg.timeout, clock);
    for i := 0 to |records|
      invariant store.rows == ApplyAll(old(store.rows), service, ds[..i])
      invariant calls == AllCalls(ds[..i], service, cfg.action, deleted)
    {
      ApplyOneMore(old(store.rows), service, cfg.action, deleted, ds, i);
      var item := records[i];
      if IsTarget(item, mode) {
        var downloadId := DownloadId(item);
        var movieId := item.movieId;
        var seriesId := item.seriesId;
        var episodeIds := EpisodeIds(item);
        if downloadId in snapshot {
          var elapsed := clock(i) - snapshot[downloadId];
          if elapsed > cfg.timeout {
            var sent := PerformAction(downloadId, movieId, service, cfg.action, episodeIds, seriesId, deleted(i));
            calls := calls + sent;
            store.Remove(downloadId, service);
          }
        } else {
          var _ := store.Add(downloadId, clock(i), service);
        }
      }
    }
    assert ds[..|records|] == ds;
  }

  // Facts about any sequence of decisions.

  lemma {:induction false} OtherServicesUntouched(rows: map<Key, int>, service: string, ds: seq<Decision>, k: Key)
    requires k.1 != service
    ensures k in ApplyAll(rows, service, ds) <==> k in rows
    ensures k in rows ==> ApplyAll(rows, service, ds)[k] == rows[k]
    decreases |ds|
  {
    if ds != [] {
      OtherServicesUntouched(rows, service, ds[..|ds| - 1], k);
    }
  }

  lemma {:induction false} RemovedOnlyByFiring(rows: map<Key, int>, service: string, ds: seq<Decision>, k: Key)
    requires k in rows && k !in ApplyAll(rows, service, ds)
    ensures k.1 == service
    ensures exists i :: 0 <= i < |ds| && ds[i].Fire? && ds[i].request.downloadId == k.0
    decreases |ds|
  {
    var n := |ds| - 1;
    var prev := ApplyAll(rows, service, ds[..n]);
    if k in prev {
      assert ds[n].Fire? && ds[n].request.downloadId == k.0;
    } else {
      RemovedOnlyByFiring(rows, service, ds[..n], k);
      var i :| 0 <= i < n && ds[..n][i].Fire? && ds[..n][i].request.downloadId == k.0;
      assert ds[i] == ds[..n][i];
    }
  }

  lemma {:induction false} KeptRowsKeepTime(rows: map<Key, int>, service: string, ds: seq<Decision>, k: Key)
    requires k in rows
    requires forall i :: 0 <= i < |ds| && ds[i].StartTimer? ==> (ds[i].downloadId, service) != k
    ensures k in ApplyAll(rows, service, ds) ==> ApplyAll(rows, service, ds)[k] == rows[k]
    decreases |ds|
  {
    if ds != [] {
      var n := |ds| - 1;
      assert forall i :: 0 <= i < n ==> ds[..n][i] == ds[i];
      KeptRowsKeepTime(rows, service, ds[..n], k);
    }
  }

  lemma {:induction false} FiredRowGone(rows: map<Key, int>, service: string, ds: seq<Decision>, i: nat)
    requires i < |ds| && ds[i].Fire?
    requires forall j :: 0 <= j < |ds| && ds[j].StartTimer? ==> ds[j].downloadId != ds[i].request.downloadId
    ensures (ds[i].request.downloadId, service) !in ApplyAll(rows, service, ds)
    decreases |ds|
  {
    var n := |ds| - 1;
    if i < n {
      assert forall j :: 0 <= j < n ==> ds[..n][j] == ds[j];
      FiredRowGone(rows, service, ds[..n], i);
    }
  }

  lemma {:induction false} StartedTimerStays(rows: map<Key, int>, service: string, ds: seq<Decision>, i: nat)
    requires i < |ds| && ds[i].StartTimer?
    requires forall j :: 0 <= j < |ds| && ds[j].Fire? ==> ds[j].request.downloadId != ds[i].downloadId
    ensures (ds[i].downloadId, service) in ApplyAll(rows, service, ds)
    decreases |ds|
  {
    var n := |ds| - 1;
    if i < n {
      assert forall j :: 0 <= j < n ==> ds[..n][j] == ds[j];
      StartedTimerStays(rows, service, ds[..n], i);
    }
  }

  lemma {:induction false} NewRowsFromTimers(rows: map<Key, int>, service: string, ds: seq<Decision>, k: Key)
    requires k !in rows && k in ApplyAll(rows, service, ds)
    ensures k.1 == service
    ensures exists i :: 0 <= i < |ds| && ds[i] == StartTimer(k.0, ApplyAll(rows, service, ds)[k])
    decreases |ds|
  {
    var n := |ds| - 1;
    var prev := ApplyAll(rows, service, ds[..n]);
    if k in prev {
      NewRowsFromTimers(rows, service, ds[..n], k);
      var i :| 0 <= i < n && ds[..n][i] == StartTimer(k.0, prev[k]);
      assert ds[i] == ds[..n][i];
    } else {
      assert ds[n] == StartTimer(k.0, ApplyAll(rows, service, ds)[k]);
    }
  }

  /**
   * When nothing fires for `k`'s id, a row that is new after the decisions
   * holds the time of the first timer started for that id.
   */
  lemma {:induction false} FirstTimerWins(rows: map<Key, int>, service: string, ds: seq<Decision>, k: Key)
    requires k.1 == service && k !in rows && k in ApplyAll(rows, service, ds)
    requires forall j :: 0 <= j < |ds| && ds[j].Fire? ==> ds[j].request.downloadId != k.0
    ensures exists i :: 0 <= i < |ds| && ds[i] == StartTimer(k.0, ApplyAll(rows, service, ds)[k])
                        && forall j :: 0 <= j < i ==> !(ds[j].StartTimer? && ds[j].downloadId == k.0)
    decreases |ds|
  {
    var n := |ds| - 1;
    var prev := ApplyAll(rows, service, ds[..n]);
    assert forall j :: 0 <= j < n ==> ds[..n][j] == ds[j];
    if k in prev {
      FirstTimerWins(rows, service, ds[..n], k);
      var i :| 0 <= i < n && ds[..n][i] == StartTimer(k.0, prev[k])
               && forall j :: 0 <= j < i ==> !(ds[..n][j].StartTimer? && ds[..n][j].downloadId == k.0);
      assert ApplyAll(rows, service, ds)[k] == prev[k];
      assert ds[i] == StartTimer(k.0, ApplyAll(rows, service, ds)[k]);
    } else {
      assert ds[n] == StartTimer(k.0, ApplyAll(rows, service, ds)[k]);
      forall j | 0 <= j < n
        ensures !(ds[j].StartTimer? && ds[j].downloadId == k.0)
      {
        if ds[j].StartTimer? && ds[j].downloadId == k.0 {
          StartedTimerStays(rows, service, ds[..n], j);
        }
      }
    }
  }

  lemma {:induction false} DeletesAreFired(ds: seq<Decision>, service: string, action: string,
                                           deleted: nat -> DeleteStatus, id: string)
    ensures DeleteFromQueue(id) in AllCalls(ds, service, action, deleted) <==>
            exists i :: 0 <= i < |ds| && ds[i].Fire? && ds[i].request.downloadId == id
    decreases |ds|
  {
    if ds != [] {
      var n := |ds| - 1;
      var prev := AllCalls(ds[..n], service, action, deleted);
      var last := StepCalls(ds[n], service, action, deleted(n));
      assert AllCalls(ds, service, action, deleted) == prev + last;
      InConcat(DeleteFromQueue(id), prev, last);
      DeletesAreFired(ds[..n], service, action, deleted, id);
      StepDeletes(ds[n], service, action, deleted(n), id);
      if DeleteFromQueue(id) in prev {
        var i :| 0 <= i < n && ds[..n][i].Fire? && ds[..n][i].request.downloadId == id;
        assert ds[i] == ds[..n][i];
      }
      if exists i :: 0 <= i < |ds| && ds[i].Fire? && ds[i].request.downloadId == id {
        var i :| 0 <= i < |ds| && ds[i].Fire? && ds[i].request.downloadId == id;
        if i < n {
          assert ds[..n][i] == ds[i];
          assert DeleteFromQueue(id) in prev;
        }
      }
    }
  }

  lemma InConcat<T>(x: T, a: seq<T>, b: seq<T>)
    ensures x in a + b <==> x in a || x in b
  {
  }

  lemma StepDeletes(d: Decision, service: string, action: string, status: DeleteStatus, id: string)
    ensures DeleteFromQueue(id) in StepCalls(d, service, action, status) <==> d.Fire? && d.request.downloadId == id
  {
    if d.Fire? {
      var calls := StepCalls(d, service, action, status);
      assert calls[0] == DeleteFromQueue(d.request.downloadId);
      assert forall i :: 1 <= i < |calls| ==> calls[i] != DeleteFromQueue(id);
    }
  }

  // Facts about one cycle.

  /** The rows of every other service come out of a cycle exactly as they went in. */
  lemma CycleLeavesOtherServices(rows: map<Key, int>, service: string, records: seq<QueueItem>,
                                 mode: CheckMode, timeout: int, clock: nat -> int)
    ensures var after := CycleRows(rows, service, records, mode, timeout, clock);
      forall k: Key :: k.1 != service ==> (k in after <==> k in rows) && (k in rows ==> after[k] == rows[k])
  {
    var ds := Decisions(ServiceView(rows, service), records, mode, timeout, clock);
    forall k: Key | k.1 != service {
      OtherServicesUntouched(rows, service, ds, k);
    }
  }

  /**
   * A row disappears only when the cycle saw its item as a target whose time
   * since first detection exceeded the timeout; and every such row disappears.
   */
  lemma CycleRemovesExactlyExpired(rows: map<Key, int>, service: string, records: seq<QueueItem>,
                                   mode: CheckMode, timeout: int, clock: nat -> int)
    ensures var after := CycleRows(rows, service, records, mode, timeout, clock);
      forall k: Key :: k in rows && k !in after ==>
        k.1 == service &&
        exists i :: 0 <= i < |records| && IsTarget(records[i], mode) && DownloadId(records[i]) == k.0
                    && clock(i) - rows[k] > timeout
    ensures var after := CycleRows(rows, service, records, mode, timeout, clock);
      forall i :: 0 <= i < |records| && IsTarget(records[i], mode) && (DownloadId(records[i]), service) in rows
                  && clock(i) - rows[(DownloadId(records[i]), service)] > timeout
        ==> (DownloadId(records[i]), service) !in after
  {
    var snap := ServiceView(rows, service);
    var ds := Decisions(snap, records, mode, timeout, clock);
    var after := ApplyAll(rows, service, ds);
    forall k | k in rows && k !in after
      ensures k.1 == service
      ensures exists i :: 0 <= i < |records| && IsTarget(records[i], mode) && DownloadId(records[i]) == k.0
                          && clock(i) - rows[k] > timeout
    {
      RemovedOnlyByFiring(rows, service, ds, k);
      var i :| 0 <= i < |ds| && ds[i].Fire? && ds[i].request.downloadId == k.0;
      assert DownloadId(records[i]) == k.0;
    }
    forall i | 0 <= i < |records| && IsTarget(records[i], mode) && (DownloadId(records[i]), service) in rows
               && clock(i) - rows[(DownloadId(records[i]), service)] > timeout
      ensures (DownloadId(records[i]), service) !in after
    {
      assert ds[i].Fire? && ds[i].request.downloadId == DownloadId(records[i]);
      FiredRowGone(rows, service, ds, i);
    }
  }

  /** A row that survives a cycle keeps its first-detection time: the timer never restarts. */
  lemma CycleNeverResetsTimers(rows: map<Key, int>, service: string, records: seq<QueueItem>,
                               mode: CheckMode, timeout: int, clock: nat -> int)
    ensures var after := CycleRows(rows, service, records, mode, timeout, clock);
      forall k: Key :: k in rows && k in after ==> after[k] == rows[k]
  {
    var snap := ServiceView(rows, service);
    var ds := Decisions(snap, records, mode, timeout, clock);
    forall k | k in rows {
      KeptRowsKeepTime(rows, service, ds, k);
    }
  }

  /**
   * Every target not yet tracked is tracked after the cycle, and every new
   * row is such a target, stamped with the time read while handling its first
   * occurrence in the queue: a later duplicate never re-stamps it.
   */
  lemma CycleStartsTimers(rows: map<Key, int>, service: string, records: seq<QueueItem>,
                          mode: CheckMode, timeout: int, clock: nat -> int)
    ensures var after := CycleRows(rows, service, records, mode, timeout, clock);
      forall i :: 0 <= i < |records| && IsTarget(records[i], mode) && (DownloadId(records[i]), service) !in rows
        ==> (DownloadId(records[i]), service) in after
    ensures var after := CycleRows(rows, service, records, mode, timeout, clock);
      forall k: Key :: k !in rows && k in after ==>
        k.1 == service &&
        exists i :: 0 <= i < |records| && IsTarget(records[i], mode) && DownloadId(records[i]) == k.0
                    && after[k] == clock(i)
                    && forall j :: 0 <= j < i ==> !(IsTarget(records[j], mode) && DownloadId(records[j]) == k.0)
  {
    var snap := ServiceView(rows, service);
    var ds := Decisions(snap, records, mode, timeout, clock);
    var after := ApplyAll(rows, service, ds);
    forall i | 0 <= i < |records| && IsTarget(records[i], mode) && (DownloadId(records[i]), service) !in rows
      ensures (DownloadId(records[i]), service) in after
    {
      assert ds[i].StartTimer? && ds[i].downloadId == DownloadId(records[i]);
      StartedTimerStays(rows, service, ds, i);
    }
    forall k | k !in rows && k in after
      ensures k.1 == service
      ensures exists i :: 0 <= i < |records| && IsTarget(records[i], mode) && DownloadId(records[i]) == k.0
                          && after[k] == clock(i)
                          && forall j :: 0 <= j < i ==> !(IsTarget(records[j], mode) && DownloadId(records[j]) == k.0)
    {
      NewRowsFromTimers(rows, service, ds, k);
      assert k.0 !in snap;
      FirstTimerWins(rows, service, ds, k);
      var i :| 0 <= i < |ds| && ds[i] == StartTimer(k.0, after[k])
               && forall j :: 0 <= j < i ==> !(ds[j].StartTimer? && ds[j].downloadId == k.0);
      assert DownloadId(records[i]) == k.0 && after[k] == clock(i);
    }
  }

  /**
   * A cycle sends a delete for `id` exactly when some target with that id was
   * already tracked and its time since first detection exceeded the timeout.
   */
  lemma CycleDeletesExactlyExpired(rows: map<Key, int>, service: string, records: seq<QueueItem>,
                                   mode: CheckMode, cfg: Config, clock: nat -> int,
                                   deleted: nat -> DeleteStatus, id: string)
    ensures DeleteFromQueue(id) in CycleCalls(rows, service, records, mode, cfg, clock, deleted) <==>
      (id, service) in rows &&
      exists i :: 0 <= i < |records| && IsTarget(records[i], mode) && DownloadId(records[i]) == id
                  && clock(i) - rows[(id, service)] > cfg.timeout
  {
    var snap := ServiceView(rows, service);
    var ds := Decisions(snap, records, mode, cfg.timeout, clock);
    DeletesAreFired(ds, service, cfg.action, deleted, id);
    if DeleteFromQueue(id) in CycleCalls(rows, service, records, mode, cfg, clock, deleted) {
      var i :| 0 <= i < |ds| && ds[i].Fire? && ds[i].request.downloadId == id;
      assert DownloadId(records[i]) == id;
    }
    if (id, service) in rows &&
       exists i :: 0 <= i < |records| && IsTarget(records[i], mode) && DownloadId(records[i]) == id
                   && clock(i) - rows[(id, service)] > cfg.timeout {
      var i :| 0 <= i < |records| && IsTarget(records[i], mode) && DownloadId(records[i]) == id
               && clock(i) - rows[(id, service)] > cfg.timeout;
      assert ds[i].Fire? && ds[i].request.downloadId == id;
    }
  }

  /** At exactly the timeout nothing happens; one second later the item fires. */
  lemma DebounceBoundary(snapshot: map<string, int>, item: QueueItem, mode: CheckMode, timeout: int,
                         rows: map<Key, int>, service: string, action: string, status: DeleteStatus)
    requires IsTarget(item, mode) && DownloadId(item) in snapshot
    ensures var at := snapshot[DownloadId(item)];
      && Decide(snapshot, item, mode, timeout, at + timeout) == Wait(DownloadId(item))
      && StepRows(rows, service, Decide(snapshot, item, mode, timeout, at + timeout)) == rows
      && StepCalls(Decide(snapshot, item, mode, timeout, at + timeout), service, action, status) == []
      && Decide(snapshot, item, mode, timeout, at + timeout + 1) == Fire(RequestFor(item))
  {
  }
}
