/**
 * One sweep of the scheduler: every configured Radarr instance, then every
 * Sonarr instance, each given a stall cycle and, when metadata checks are
 * enabled, a metadata cycle right after it. The sleep between sweeps and
 * the endless repetition are outside the model.
 */
module Scheduler {
  import opened Text
  import opened Queue
  import opened Tracking
  import opened Paging
  import opened Remediation
  import opened Debounce

  /** The two kinds of backend the sweep visits. */
  datatype Kind = Radarr | Sonarr

  /** A cycle to run: the `index`-th configured instance of `kind`, in `mode`. */
  datatype Cycle = Cycle(kind: Kind, index: nat, mode: CheckMode)

  function KindName(k: Kind): (s: string)
    ensures |s| == 6
  {
    match k
    case Radarr => "Radarr"
    case Sonarr => "Sonarr"
  }

  /** The service name a cycle runs under, e.g. "Radarr0". */
  function ServiceName(c: Cycle): (s: string)
    ensures StartsWith(s, KindName(c.kind))
  {
    KindName(c.kind) + IntToString(c.index)
  }

  /** Different instances run under different service names, and the name tells the kind. */
  lemma ServiceNameInjective(a: Cycle, b: Cycle)
    requires ServiceName(a) == ServiceName(b)
    ensures a.kind == b.kind && a.index == b.index
  {
    var sa, sb := ServiceName(a), ServiceName(b);
    assert sa[0] == KindName(a.kind)[0] && sb[0] == KindName(b.kind)[0];
    assert sa[6..] == IntToString(a.index) && sb[6..] == IntToString(b.index);
    IntToStringInjective(a.index, b.index);
  }

  /** A Radarr instance's name never starts with "Sonarr", so it takes the movie branch of a remediation. */
  lemma ServiceNameKind(c: Cycle)
    ensures c.kind == Radarr ==> StartsWith(ServiceName(c), "Radarr") && !StartsWith(ServiceName(c), "Sonarr")
    ensures c.kind == Sonarr ==> StartsWith(ServiceName(c), "Sonarr")
  {
    var s := ServiceName(c);
    assert s[..6] == KindName(c.kind);
  }

  /** The cycles of one instance. */
  function InstancePlan(kind: Kind, index: nat, countMetadata: bool): seq<Cycle>
  {
    [Cycle(kind, index, Stalled)] + if countMetadata then [Cycle(kind, index, DownloadingMetadata)] else []
  }

  /** The cycles of the first `n` instances of one kind. */
  function KindPlan(kind: Kind, n: nat, countMetadata: bool): seq<Cycle>
  {
    if n == 0 then [] else KindPlan(kind, n - 1, countMetadata) + InstancePlan(kind, n - 1, countMetadata)
  }

  /** The cycles of a whole sweep, in the order they run. */
  function SweepPlan(radarrCount: nat, sonarrCount: nat, countMetadata: bool): seq<Cycle>
  {
    KindPlan(Radarr, radarrCount, countMetadata) + KindPlan(Sonarr, sonarrCount, countMetadata)
  }

  /**
   * The plan of one kind runs instances 0..n-1 only, one or two cycles each,
   * metadata cycles only when enabled, and never one instance twice in one mode.
   */
  lemma {:induction false} KindPlanShape(kind: Kind, n: nat, countMetadata: bool)
    ensures var p := KindPlan(kind, n, countMetadata);
      && |p| == n * (if countMetadata then 2 else 1)
      && (forall i :: 0 <= i < |p| ==> p[i].kind == kind && p[i].index < n)
      && (forall i :: 0 <= i < |p| && !countMetadata ==> p[i].mode == Stalled)
      && (forall i, j :: 0 <= i < j < |p| && p[i].mode == p[j].mode ==> p[i].index != p[j].index)
  {
    if n > 0 {
      KindPlanShape(kind, n - 1, countMetadata);
      var prev := KindPlan(kind, n - 1, countMetadata);
      var last := InstancePlan(kind, n - 1, countMetadata);
      var p := prev + last;
      assert forall i :: 0 <= i < |prev| ==> p[i] == prev[i];
      assert forall i :: |prev| <= i < |p| ==> p[i] == last[i - |prev|];
    }
  }

  /**
   * A sweep runs every Radarr instance before any Sonarr instance, runs
   * metadata cycles only when enabled, and never checks one service twice in
   * the same mode.
   */
  lemma SweepPlanShape(radarrCount: nat, sonarrCount: nat, countMetadata: bool)
    ensures var p := SweepPlan(radarrCount, sonarrCount, countMetadata);
      var r := radarrCount * (if countMetadata then 2 else 1);
      && |p| == (radarrCount + sonarrCount) * (if countMetadata then 2 else 1)
      && (forall i :: 0 <= i < |p| ==> (p[i].kind == Radarr <==> i < r))
      && (forall i :: 0 <= i < |p| && !countMetadata ==> p[i].mode == Stalled)
      && (forall i, j :: 0 <= i < j < |p| && p[i].mode == p[j].mode ==> ServiceName(p[i]) != ServiceName(p[j]))
  {
    var a := KindPlan(Radarr, radarrCount, countMetadata);
    var b := KindPlan(Sonarr, sonarrCount, countMetadata);
    KindPlanShape(Radarr, radarrCount, countMetadata);
    KindPlanShape(Sonarr, sonarrCount, countMetadata);
    var p := a + b;
    assert forall i :: 0 <= i < |a| ==> p[i] == a[i];
    assert forall i :: |a| <= i < |p| ==> p[i] == b[i - |a|];
    forall i, j | 0 <= i < j < |p| && p[i].mode == p[j].mode
      ensures ServiceName(p[i]) != ServiceName(p[j])
    {
      if ServiceName(p[i]) == ServiceName(p[j]) {
        ServiceNameInjective(p[i], p[j]);
        assert false;
      }
    }
  }

  lemma ConcatAssoc<T>(a: seq<T>, b: seq<T>, c: seq<T>)
    ensures (a + b) + c == a + (b + c)
  {
  }

  /** The table after running `plan` in order from `rows`. */
  ghost function RunRows(rows: map<Key, int>, plan: seq<Cycle>, timeout: int,
                         server: Cycle -> seq<Reply>, clock: Cycle -> nat -> int): map<Key, int>
  {
    if plan == [] then rows
    else
      var c := plan[|plan| - 1];
      CycleRows(RunRows(rows, plan[..|plan| - 1], timeout, server, clock), ServiceName(c),
                Fetched(server(c)).0, c.mode, timeout, clock(c))
  }

  /** The calls sent while running `plan` in order from `rows`. */
  ghost function RunCalls(rows: map<Key, int>, plan: seq<Cycle>, cfg: Config, server: Cycle -> seq<Reply>,
                          clock: Cycle -> nat -> int, deleted: Cycle -> nat -> DeleteStatus): seq<Call>
  {
    if plan == [] then []
    else
      var n := |plan| - 1;
      var c := plan[n];
      RunCalls(rows, plan[..n], cfg, server, clock, deleted)
      + CycleCalls(RunRows(rows, plan[..n], cfg.timeout, server, clock), ServiceName(c), Fetched(server(c)).0,
                   c.mode, cfg, clock(c), deleted(c))
  }

  /**
   * One cycle, appended to those already run. `server(c)`, `clock(c)` and
   * `deleted(c)` are the backend's replies, the clock and the delete answers
   * seen by cycle `c`.
   */
  method RunCycle(store: TrackingStore, c: Cycle, cfg: Config, server: Cycle -> seq<Reply>,
                  clock: Cycle -> nat -> int, deleted: Cycle -> nat -> DeleteStatus,
                  ghost rows0: map<Key, int>, cycles: seq<Cycle>, calls: seq<Call>)
    returns (cycles': seq<Cycle>, calls': seq<Call>)
    requires store.rows == RunRows(rows0, cycles, cfg.timeout, server, clock)
    requires calls == RunCalls(rows0, cycles, cfg, server, clock, deleted)
    modifies store
    ensures cycles' == cycles + [c]
    ensures store.rows == RunRows(rows0, cycles', cfg.timeout, server, clock)
    ensures calls' == RunCalls(rows0, cycles', cfg, server, clock, deleted)
  {
    var sent := CheckQueueAndAct(store, server(c), ServiceName(c), c.mode, cfg, clock(c), deleted(c));
    cycles' := cycles + [c];
    calls' := calls + sent;
    assert cycles'[..|cycles'| - 1] == cycles;
  }

  /** One instance: its stall cycle and, if enabled, its metadata cycle. */
  method RunInstance(store: TrackingStore, kind: Kind, i: nat, countMetadata: bool, cfg: Config,
                     server: Cycle -> seq<Reply>, clock: Cycle -> nat -> int, deleted: Cycle -> nat -> DeleteStatus,
                     ghost rows0: map<Key, int>, cycles: seq<Cycle>, calls: seq<Call>)
    returns (cycles': seq<Cycle>, calls': seq<Call>)
    requires store.rows == RunRows(rows0, cycles, cfg.timeout, server, clock)
    requires calls == RunCalls(rows0, cycles, cfg, server, clock, deleted)
    modifies store
    ensures cycles' == cycles + InstancePlan(kind, i, countMetadata)
    ensures store.rows == RunRows(rows0, cycles', cfg.timeout, server, clock)
    ensures calls' == RunCalls(rows0, cycles', cfg, server, clock, deleted)
  {
    InstancePlanSteps(kind, i, countMetadata, cycles);
    cycles', calls' := RunCycle(store, Cycle(kind, i, Stalled), cfg, server, clock, deleted, rows0, cycles, calls);
    if countMetadata {
      cycles', calls' := RunCycle(store, Cycle(kind, i, DownloadingMetadata), cfg, server, clock, deleted,
                                  rows0, cycles', calls');
    }
  }

  /** Running an instance's plan after `cycles` is appending its cycles one at a time. */
  lemma InstancePlanSteps(kind: Kind, i: nat, countMetadata: bool, cycles: seq<Cycle>)
    ensures countMetadata ==>
      cycles + InstancePlan(kind, i, countMetadata)
      == cycles + [Cycle(kind, i, Stalled)] + [Cycle(kind, i, DownloadingMetadata)]
    ensures !countMetadata ==> cycles + InstancePlan(kind, i, countMetadata) == cycles + [Cycle(kind, i, Stalled)]
  {
    ConcatAssoc(cycles, [Cycle(kind, i, Stalled)], [Cycle(kind, i, DownloadingMetadata)]);
  }

  /** The instances of one kind in index order. */
  method RunKind(store: TrackingStore, kind: Kind, count: nat, countMetadata: bool, cfg: Config,
                 server: Cycle -> seq<Reply>, clock: Cycle -> nat -> int, deleted: Cycle -> nat -> DeleteStatus,
                 ghost rows0: map<Key, int>, cycles: seq<Cycle>, calls: seq<Call>)
    returns (cycles': seq<Cycle>, calls': seq<Call>)
    requires store.rows == RunRows(rows0, cycles, cfg.timeout, server, clock)
    requires calls == RunCalls(rows0, cycles, cfg, server, clock, deleted)
    modifies store
    ensures cycles' == cycles + KindPlan(kind, count, countMetadata)
    ensures store.rows == RunRows(rows0, cycles', cfg.timeout, server, clock)
    ensures calls' == RunCalls(rows0, cycles', cfg, server, clock, deleted)
  {
    cycles', calls' := cycles, calls;
    assert cycles + [] == cycles;
    for i := 0 to count
      invariant cycles' == cycles + KindPlan(kind, i, countMetadata)
      invariant store.rows == RunRows(rows0, cycles', cfg.timeout, server, clock)
      invariant calls' == RunCalls(rows0, cycles', cfg, server, clock, deleted)
    {
      ghost var done := KindPlan(kind, i, countMetadata);
      ghost var step := InstancePlan(kind, i, countMetadata);
      cycles', calls' := RunInstance(store, kind, i, countMetadata, cfg, server, clock, deleted, rows0, cycles', calls');
      assert KindPlan(kind, i + 1, countMetadata) == done + step;
      ConcatAssoc(cycles, done, step);
    }
  }

  /** The sweep: Radarr instances first, then Sonarr instances. */
  method Sweep(store: TrackingStore, radarrCount: nat, sonarrCount: nat, countMetadata: bool, cfg: Config,
               server: Cycle -> seq<Reply>, clock: Cycle -> nat -> int, deleted: Cycle -> nat -> DeleteStatus)
    returns (cycles: seq<Cycle>, calls: seq<Call>)
    modifies store
    ensures cycles == SweepPlan(radarrCount, sonarrCount, countMetadata)
    ensures store.rows == RunRows(old(store.rows), cycles, cfg.timeout, server, clock)
    ensures calls == RunCalls(old(store.rows), cycles, cfg, server, clock, deleted)
  {
    ghost var rows0 := store.rows;
    assert RunRows(rows0, [], cfg.timeout, server, clock) == rows0;
    cycles, calls := RunKind(store, Radarr, radarrCount, countMetadata, cfg, server, clock, deleted, rows0, [], []);
    assert [] + KindPlan(Radarr, radarrCount, countMetadata) == KindPlan(Radarr, radarrCount, countMetadata);
    cycles, calls := RunKind(store, Sonarr, sonarrCount, countMetadata, cfg, server, clock, deleted, rows0, cycles, calls);
  }
}
