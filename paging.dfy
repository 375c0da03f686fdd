/**
 * Paginated retrieval of a backend's queue. The backend is modelled as the
 * finite sequence of replies it gives to the requests for pages 1, 2, 3, ...;
 * a request past the end of that sequence gets a malformed reply, so every
 * retrieval ends.
 */
module Paging {
  import opened Wrappers
  import opened Queue

  /** The `totalRecords` field of a reply: missing, null, or a number. */
  datatype TotalField = Absent | Null | Count(n: int)

  /**
   * One reply: either not a JSON object with a "records" member (an HTTP or
   * decoding error included), or a page of records.
   */
  datatype Reply = Malformed | Page(records: seq<QueueItem>, total: TotalField)

  /** The reply to the request for page `i + 1`. */
  function ReplyTo(server: seq<Reply>, i: nat): Reply
  {
    if i < |server| then server[i] else Malformed
  }

  /** A reply whose records are appended: a page with at least one record. */
  predicate Accepted(r: Reply)
  {
    r.Page? && r.records != []
  }

  /** The known total after a page: kept when the field is missing, cleared by a null, replaced by a number. */
  function UpdateTotal(total: Option<int>, f: TotalField): Option<int>
  {
    match f
    case Absent => total
    case Null => None
    case Count(n) => Some(n)
  }

  /** The known total after the first `k` replies, all of them pages. */
  ghost function TotalAfter(server: seq<Reply>, k: nat): Option<int>
  {
    if k == 0 then None
    else
      var r := ReplyTo(server, k - 1);
      UpdateTotal(TotalAfter(server, k - 1), if r.Page? then r.total else Absent)
  }

  /** The records of the first `k` replies, in order. */
  ghost function Collected(server: seq<Reply>, k: nat): seq<QueueItem>
  {
    if k == 0 then []
    else
      var r := ReplyTo(server, k - 1);
      Collected(server, k - 1) + (if r.Page? then r.records else [])
  }

  /** The stop test: a known, non-zero total that the records collected so far have reached. */
  predicate Reached(total: Option<int>, count: int)
  {
    total.Some? && total.value != 0 && count >= total.value
  }

  /** Page `k` was accepted and brought the count up to a non-zero known total. */
  ghost predicate TotalReached(server: seq<Reply>, k: nat)
  {
    k >= 1 && Accepted(ReplyTo(server, k - 1)) && Reached(TotalAfter(server, k), |Collected(server, k)|)
  }

  /**
   * What a retrieval that requested the pages `requested` and returned
   * `records` must look like: pages 1..n were requested in order; every page
   * before the last was accepted without reaching the total; and either the
   * last page reached the total (and all n pages were collected), or the last
   * reply was malformed or empty (and the first n - 1 pages were collected).
   */
  ghost predicate PaginationResult(server: seq<Reply>, records: seq<QueueItem>, requested: seq<int>)
  {
    var n := |requested|;
    && n >= 1
    && (forall i :: 0 <= i < n ==> requested[i] == i + 1)
    && (forall j :: 0 <= j < n - 1 ==> Accepted(ReplyTo(server, j)))
    && (forall j :: 1 <= j < n ==> !TotalReached(server, j))
    && (if TotalReached(server, n) then records == Collected(server, n)
        else !Accepted(ReplyTo(server, n - 1)) && records == Collected(server, n - 1))
  }

  /** The retrieval loop: fetch page after page and accumulate the records. */
  method QueryPaginated(server: seq<Reply>) returns (records: seq<QueueItem>, requested: seq<int>)
    ensures PaginationResult(server, records, requested)
  {
    records := [];
    requested := [];
    var page := 1;
    var total: Option<int> := None;
    while true
      invariant page == |requested| + 1 <= |server| + 1
      invariant forall i :: 0 <= i < |requested| ==> requested[i] == i + 1
      invariant forall j :: 0 <= j < page - 1 ==> Accepted(ReplyTo(server, j))
      invariant forall j :: 1 <= j < page ==> !TotalReached(server, j)
      invariant total == TotalAfter(server, page - 1)
      invariant records == Collected(server, page - 1)
      decreases |server| + 1 - page
    {
      requested := requested + [page];
      var response := ReplyTo(server, page - 1);
      if response.Malformed? {
        break;
      }
      total := UpdateTotal(total, response.total);
      if response.records == [] {
        break;
      }
      records := records + response.records;
      if Reached(total, |records|) {
        break;
      }
      page := page + 1;
    }
  }

  /** A reference retrieval, page by page, from `k` pages already collected. */
  ghost function FetchFrom(server: seq<Reply>, k: nat): (seq<QueueItem>, nat)
    decreases |server| - k
  {
    if !Accepted(ReplyTo(server, k)) then (Collected(server, k), k + 1)
    else if TotalReached(server, k + 1) then (Collected(server, k + 1), k + 1)
    else FetchFrom(server, k + 1)
  }

  /** The records a retrieval returns and the number of requests it makes. */
  ghost function Fetched(server: seq<Reply>): (seq<QueueItem>, nat)
  {
    FetchFrom(server, 0)
  }

  function PageNumbers(n: nat): (s: seq<int>)
    ensures |s| == n && forall i :: 0 <= i < n ==> s[i] == i + 1
  {
    seq(n, i => i + 1)
  }

  lemma {:induction false} FetchFromMeets(server: seq<Reply>, k: nat)
    requires forall j :: 0 <= j < k ==> Accepted(ReplyTo(server, j))
    requires forall j :: 1 <= j <= k ==> !TotalReached(server, j)
    ensures PaginationResult(server, FetchFrom(server, k).0, PageNumbers(FetchFrom(server, k).1))
    decreases |server| - k
  {
    if Accepted(ReplyTo(server, k)) && !TotalReached(server, k + 1) {
      FetchFromMeets(server, k + 1);
    }
  }

  /** The reference retrieval meets the specification. */
  lemma FetchedMeets(server: seq<Reply>)
    ensures PaginationResult(server, Fetched(server).0, PageNumbers(Fetched(server).1))
  {
    FetchFromMeets(server, 0);
  }

  /** The specification leaves no choice: one server, one outcome. */
  lemma {:induction false} PaginationDeterministic(server: seq<Reply>, r1: seq<QueueItem>, q1: seq<int>, r2: seq<QueueItem>, q2: seq<int>)
    requires PaginationResult(server, r1, q1)
    requires PaginationResult(server, r2, q2)
    ensures r1 == r2 && q1 == q2
  {
    var n1, n2 := |q1|, |q2|;
    if n1 != n2 {
      assert false;
    }
    assert q1 == q2;
  }

  /** Every retrieval returns exactly the reference records. */
  lemma PaginationIsFetched(server: seq<Reply>, records: seq<QueueItem>, requested: seq<int>)
    requires PaginationResult(server, records, requested)
    ensures records == Fetched(server).0 && |requested| == Fetched(server).1
  {
    FetchedMeets(server);
    PaginationDeterministic(server, records, requested, Fetched(server).0, PageNumbers(Fetched(server).1));
  }

  /**
   * A queue of 120 records served in pages of 50, 50 and 20, every reply
   * reporting totalRecords 120: three requests, all 120 records, in order.
   */
  lemma ThreePagesOf120(a: seq<QueueItem>, b: seq<QueueItem>, c: seq<QueueItem>, records: seq<QueueItem>, requested: seq<int>)
    requires |a| == 50 && |b| == 50 && |c| == 20
    requires PaginationResult([Page(a, Count(120)), Page(b, Count(120)), Page(c, Count(120))], records, requested)
    ensures requested == [1, 2, 3]
    ensures records == a + b + c && |records| == 120
  {
    var server := [Page(a, Count(120)), Page(b, Count(120)), Page(c, Count(120))];
    assert Collected(server, 1) == a;
    assert Collected(server, 2) == a + b;
    assert Collected(server, 3) == a + b + c;
    assert TotalAfter(server, 1) == Some(120);
    assert TotalAfter(server, 2) == Some(120);
    assert TotalAfter(server, 3) == Some(120);
    assert !TotalReached(server, 1) && !TotalReached(server, 2) && TotalReached(server, 3);
    assert Accepted(ReplyTo(server, 0)) && Accepted(ReplyTo(server, 1)) && Accepted(ReplyTo(server, 2));
    assert |requested| == 3;
    assert requested == [1, 2, 3];
  }
}
