/**
 * Queue items as the backends report them, the stall classifier, and the
 * extraction of the identifiers a remediation needs.
 */
module Queue {
  import opened Wrappers
  import opened Text

  /** The two kinds of cycle: a stall check, or a check for items stuck on metadata. */
  datatype CheckMode = Stalled | DownloadingMetadata

  /**
   * One record of a backend's queue. A field that the JSON object lacks, or
   * holds as null, is None; `id` is the only field the handler reads without a presence test.
   */
  datatype QueueItem = QueueItem(
    id: int,
    status: Option<string>,
    errorMessage: Option<string>,
    movieId: Option<int>,
    seriesId: Option<int>,
    episodeId: Option<int>,
    episodeIds: Option<seq<int>>)

  /** What a remediation needs to know about one item. */
  datatype RemediationRequest = RemediationRequest(
    downloadId: string,
    movieId: Option<int>,
    seriesId: Option<int>,
    episodeIds: Option<seq<int>>)

  const MetadataToken := "downloading metadata"
  const StalledToken := "stalled"
  const ConnectionToken := "connection"
  const WarningStatus := "warning"

  /** Python truthiness of a nullable integer field: present and non-zero. */
  predicate Truthy(x: Option<int>)
  {
    x.Some? && x.value != 0
  }

  /** The error message in lower case; a missing message reads as "". */
  function ErrorText(item: QueueItem): (t: string)
    ensures item.errorMessage.None? ==> t == ""
    ensures item.errorMessage.Some? ==> t == Lower(item.errorMessage.value)
  {
    Lower(match item.errorMessage case Some(m) => m case None => "")
  }

  /**
   * The classifier: does this item count as stalled (or stuck on metadata)
   * in this mode? Total over every item.
   */
  predicate IsTarget(item: QueueItem, mode: CheckMode)
    ensures mode == DownloadingMetadata ==>
      (IsTarget(item, mode) <==> exists i :: OccursAt(ErrorText(item), MetadataToken, i))
    ensures mode == Stalled ==>
      (IsTarget(item, mode) <==>
         ((exists i :: OccursAt(ErrorText(item), StalledToken, i))
          || (exists i :: OccursAt(ErrorText(item), ConnectionToken, i))
          || item.status == Some(WarningStatus)))
  {
    var msg := ErrorText(item);
    match mode
    case DownloadingMetadata => Contains(msg, MetadataToken)
    case Stalled => Contains(msg, StalledToken) || Contains(msg, ConnectionToken) || item.status == Some(WarningStatus)
  }

  /** The tracking key of an item: its id rendered as a decimal string. */
  function DownloadId(item: QueueItem): (id: string)
    ensures IsDecimal(id) && ParseInt(id) == item.id
  {
    IntToStringRoundTrip(item.id);
    IntToString(item.id)
  }

  /**
   * The episodes to search for: the single `episodeId` when it is truthy,
   * else a non-empty `episodeIds` list, else none. Never an empty list.
   */
  function EpisodeIds(item: QueueItem): (r: Option<seq<int>>)
    ensures r.Some? ==> r.value != []
  {
    if Truthy(item.episodeId) then Some([item.episodeId.value])
    else if item.episodeIds.Some? && item.episodeIds.value != [] then item.episodeIds
    else None
  }

  /** Everything the remediation of `item` is given. */
  function RequestFor(item: QueueItem): (r: RemediationRequest)
    ensures r.downloadId == DownloadId(item)
    ensures IsDecimal(r.downloadId) && ParseInt(r.downloadId) == item.id
    ensures r.movieId == item.movieId && r.seriesId == item.seriesId
    ensures r.episodeIds == EpisodeIds(item)
  {
    RemediationRequest(DownloadId(item), item.movieId, item.seriesId, EpisodeIds(item))
  }

  /** The three cases of episode selection, and the series id taken independently of them. */
  lemma EpisodeIdsChoice(item: QueueItem)
    ensures Truthy(item.episodeId) ==> EpisodeIds(item) == Some([item.episodeId.value])
    ensures !Truthy(item.episodeId) && item.episodeIds.Some? && item.episodeIds.value != [] ==>
      EpisodeIds(item) == item.episodeIds
    ensures !Truthy(item.episodeId) && (item.episodeIds.None? || item.episodeIds.value == []) ==>
      EpisodeIds(item).None?
    ensures RequestFor(item).seriesId == item.seriesId
  {
  }

  /** Two items with different ids never share a tracking key. */
  lemma DownloadIdInjective(a: QueueItem, b: QueueItem)
    requires DownloadId(a) == DownloadId(b)
    ensures a.id == b.id
  {
    IntToStringInjective(a.id, b.id);
  }
}
