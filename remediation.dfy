/**
 * Remediation of a download whose timeout has passed: remove it from the
 * backend's queue with blocklisting, then possibly ask the backend to search
 * for a replacement.
 */
module Remediation {
  import opened Wrappers
  import opened Text
  import opened Queue

  /** The two documented values of the (upper-cased) action setting. */
  const Remove := "REMOVE"
  const BlocklistAndSearch := "BLOCKLIST_AND_SEARCH"

  /**
   * How the backend answered the queue DELETE: an answer other than 404 that
   * the HTTP client accepts (any status below 400), a 404, or any other
   * failure (a 4xx or 5xx status, or a request error).
   */
  datatype DeleteStatus = Deleted | NotFound | Failed

  /** A search command posted to `/api/v3/command`. */
  datatype Command =
    | EpisodeSearch(episodeIds: seq<int>)
    | SeriesSearch(seriesId: int)
    | MoviesSearch(movieIds: seq<int>)

  /**
   * An HTTP request sent to the backend: the queue DELETE (always with
   * blocklist=true and skipRedownload=false) or a command POST.
   */
  datatype Call = DeleteFromQueue(downloadId: string) | PostCommand(command: Command)

  /** The boolean the delete helper returns: success for an accepted answer other than 404; a 404 is not success. */
  function DeleteApi(status: DeleteStatus): (ok: bool)
    ensures ok <==> status == Deleted
    ensures status == NotFound ==> !ok
  {
    match status
    case Deleted => true
    case NotFound => false
    case Failed => false
  }

  /** Python truthiness of an optional id list. */
  predicate NonEmpty(ids: Option<seq<int>>)
  {
    ids.Some? && ids.value != []
  }

  /**
   * The search command, if any, that follows a delete. A command is only
   * possible after a successful delete under BLOCKLIST_AND_SEARCH, and what
   * it searches for matches the service kind and the ids at hand.
   */
  function SearchCommand(deleteOk: bool, action: string, service: string,
                         movieId: Option<int>, seriesId: Option<int>, episodeIds: Option<seq<int>>): (c: Option<Command>)
    ensures c.Some? ==> deleteOk && action == BlocklistAndSearch
    ensures action == Remove ==> c.None?
    ensures c.Some? && c.value.EpisodeSearch? ==>
      StartsWith(service, "Sonarr") && episodeIds == Some(c.value.episodeIds) && c.value.episodeIds != []
    ensures c.Some? && c.value.SeriesSearch? ==>
      StartsWith(service, "Sonarr") && !NonEmpty(episodeIds) && Truthy(seriesId) && c.value.seriesId == seriesId.value
    ensures c.Some? && c.value.MoviesSearch? ==>
      !StartsWith(service, "Sonarr") && StartsWith(service, "Radarr") && Truthy(movieId) && c.value.movieIds == [movieId.value]
  {
    if !deleteOk && action != Remove then None
    else if action != BlocklistAndSearch then None
    else if StartsWith(service, "Sonarr") then
      if NonEmpty(episodeIds) then Some(EpisodeSearch(episodeIds.value))
      else if Truthy(seriesId) then Some(SeriesSearch(seriesId.value))
      else None
    else if StartsWith(service, "Radarr") && Truthy(movieId) then Some(MoviesSearch([movieId.value]))
    else None
  }

  /** When a search is allowed, it is the one the ids call for; otherwise none is sent. */
  lemma CommandSelection(deleteOk: bool, action: string, service: string,
                         movieId: Option<int>, seriesId: Option<int>, episodeIds: Option<seq<int>>)
    ensures var c := SearchCommand(deleteOk, action, service, movieId, seriesId, episodeIds);
      && (!deleteOk || action != BlocklistAndSearch ==> c.None?)
      && (deleteOk && action == BlocklistAndSearch && StartsWith(service, "Sonarr") ==>
            c == (if NonEmpty(episodeIds) then Some(EpisodeSearch(episodeIds.value))
                  else if Truthy(seriesId) then Some(SeriesSearch(seriesId.value))
                  else None))
      && (deleteOk && action == BlocklistAndSearch && !StartsWith(service, "Sonarr") ==>
            c == (if StartsWith(service, "Radarr") && Truthy(movieId) then Some(MoviesSearch([movieId.value])) else None))
  {
  }

  /** A 404 on the delete means no search, whatever the action setting. */
  lemma NotFoundNeverSearches(action: string, service: string,
                              movieId: Option<int>, seriesId: Option<int>, episodeIds: Option<seq<int>>)
    ensures SearchCommand(DeleteApi(NotFound), action, service, movieId, seriesId, episodeIds).None?
  {
  }

  /** The calls that one remediation sends: the delete, then at most one command. */
  function ActionCalls(r: RemediationRequest, service: string, action: string, status: DeleteStatus): (calls: seq<Call>)
    ensures 1 <= |calls| <= 2 && calls[0] == DeleteFromQueue(r.downloadId)
    ensures forall i :: 1 <= i < |calls| ==> calls[i].PostCommand?
  {
    var c := SearchCommand(DeleteApi(status), action, service, r.movieId, r.seriesId, r.episodeIds);
    [DeleteFromQueue(r.downloadId)] + (if c.Some? then [PostCommand(c.value)] else [])
  }

  /**
   * The remediation step itself: issue the delete, read back its outcome
   * `status` and, when allowed, post the search command.
   */
  method PerformAction(downloadId: string, movieId: Option<int>, service: string, action: string,
                       episodeIds: Option<seq<int>>, seriesId: Option<int>, status: DeleteStatus)
    returns (calls: seq<Call>)
    ensures calls == ActionCalls(RemediationRequest(downloadId, movieId, seriesId, episodeIds), service, action, status)
  {
    calls := [DeleteFromQueue(downloadId)];
    var success := DeleteApi(status);
    if !success && action != Remove {
      return;
    }
    if action == BlocklistAndSearch {
      if StartsWith(service, "Sonarr") {
        if NonEmpty(episodeIds) {
          calls := calls + [PostCommand(EpisodeSearch(episodeIds.value))];
        } else if Truthy(seriesId) {
          calls := calls + [PostCommand(SeriesSearch(seriesId.value))];
        }
      } else if StartsWith(service, "Radarr") && Truthy(movieId) {
        calls := calls + [PostCommand(MoviesSearch([movieId.value]))];
      }
    }
  }
}
