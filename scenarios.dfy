/** Concrete runs of the handler, worked out on the model. */
module Scenarios {
  import opened Wrappers
  import opened Queue
  import opened Tracking
  import opened Remediation
  import opened Debounce

  /** A clock that reads `t` for every item of the cycle. */
  function ClockAt(t: int): nat -> int
  {
    _ => t
  }

  /** A backend that answers every delete with `status`. */
  function AlwaysAnswers(status: DeleteStatus): nat -> DeleteStatus
  {
    _ => status
  }

  /** Radarr queue item 42 for movie 7, reported as stalled. */
  function StalledMovie(): QueueItem
  {
    QueueItem(42, Some("warning"), Some("stalled"), Some(7), None, None, None)
  }

  const Policy := Config(900, BlocklistAndSearch)

  /** The first sighting of item 42, at t = 0, starts its timer and sends nothing. */
  lemma RadarrFirstCycle()
    ensures CycleRows(map[], "Radarr0", [StalledMovie()], Stalled, Policy.timeout, ClockAt(0))
            == map[("42", "Radarr0") := 0]
    ensures CycleCalls(map[], "Radarr0", [StalledMovie()], Stalled, Policy, ClockAt(0), AlwaysAnswers(Deleted)) == []
  {
    var item := StalledMovie();
    assert IsTarget(item, Stalled);
    assert DownloadId(item) == "42";
    assert ServiceView(map[], "Radarr0") == map[];
    var ds := Decisions(map[], [item], Stalled, 900, ClockAt(0));
    assert ds == [StartTimer("42", 0)];
    assert ds[..0] == [];
  }

  /**
   * The second sighting, at t = 905 (more than 900 s later): the delete is
   * sent, the backend acknowledges it, a search for movie 7 follows, and the
   * row is gone.
   */
  lemma RadarrSecondCycle()
    ensures CycleCalls(map[("42", "Radarr0") := 0], "Radarr0", [StalledMovie()], Stalled, Policy, ClockAt(905),
                       AlwaysAnswers(Deleted))
            == [DeleteFromQueue("42"), PostCommand(MoviesSearch([7]))]
    ensures CycleRows(map[("42", "Radarr0") := 0], "Radarr0", [StalledMovie()], Stalled, Policy.timeout, ClockAt(905))
            == map[]
  {
    var item := StalledMovie();
    assert IsTarget(item, Stalled);
    assert DownloadId(item) == "42";
    assert ServiceView(map[("42", "Radarr0") := 0], "Radarr0") == map["42" := 0];
    var ds := Decisions(map["42" := 0], [item], Stalled, 900, ClockAt(905));
    assert ds == [Fire(RemediationRequest("42", Some(7), None, None))];
    assert ds[..0] == [];
    assert "Radarr0"[..6] == "Radarr" && "Radarr0"[0] != "Sonarr"[0];
    assert SearchCommand(true, BlocklistAndSearch, "Radarr0", Some(7), None, None) == Some(MoviesSearch([7]));
    assert StepCalls(ds[0], "Radarr0", BlocklistAndSearch, Deleted)
           == [DeleteFromQueue("42"), PostCommand(MoviesSearch([7]))];
    assert StepRows(map[("42", "Radarr0") := 0], "Radarr0", ds[0]) == map[];
  }

  /**
   * The same second sighting when the delete draws a 404: only the delete is
   * sent, no search follows, and the row is dropped all the same.
   */
  lemma RadarrNotFound()
    ensures CycleCalls(map[("42", "Radarr0") := 0], "Radarr0", [StalledMovie()], Stalled, Policy, ClockAt(905),
                       AlwaysAnswers(NotFound))
            == [DeleteFromQueue("42")]
  {
    var item := StalledMovie();
    assert IsTarget(item, Stalled);
    assert DownloadId(item) == "42";
    assert ServiceView(map[("42", "Radarr0") := 0], "Radarr0") == map["42" := 0];
    var ds := Decisions(map["42" := 0], [item], Stalled, 900, ClockAt(905));
    assert ds == [Fire(RemediationRequest("42", Some(7), None, None))];
    assert ds[..0] == [];
  }

  /** A Sonarr pack item with episodes 10 and 11 of series 5 gets an episode search, never a series search. */
  lemma SonarrEpisodesPreferred()
    ensures var r := RequestFor(QueueItem(3, Some("warning"), None, None, Some(5), None, Some([10, 11])));
            SearchCommand(DeleteApi(Deleted), BlocklistAndSearch, "Sonarr0", r.movieId, r.seriesId, r.episodeIds)
            == Some(EpisodeSearch([10, 11]))
  {
  }

  /** A Sonarr item of series 5 with no episode ids gets a series search. */
  lemma SonarrSeriesFallback()
    ensures var r := RequestFor(QueueItem(3, Some("warning"), None, None, Some(5), None, None));
            SearchCommand(DeleteApi(Deleted), BlocklistAndSearch, "Sonarr0", r.movieId, r.seriesId, r.episodeIds)
            == Some(SeriesSearch(5))
  {
  }
}
