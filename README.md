# Stalled-download handler, modelled in Dafny

The handler watches the download queues of Radarr and Sonarr instances.
An item counts as a target when it looks stalled. In metadata mode, it counts
instead when it is stuck downloading metadata. The first time the handler sees
a target, it records the time in a tracking table keyed by
(download id, service name). It leaves the download alone until, on a later
cycle, more than `STALLED_TIMEOUT` seconds have passed since that first sighting.
Then it performs the remediation:

  - it deletes the item from the backend's queue, with blocklisting;
  - under `BLOCKLIST_AND_SEARCH`, and only when the delete succeeded, it asks
    the backend to search for a replacement (episodes, the series, or the movie);
  - it drops the tracking row.

The model covers each of these stages, one module per file:

- `text.dfy` (`Text`): the string operations the handler relies on:
  - lower-casing;
  - substring and prefix tests;
  - decimal rendering of an integer id, with its parse-back.
- `queue.dfy` (`Queue`): a queue record and its classifier. It also gives the
  ids a remediation needs: the download id, movie, series and episodes.
- `tracking.dfy` (`Tracking`): the tracking table. It is a class over a map
  from (download id, service) to the first-detection time. It offers:
  - insert-if-absent, reporting whether it inserted;
  - delete by key;
  - the per-service read.
- `paging.dfy` (`Paging`): the pagination loop. It runs over the finite
  sequence of replies that a backend gives to requests for pages 1, 2, 3, ….
  It is specified declaratively by `PaginationResult`, and a reference
  recursive retrieval (`Fetched`) is proved to be the only result the
  specification admits.
- `remediation.dfy` (`Remediation`): the delete helper's boolean and the choice
  of search command, plus the remediation step as the list of HTTP calls it
  sends.
- `debounce.dfy` (`Debounce`): one check cycle for one service. It reads the
  service's rows once, decides each record against that snapshot, and writes
  the decisions back to the store. Lemmas state which rows it adds, keeps and
  removes, and which deletes it sends.
- `scheduler.dfy` (`Scheduler`): one sweep over the configured instances, and
  the service names the instances run under.
- `scenarios.dfy` (`Scenarios`): concrete cycles worked out on the model.
- `wrappers.dfy` (`Wrappers`): an `Option` type.

Some inputs come from outside and become parameters:

- the clock is a function from the item's position in the cycle to integer
  seconds; the handler reads the time again for each item;
- the backend's queue replies are a sequence of `Reply` values;
- the backend's answers to the deletes are a function from item position to
  `DeleteStatus`, which is one of: an answer other than 404 that the HTTP
  client accepts (any status below 400), a 404, or another failure (a 4xx or
  5xx status, or a request error).

Two behaviours of the code are worth noting:

- `delete_api` returns false on a 404 (main.py:101-103), even though its log
  line and comment call the item already deleted, so the safety gate skips the
  search (main.py:146-148).
- The tracking row is removed after every remediation, whatever the delete's
  outcome (main.py:235-236).

## Model

| member | source | states |
|---|---|---|
| Text.LowerNormalises | main.py:201 | the lower-cased message holds no upper-case ASCII letter, lower-casing it again changes nothing, and it equals the input exactly when the input had no upper-case ASCII letter |
| Text.Contains | main.py:205-210 | true exactly when the token occurs somewhere in the message, as Python's substring test |
| Text.StartsWith | main.py:154 | true exactly when the string is the prefix followed by some (possibly empty) rest |
| Text.IntToString | main.py:217 | the rendering of an id is a well-formed decimal, with a minus sign exactly for negative ids |
| Text.IntToStringRoundTrip | main.py:217 | parsing the rendered id gives the id back |
| Text.IntToStringInjective | main.py:217 | distinct ids render to distinct strings |
| Queue.IsTarget | main.py:200-214 | metadata mode: a target exactly when the message contains "downloading metadata"; stall mode: exactly when it contains "stalled" or "connection", or when the status is "warning" |
| Queue.DownloadId | main.py:217 | the tracking key is a decimal string that parses back to the item's id |
| Queue.DownloadIdInjective | main.py:217 | two items share a tracking key only when their ids are equal |
| Queue.EpisodeIds | main.py:221-226 | the episode list handed to a search is never empty |
| Queue.EpisodeIdsChoice | main.py:220-226 | a truthy single episode id wins; otherwise a non-empty id list is passed on as it is; otherwise there are no episodes. The series id is taken in every case |
| Queue.RequestFor | main.py:216-226 | the remediation gets the item's decimal id, its movie and series ids unchanged, and the episode choice |
| Tracking.InsertIfAbsent | main.py:62-72 | a present key leaves the table unchanged; an absent key is added with the given time; no other row changes |
| Tracking.DeleteKey | main.py:74-79 | the key is gone, and every other row is kept with its time |
| Tracking.ServiceView | main.py:54-60 | the view holds exactly this service's download ids, each with its row's time |
| Tracking.InsertIfAbsentIdempotent | main.py:65-69 | a second insert of the same key changes nothing and keeps the first time |
| Tracking.ViewsAreSeparate | main.py:54-79 | inserts and deletes for one service leave every other service's view unchanged |
| Tracking.TrackingStore.constructor | main.py:37-52 | a new table is empty |
| Tracking.TrackingStore.GetForService | main.py:54-60 | returns this service's view of the current rows, leaving the table as it was |
| Tracking.TrackingStore.Add | main.py:62-72 | reports true exactly when the key was absent; the table becomes the insert-if-absent of the old one |
| Tracking.TrackingStore.Remove | main.py:74-79 | the table becomes the old one without that key |
| Paging.QueryPaginated | main.py:111-135 | pages 1..n are requested in order. Each page before the last was non-empty and did not reach the total. Either the last page reached a known non-zero total and all n pages are returned, or the last reply was malformed or empty and the first n-1 pages are returned |
| Paging.FetchedMeets | main.py:111-135 | the reference page-by-page retrieval meets the loop's specification |
| Paging.PaginationDeterministic | main.py:111-135 | for a given backend, the specification admits exactly one result, both the records and the pages requested |
| Paging.PaginationIsFetched | main.py:111-135 | every result that meets the specification is the reference retrieval's result |
| Paging.ThreePagesOf120 | main.py:111-135 | pages of 50, 50 and 20 records with total 120 give three requests and all 120 records in order |
| Remediation.DeleteApi | main.py:98-109 | the delete reports success exactly for an accepted answer other than 404, so a 404 or a failed request is not success |
| Remediation.SearchCommand | main.py:146-171 | a search follows only a successful delete under BLOCKLIST_AND_SEARCH. REMOVE never searches. An episode search needs a Sonarr service and a non-empty episode list; a series search needs a Sonarr service, no episodes and a truthy series id; a movie search needs a non-Sonarr service whose name starts with Radarr, and a truthy movie id |
| Remediation.CommandSelection | main.py:146-171 | the command is exactly the one the branch order picks: episodes first, then the series for Sonarr, then the movie for Radarr |
| Remediation.NotFoundNeverSearches | main.py:98-148 | a 404 on the delete means no search, under any action setting |
| Remediation.ActionCalls | main.py:137-171 | a remediation sends the delete first, then at most one command post |
| Remediation.PerformAction | main.py:137-171 | the calls sent are the delete, followed by the selected search command if there is one |
| Debounce.Decide | main.py:200-243 | skip exactly the non-targets. Start a timer, stamped with the current time, exactly for untracked targets. Act exactly when a tracked target's elapsed time strictly exceeds the timeout, and then with the item's ids. Otherwise wait |
| Debounce.CheckQueueAndAct | main.py:173-243 | the new table and the calls sent are those of the decisions taken for the fetched records against the rows read at the start of the cycle |
| Debounce.Reconcile | main.py:198-243 | handling the records in order leaves the table and the calls of the decisions folded in that order |
| Debounce.CycleLeavesOtherServices | main.py:196-243 | the rows of other services come out of a cycle unchanged |
| Debounce.CycleRemovesExactlyExpired | main.py:229-236 | a row disappears exactly when a target with that id was tracked and its elapsed time exceeded the timeout |
| Debounce.CycleNeverResetsTimers | main.py:229-243 | every row that survives a cycle keeps its first-detection time |
| Debounce.CycleStartsTimers | main.py:241-243 | every untracked target is tracked afterwards, and every new row belongs to such a target, stamped with the clock reading of that id's first target in the queue, so a later duplicate in the same cycle never re-stamps it |
| Debounce.CycleDeletesExactlyExpired | main.py:229-236 | a delete is sent for an id exactly when a target with that id was tracked and its elapsed time exceeded the timeout |
| Debounce.DebounceBoundary | main.py:233 | at exactly the timeout the item waits, and nothing is written or sent; one second later it fires |
| Scenarios.RadarrFirstCycle | main.py:241-243 | a first sighting at t = 0 adds the row at 0 and sends nothing |
| Scenarios.RadarrSecondCycle | main.py:229-236 | at t = 905 with a 900 s timeout, the delete and a movie search are sent and the row is gone |
| Scenarios.RadarrNotFound | main.py:98-148 | the same cycle with a 404 sends only the delete |
| Scenarios.SonarrEpisodesPreferred | main.py:154-158 | a Sonarr item with an episode list gets an episode search |
| Scenarios.SonarrSeriesFallback | main.py:159-162 | a Sonarr item with no episodes gets a series search |
| Scheduler.ServiceName | main.py:254-261 | an instance's service name starts with its kind's name |
| Scheduler.ServiceNameInjective | main.py:252-263 | distinct instances run under distinct service names, so their tracking rows never mix |
| Scheduler.ServiceNameKind | main.py:252-263 | Radarr instances take the movie branch and Sonarr instances take the episode and series branch |
| Scheduler.KindPlanShape | main.py:252-263 | the n instances of a kind give one or two cycles each, with metadata cycles only when enabled, and no instance twice in one mode |
| Scheduler.SweepPlanShape | main.py:250-263 | all Radarr cycles come before all Sonarr cycles, metadata cycles run only when enabled, and no service name appears twice in one mode |
| Scheduler.RunCycle | main.py:254 | one cycle extends the run's table and calls by that cycle's effect |
| Scheduler.RunInstance | main.py:253-256 | an instance's stall cycle, then its metadata cycle when enabled |
| Scheduler.RunKind | main.py:252-263 | the instances of one kind run in index order |
| Scheduler.Sweep | main.py:250-263 | a sweep runs exactly the planned cycles in order, and the table and the calls are those of that run |

## Left out

- HTTP: requests, headers, URLs, API versions and query parameters are not modelled. A reply is a `Reply` value and a delete answer is a `DeleteStatus`.
- The outcome of `post_api` is not modelled. Its errors are only logged, so a command post is just a call in the output.
- SQLite is not modelled. The table is a map. Opening and closing connections, commits, SQL errors and the on-disk file are left out.
- ISO-8601 timestamps, time zones and fractional seconds are not modelled. Times are integer seconds.
- Configuration is not modelled: environment variables, `.env` loading and the `.upper()`/`.lower()` of settings. The timeout and the action are parameters in `Config`, and the instance counts and the metadata flag are parameters of `Sweep`.
- The URL and API-key lists are not modelled. An API-key list shorter than the URL list raises an IndexError in the source.
- Logging is left out, including the periodic "waiting" message: the `elapsed % 60 < 5` test only affects logging.
- The endless loop, the sleep between sweeps and the KeyboardInterrupt/Exception handlers are left out. The model covers one sweep; repeated sweeps compose by running `Sweep` again on the resulting table.
- Lidarr and Readarr are left out: their URLs and keys are read at main.py:17-20 but never used.
- `initialize_database` is not modelled beyond the empty table of `TrackingStore.constructor`. With a timeout of 0 the source skips creating the table, yet still reads it.
- Queue.IsTarget: a JSON null `errorMessage` raises in the source, because the null has no `lower` method. The model reads both a missing and a null message as "".
- Queue.QueueItem: a record without an `id` raises a KeyError in the source. The model's records always carry an id.
- Text.Lower: lower-cases ASCII letters only, not the full Unicode case mapping.
- Queue.QueueItem: JSON values of unexpected types are not modelled, such as a string where an integer id is expected.
- Paging.QueryPaginated: a server that would answer forever is not modelled. The backend's replies are a finite sequence, and a request past its end gets a malformed reply.
