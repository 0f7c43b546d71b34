# mulerun_crawl in Dafny

A model of the core of mulerun_crawl. The crawler scrolls the MuleRun agent
list. It records every listed agent with its rank in a PostgreSQL store,
marks vanished agents inactive and keeps a rank-history sample per crawl. An
HTTP API serves the data and tracks crawl tasks, behind an optional API key.
Feishu webhook messages report each crawl and each removed agent.

The model is split by source file:

- `common.dfy` (module `Common`): shared pieces.
  - `Option`, `Result`.
  - Decimal text and parsing it back.
  - Python's `str.strip`, line joining and splitting.
  - A stable insertion sort by an integer key.
  - Slicing with Python's rules for negative limits.
- `storage.dfy` (module `Storage`): `DatabaseStorage` of
  `mulerun_crawl/storage/database.py`, as a class over two tables.
  - `agents` is a map from link to row.
  - `rankHistory` is the append-only sequence of samples.
  - `SaveAgents` is a loop proved against the specification function
    `SavedTable`. Lemmas about that function state what a save does.
- `crawler.dfy` (module `Crawler`): the decision logic of
  `mulerun_crawl/crawler/crawler.py`.
  - The infinite-scroll loop, fed with what each scroll observed.
  - The 1-based rank numbering of the extracted cards.
  - The author clean-up, and the price extraction with its regular
    expression `(\d+)\s*/.*?run`.
- `tasks.dfy` (module `Tasks`): the in-memory `TaskService` of
  `api/services/task_service.py`, as a class over a map.
- `auth.dfy` (module `Auth`): `verify_api_key` of `api/middleware/auth.py`.
- `feishu.dfy` (module `Feishu`): the Feishu notifier of
  `mulerun_crawl/notifications/feishu.py`.
  - The message texts.
  - How a webhook response is judged a success.
- `query.dfy` (module `Query`): the text rules of `scripts/query.py`.
  - The rank-change arrows.
  - The shortening of long descriptions.

Where the source and its documentation differ, the model follows the source.
It differs in these places:

- `save_agents` appends one history sample per element of the batch, so a
  link listed twice gets two samples. The documentation describes one sample
  per agent.
- `save_agents` returns nothing. Which links vanished and which are new are
  stated by lemmas about the state before the save.
- `first_seen` of a new row comes from the database clock (the column default
  `CURRENT_TIMESTAMP`), not from the crawl time. The model takes it as a
  separate parameter `dbNow`.

## Model

| member | source | states |
|---|---|---|
| Storage.DatabaseStorage.SaveAgents | mulerun_crawl/storage/database.py:127-185 | the new agent table is the saved table: vanished active links deactivated, every batch record upserted; the batch's samples are appended to the history; the store stays valid |
| Storage.SaveKeepsEveryRow | mulerun_crawl/storage/database.py:140-177 | no row is ever deleted: the links after a save are the old links plus the batch's links |
| Storage.SaveActivatesBatch | mulerun_crawl/storage/database.py:151-177 | every link in the batch is active after the save, with last_updated set to the crawl time and first_seen kept for a known link or taken from the database clock for a new one |
| Storage.SaveLastOccurrenceWins | mulerun_crawl/storage/database.py:151-177 | when a link occurs more than once in a batch, its row carries the fields and rank of its last occurrence |
| Storage.SaveHandlesMissing | mulerun_crawl/storage/database.py:133-147 | a link that was active and is absent from the batch becomes inactive with last_updated set to the crawl time; any other row outside the batch is unchanged |
| Storage.SaveActiveIsBatch | mulerun_crawl/storage/database.py:133-177 | after a save the active links are exactly the batch's links |
| Storage.SaveRemovedAndAdded | mulerun_crawl/storage/database.py:133-158 | a link is deactivated by the save iff it was active and is not in the batch; a row is new iff its link was unknown |
| Storage.SaveKeepsInvariant | mulerun_crawl/storage/database.py:150-183 | a save keeps the table invariant: every row keyed by its own link, and every sampled link has a row |
| Storage.SamplesOfBatch | mulerun_crawl/storage/database.py:179-183 | a save appends no sample for a link iff the link is not in the batch |
| Storage.SaveHistoryOf | mulerun_crawl/storage/database.py:179-183 | a save appends history for a link iff the link is in the batch; earlier samples are kept unchanged |
| Storage.SaveKeepsHistoryOrdered | mulerun_crawl/storage/database.py:179-183 | when every sample predates the crawl, the history stays ordered by crawl time after a save |
| Storage.DatabaseStorage.GetActiveAgents | mulerun_crawl/storage/database.py:187-197 | returns exactly the active rows, sorted by rank, each once, at most `limit` of them when a non-zero limit is given, and no active row left out ranks better than one returned |
| Storage.Capped | mulerun_crawl/storage/database.py:191-193 | the number of rows returned: all of them without a limit or with limit 0, else the smaller of count and limit |
| Storage.DatabaseStorage.GetRankHistory | mulerun_crawl/storage/database.py:199-213 | the points of exactly the link's samples (as a multiset), ordered by ascending crawl time |
| Storage.SamplesOfSorted | mulerun_crawl/storage/database.py:203-207 | the samples of one link keep the history's order by crawl time |
| Storage.RankHistoryInRecordOrder | mulerun_crawl/storage/database.py:203-207 | when the history is ordered by crawl time, the points returned for a link are too (ORDER BY crawl_time) |
| Storage.DatabaseStorage.GetStatistics | mulerun_crawl/storage/database.py:215-241 | active plus inactive counts add up to the rows stored, the active count is the number of active links, total crawls is the number of distinct crawl times, and the latest crawl is absent iff the history is empty and otherwise a recorded crawl time no earlier than any sample |
| Storage.ActivePlusInactive | mulerun_crawl/storage/database.py:220-226 | the active and inactive links partition the table, so their counts add up to the total |
| Storage.LatestCrawl | mulerun_crawl/storage/database.py:232-234 | the latest crawl is absent iff the history is empty, and otherwise is a recorded crawl time no earlier than any other |
| Storage.StatisticsAfterSave | mulerun_crawl/storage/database.py:215-241 | after a non-empty save the active count is the number of distinct batch links, active plus inactive is the number of old and batch links together, and the latest crawl is no earlier than the save's crawl time, which is among the crawl times |
| Crawler.HasNewContent | mulerun_crawl/crawler/crawler.py:54-76 | a scroll found new content iff the card count after it is strictly greater than before it |
| Crawler.NewContentResetsRun | mulerun_crawl/crawler/crawler.py:166-172 | the idle counter is zero after a scroll iff the card count grew on it, and otherwise is one more than before |
| Crawler.ScrollUntilSettled | mulerun_crawl/crawler/crawler.py:163-180 | scrolls at most max_scroll_attempts times; stops right after the first scroll that completes `threshold` consecutive scrolls without new content; otherwise performs exactly max_scroll_attempts scrolls |
| Crawler.IdleRunBounded | mulerun_crawl/crawler/crawler.py:165-177 | while the loop runs, no run of scrolls without new content is longer than the threshold |
| Crawler.QuietPageStopsAtThreshold | mulerun_crawl/crawler/crawler.py:165-177 | when no scroll finds new content the loop stops after exactly `threshold` scrolls and not earlier |
| Crawler.AssignRanks | mulerun_crawl/crawler/crawler.py:187-192 | the loop computes the ranked agents: each extracted card in order, with the card's 1-based position as rank |
| Crawler.RankedNumbering | mulerun_crawl/crawler/crawler.py:187-192 | one agent per successful extraction, its rank in 1..n pointing back at its own card, ranks strictly increasing |
| Crawler.RankedComplete | mulerun_crawl/crawler/crawler.py:187-192 | every successfully extracted card appears, with its position as rank |
| Crawler.RankedWithoutFailures | mulerun_crawl/crawler/crawler.py:187-192 | when every card is extracted, the ranks are exactly 1..n in card order |
| Crawler.NormalizeAuthor | mulerun_crawl/crawler/crawler.py:119 | text not starting with "by " is kept as is; otherwise the result is at least 3 characters shorter and has no surrounding whitespace |
| Crawler.NormalizeAuthorRoundTrip | mulerun_crawl/crawler/crawler.py:119 | "by " followed by a stripped name that contains no "by " gives back the name |
| Crawler.NormalizeAuthorMangles | mulerun_crawl/crawler/crawler.py:119 | a name that contains "by " loses it as well: "by " + ab + "by " + rest becomes ab + rest, where only the prefix should be dropped |
| Crawler.AuthorNameRoundTrip | mulerun_crawl/crawler/crawler.py:119 | dropping only the leading "by " gives back any stripped name, whatever it contains |
| Crawler.MatchAtSound | mulerun_crawl/crawler/crawler.py:108 | a match found at a position is a match of the price expression there |
| Crawler.MatchAtComplete | mulerun_crawl/crawler/crawler.py:108 | at a position where the expression matches, the match found is the shortest one |
| Crawler.ExtractPrice | mulerun_crawl/crawler/crawler.py:108-109 | the price is a slice of the text; without a match it is the whole text; with one it is the leftmost, shortest match of the expression |
| Tasks.Updated | api/services/task_service.py:44-48 | each field the update names takes the new value, every other field keeps its value |
| Tasks.TaskService.CreateTask | api/services/task_service.py:25-38 | a new pending task with the given id and creation time is stored; every other task is unchanged; the id is returned |
| Tasks.TaskService.GetTask | api/services/task_service.py:40-42 | the stored task for the id, or none when the id is unknown |
| Tasks.TaskService.UpdateTask | api/services/task_service.py:44-48 | a known task gets the update applied; an unknown id changes nothing |
| Tasks.TaskService.StartTask | api/services/task_service.py:59-65 | the task becomes running with started_at set; nothing else changes |
| Tasks.TaskService.CompleteTask | api/services/task_service.py:67-74 | the task becomes completed with completed_at and the result set; nothing else changes |
| Tasks.TaskService.FailTask | api/services/task_service.py:76-83 | the task becomes failed with completed_at and the error set; nothing else changes |
| Tasks.TaskService.ListTasks | api/services/task_service.py:50-57 | the Python slice of the stored tasks: as many as the slice allows, each a stored task, no task twice, newest first, and no omitted task newer than one listed |
| Auth.VerifyApiKey | api/middleware/auth.py:13-55 | with no key configured every request passes; otherwise a request passes iff it carries the configured key; a missing key gives 401 and a wrong key 403, both with the ApiKey challenge |
| Feishu.NewNotifier | mulerun_crawl/notifications/feishu.py:20-28 | the webhook given, else the built-in one; the notifier is enabled iff the URL is non-empty |
| Feishu.Send | mulerun_crawl/notifications/feishu.py:119-147 | a message counts as sent iff a response arrived, its status is not an HTTP error, its body is JSON and its `code` equals 0 |
| Feishu.SendText | mulerun_crawl/notifications/feishu.py:30-51 | a disabled notifier posts nothing and reports failure; an enabled one posts the text and reports what `Send` judges |
| Feishu.SendCrawlSummary | mulerun_crawl/notifications/feishu.py:53-77 | a disabled notifier posts nothing; an enabled one posts the summary text and reports what `Send` judges |
| Feishu.SummaryReportsStats | mulerun_crawl/notifications/feishu.py:53-77 | the summary has nine lines, each statistic on its own line with 0 for a missing key, and every number reads back as the statistic |
| Feishu.SendAgentRemoved | mulerun_crawl/notifications/feishu.py:79-117 | nothing is posted for an empty list or by a disabled notifier; otherwise the single-agent or the batch message is posted and its outcome reported |
| Feishu.SingleRemovedShowsAgent | mulerun_crawl/notifications/feishu.py:92-100 | the single-agent message is seven lines, giving the agent's name, page link and author on lines of their own, with "Unknown" for a missing name or author |
| Feishu.BatchRemovedListsAgents | mulerun_crawl/notifications/feishu.py:101-115 | the batch message gives the count, lists the first ten agents one bullet each, and ends with a line counting the rest when there are more |
| Feishu.SendNotification | mulerun_crawl/notifications/feishu.py:150-161 | a notifier on the module's webhook posts the text iff that URL is non-empty, and the call returns true iff the URL is non-empty and `Send` judges the response a success |
| Query.ChangeString | scripts/query.py:93-99 | an up arrow for a climb, a down arrow for a drop, a right arrow for no change, followed by the number of places |
| Query.ParseChangeString | scripts/query.py:93-99 | the change can be read back from its marker |
| Query.RankChangeMarkers | scripts/query.py:89-100 | one marker per record: none for the first, and for each later one the marker of the change from the record before, which reads back as that change |
| Query.ShortDescription | scripts/query.py:52-54 | a description of at most 80 characters is kept; a longer one becomes its first 80 characters followed by "..." |
| Query.ShortDescriptionIdempotent | scripts/query.py:52-54 | shortening twice gives the same as shortening once |
| Query.DescriptionShown | scripts/query.py:52-54 | a description line appears iff the description is present and non-empty, and shows the shortened description |

## Left out

- Browser control (Playwright) is left out: navigating, scrolling and querying the page. Each scroll is given as the card counts before and after it. Each card's extraction is given as an optional record.
- `_extract_agent_info` reads a card's attributes from the page, which is left out. Only its author and price clean-ups are modelled.
- Database connection, transactions, DDL and the SQL text are left out. `save_agents` is an atomic transition on the two tables. A failed transaction leaves the store unchanged, and that rollback is not modelled.
- Clocks, `uuid4` and `strftime` become parameters. `crawl_time` defaults to the current time in the source; the model has the caller pass it.
- Storage.DatabaseStorage.GetActiveAgents: ties in `ORDER BY rank` have no fixed order in SQL. The contract fixes the set of rows and their rank order, and not the order among equal ranks.
- Storage.DatabaseStorage.GetActiveAgents: the limit is `Option<nat>`. A negative limit, which would reach SQL as `LIMIT -n`, is not modelled.
- Storage.DatabaseStorage.GetStatistics: counts are unbounded integers. The `latest_crawl` timestamp is an integer time, not a datetime.
- Crawler.ExtractPrice: `\d` and `\s` are read as ASCII digits and Python's whitespace characters. Python's `\d` on `str` also matches other Unicode decimal digits, and these are not modelled.
- Feishu.NewNotifier: the built-in default webhook URL is a parameter (`moduleUrl`). It embeds an access token and is not reproduced.
- Feishu.Send: the HTTP post, its 10-second timeout and its exceptions become an optional response. A missing response stands for any exception. JSON values are abstracted to what `code == 0` needs.
- `send_agent_added_notification` and `get_notifier`'s global singleton are not part of this model.
- `update_task` may receive keyword arguments for attributes the task does not have. This is not modelled: an update names only the task's own fields.
- Tasks.TaskService.ListTasks: the default `limit` of 50 is not modelled; every call passes its limit.
- The `result` of a task is abstracted to a map from strings to strings.
- Logging, `print`, the command-line parsing of `scripts/query.py`, its SQL queries and the largest-change listing are left out; only the change marker it prints is modelled.
- The schedulers, the crawl orchestration in `api/services/crawl_service.py` and `main.py`, the API routes and the response schemas are not part of this model.

## Findings

| source | as written | input that shows it | evidently intended | confidence | as-written member | corrected member |
|---|---|---|---|---|---|---|
| mulerun_crawl/crawler/crawler.py:119 | every occurrence of "by " is removed from the author text, not only the leading one | author text "by Abby Smith" gives "AbSmith" | drop only the leading "by " and strip: "Abby Smith" | medium, not executed | Crawler.NormalizeAuthorMangles | Crawler.AuthorNameRoundTrip |
