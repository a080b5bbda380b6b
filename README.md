# Block-by-hashtag tool: a Dafny model of its drive loop

`block_tool.py` searches a microblogging service for recent posts carrying a
hashtag (reposts excluded), blocks the author of every post it finds, and
pages backwards through the results with a `max_id` cursor until a page comes
back empty, a search ceiling is passed, or a request raises. This project
models that core and proves what it does.

- `search_query.dfy` (module `SearchQuery`): the search term
  `"#" + word + " exclude:retweets"` before percent-encoding, and its inverse.
- `pages.dfy` (module `Pages`): a search page (`Post(id, screenName)`), a
  failed search, the authors' screen names of a page, and the cursor a page
  leaves (the last status's id minus one, as the code computes it).
- `blocking.dfy` (module `Blocking`): the batch of block requests for one
  list of screen names (`BlockAll`), which stops at the first request that
  raises.
- `drive_loop.dfy` (module `DriveLoop`): the reference definition of a run,
  `Drive`. A run is a list of rounds (one search call each, then that page's
  block requests) and an outcome: `LimitReached`, `NoData` or `Failed`. The
  module also holds the trace of outbound calls a run makes (`Flatten`) and the
  lemmas about runs.
- `tool.dfy` (module `Tool`): the class `BlockTool`. It has the tool's settings,
  the prepared search term, and counters of the search and block requests
  issued so far. A ghost field `calls` records every outbound request. The
  methods mirror `set_url_parse`, `_search_tweets`, `_block_users`,
  `exec_block_process` and `main`. Each loop is proved against the reference
  definition: `ExecBlockProcess` ends with the outcome of `Start`. Its trace is
  the calls of `Start`'s rounds: the search calls with their cursors, and
  after each page the block requests for its authors.

The two endpoints are oracles given to the constructor:
- `search(n, maxId)` is the reply to the `n`-th search call of the run:
  a page, or a failure.
- `block(n, name)` is false when the `n`-th block request raises.

Indexing the replies by the call number lets the service answer anything,
including different pages for the same cursor.

Where the code and its design notes differ, the model follows the code:
- The first search is sent with `max_id` 0, not with an absent bound.
- The cursor is overwritten by every status of the page, so the *last*
  status decides it, not the minimum id. When the ids of a page decrease
  strictly, the two agree (`Pages.CursorAfterDecreasingPage`).
- The design promises that the cursor decreases from page to page. The code
  guarantees this only if the service honours `max_id`. The model states that
  as an explicit assumption (`DriveLoop.HonoursMaxId`) and proves the decrease
  from it (`DriveLoop.CursorsDecrease`).
- `requests.request` does not raise on an HTTP error status. A block request
  therefore fails only when the request itself raises. A search fails only
  when the request raises or the reply has no usable `statuses`.

## Model

| member | source | states |
|---|---|---|
| SearchQuery.SearchTerm | block_tool.py:65 | the term is one `#`, the word, then the repost exclusion; it starts with `#` and its length is the word's plus 18 |
| SearchQuery.TargetWordOfSearchTerm | block_tool.py:65 | reading the word back out of the search term of a word gives that word |
| SearchQuery.SearchTermOfTargetWord | block_tool.py:65 | a string is accepted as a search term exactly when it is the term of some word, and then it is the term of the word read from it |
| SearchQuery.SearchTermInjective | block_tool.py:65 | distinct target words give distinct search terms |
| Pages.ScreenNamesAt | block_tool.py:88-90 | the list of screen names has one entry per status, and entry `k` is the author of status `k` (order and duplicates kept) |
| Pages.MinIdIsLeast | block_tool.py:88-91 | the minimum id of a page is the id of one of its statuses and no status has a smaller one |
| Pages.CursorAfterDecreasingPage | block_tool.py:88-91 | on a page whose ids decrease strictly, the cursor the walk leaves is the minimum id minus one, strictly below every id of the page |
| Pages.CursorAfterBelowBound | block_tool.py:88-91 | if every id of a non-empty page is at most the cursor sent, the cursor left is strictly smaller |
| Blocking.BlockAllStep | block_tool.py:125-130 | the batch seen from entry `k` on: that request returns and the batch goes on from entry `k + 1`, or it raises and the batch has issued exactly the first `k + 1` names |
| Blocking.BlockAllIssuesInOrder | block_tool.py:125-130 | the names requested are a prefix of the list; the batch completes if and only if every request returns, and then each name got exactly one request, in list order |
| Blocking.BlockAllStopsAtFirstFailure | block_tool.py:94-130 | a failed batch issued a non-empty prefix of the list; every request before the last returned, the last raised, and no later name got a request |
| DriveLoop.DriveStops | block_tool.py:76-97 | past the ceiling the run ends with LimitReached without a search; a failed search ends it with Failed, an empty page with NoData, each in one round with no block request |
| DriveLoop.DriveOnPage | block_tool.py:88-97 | on a non-empty page the round blocks the page's batch; a failed batch ends the run with Failed, a complete one goes on from the next counter, the cursor left by the page and the next request numbers |
| DriveLoop.DriveBounded | block_tool.py:73-78 | a run makes at most `limit + 1 - i` searches (none if that is negative), at least one if the ceiling allows one, and ends with LimitReached only after using them all |
| DriveLoop.DriveFollowsOracle | block_tool.py:72-112 | the first search is sent with the starting cursor, round `j` holds the reply to search number `nf + j`, and every later search is sent with the cursor the previous page left |
| DriveLoop.DriveBlocksFollowOracle | block_tool.py:74-130 | each round's block requests are exactly the batch of its own page's screen names, numbered on from the earlier rounds' requests; a failed search issues none |
| DriveLoop.DriveShape | block_tool.py:73-94 | every round but the last had a non-empty page all of whose authors were blocked; after LimitReached the last one did too |
| DriveLoop.DriveOutcome | block_tool.py:81-97 | NoData means the last round got an empty page and issued no block request; Failed holds if and only if the last round raised, in its search or in a non-empty prefix of its page's block batch |
| DriveLoop.FirstEmptyPageEndsRun | block_tool.py:81-85 | if the first `k` searches return pages, the next an empty one, no block request raises and the ceiling allows `k + 1` searches, the run makes exactly `k + 1` searches, blocks every author of the first `k` pages and ends with NoData |
| DriveLoop.PagesUntilCeiling | block_tool.py:73-78 | if every search returns a non-empty page and no block request raises, the run makes every search the ceiling allows, blocks every author and ends with LimitReached, not with an error |
| DriveLoop.CursorsDecrease | block_tool.py:88-112 | if the service honours a non-zero `max_id`, each search after one with a non-zero cursor is sent with a strictly smaller cursor |
| DriveLoop.FlattenTrace | block_tool.py:81-129 | a run's trace holds one search call per round with that round's cursor, and the block requests of the rounds in order |
| DriveLoop.SearchCallsOfRun | block_tool.py:72-112 | a run started by the tool sends at most `limit + 1` searches, the first with `max_id` 0, each later one with the cursor the page before it left |
| DriveLoop.TraceThenRound | block_tool.py:81-94 | the calls of the rounds so far followed by one more round are the calls so far followed by that round's search and block requests |
| DriveLoop.RunThenRound | block_tool.py:73-94 | a run split after the rounds so far and again after one more round is the same run |
| DriveLoop.TwoPageScenario | block_tool.py:69-97 | a page with "alice" (id 105) and "bob" (id 102), then an empty page: both are blocked in order, the second search is sent with cursor 101, and the run ends with NoData |
| Tool.BlockTool.constructor | block_tool.py:26-37 | the settings are stored, no search term is prepared yet, and no request has been issued |
| Tool.BlockTool.SetUrlParse | block_tool.py:62-67 | the prepared search term becomes the term of the target word |
| Tool.BlockTool.SearchTweets | block_tool.py:99-116 | one search call with `max_id` set to the cursor, recorded in the trace; its reply is the oracle's answer to that call |
| Tool.BlockTool.BlockRequest | block_tool.py:127-144 | one block request for the name, recorded in the trace; it returns exactly when the oracle lets that request return |
| Tool.BlockTool.BlockUsers | block_tool.py:118-130 | the loop issues the requests of the batch for the list, one per name in list order up to the first that raises, and reports whether the batch completed |
| Tool.BlockTool.ReadPage | block_tool.py:74-91 | the walk over a page collects its authors' screen names in page order and leaves the cursor at the last status's id minus one (unchanged on an empty page) |
| Tool.BlockTool.SearchAndBlock | block_tool.py:74-94 | one pass below the ceiling is the first round of the run from that counter and cursor: its calls are that round's; the run either stops with it or goes on from the cursor it returns |
| Tool.BlockTool.LoopPass | block_tool.py:73-94 | one pass appends its round to the rounds so far, keeping the trace and counters those rounds imply, and either ends the whole run or hands on the run from the next pass |
| Tool.BlockTool.ExecBlockProcess | block_tool.py:69-97 | the loop ends with the outcome of the reference run from counter 0 and cursor 0; the calls it makes are exactly that run's searches and block requests, in order |
| Tool.BlockTool.RunTool | block_tool.py:39-45 | the entry prepares the search term, then makes exactly the calls of the reference run and ends with its outcome |
| Tool.TwoPageRun | block_tool.py:69-97 | a tool built over the two-page oracles ends with NoData after the calls search 0, block alice, block bob, search 101 |

## Left out

- Reading `./config.ini` and building the OAuth1 signer (block_tool.py:47-60) are credential I/O through foreign libraries. `RunTool` does not model `set_auth`.
- The HTTP requests and JSON decoding (block_tool.py:113-114, 142) are network I/O. The two oracles stand for them.
- The URL strings and `urllib.parse.quote_plus` (block_tool.py:67, 111-112, 127-128) are library formatting. The model keeps the search term before encoding. `maximumCount` is stored but takes no part, since the search oracle stands for searches sent with it.
- The `print` messages (block_tool.py:77, 84, 97, 130) are reduced to the outcome tag and the trace of calls.
- A reply whose `statuses` is missing, a status with a missing `user`/`screen_name`/`id` key, or an id that `int()` rejects all raise. In every case the run ends with no block request for that page, so they are all folded into the failed search `FetchFailed`. A `statuses` value that is JSON `null` (which Python treats as "no data") is not modelled.
- The code writes the cursor while it walks the page and the design writes it after the batch. Nothing can observe the difference, because the cursor is read only by the next search.
- The service's own `max_id` semantics and rate limits are not defined by the code. They appear only as the explicit assumption of `DriveLoop.CursorsDecrease`.
- The command-line entry (block_tool.py:147-149) is process I/O.
- Integers are unbounded, as in Python.
