# DEV.to top-posts RSS builder, modelled in Dafny

This project models the pipeline of `devto_top_month_rss.py`, a script that
builds an RSS 2.0 feed of the month's top DEV.to articles and reports which
articles are new since the previous run. The model has six parts:

- **Fetcher** (`fetcher.dfy`, `fetch_json`): one GET per attempt. A 429
  reply sleeps, for the `Retry-After` seconds or `2 ** attempt`, and
  retries, at most `retries + 1` attempts in all. The first reply that is not
  a 429 ends the loop: it either raises its HTTP error or returns its body.
  When every attempt gets a 429, the last 429 is raised.
- **Extractor** (`extractor.dfy`, `extract_paragraphs`): keeps the non-empty
  block texts of the article, at most 20 of them. It tops the list up with the
  summary's description and a placeholder, adds a "read the rest" marker when
  more than 20 non-empty blocks exist, and slices the list to 21.
- **Escaping** (`escaping.dfy`, `html.escape` and `paragraphs_to_html`): the
  five-entity escape and the `<p>…</p>` rendering. The model proves that the
  rendering can be read back and that it never contains the CDATA
  terminator `]]>`.
- **Feed** (`feed.dfy`, `build_rss`): seven channel lines, eight lines per
  item and two closing lines, joined with newlines.
- **Collector, State, Cycle** (`collector.dfy`, `state.dfy`, `cycle.dfy`;
  `collect_items`, `load_state` and `refresh`): one refresh cycle.
  - It normalises the first `limit` summaries, taking each title, link and
    date from the detail object or the summary.
  - It renders the feed and loads the state object, a `{}` when the file is
    missing.
  - It computes the ids not seen last time, then writes `latest_ids` and
    `updated_at` into the state object in place.
- **Config** (`config.dfy`): the command-line checks `main` applies before
  anything runs.

The outside world comes in as parameters:

- The network is the sequence of replies the requests get, plus a function
  from an article id to the outcome of its detail fetch.
- Parsing the article HTML is the list of block texts of the detail object.
- Date formatting is a function parameter.
- The clock is two formatted timestamps.
- The state file is the decoded object, or nothing when the file is missing.

"Sleeping" is the list of delays the fetcher asks for.

Behaviours of the code that the model keeps:

- The state object is updated in place. Keys other than `latest_ids` and
  `updated_at` survive (`State.RecordedKeepsOthers`).
- An item's link is None when the detail stores a null `url`, or when the
  detail has no `url` key and the summary has none or a null one. Its title is None when the
  detail stores a null `title`, or when the detail has no `title` key and
  the summary stores a null there. In each case `build_rss` raises, because
  `html.escape(None)` fails (`Collector.TitleMissing`,
  `Collector.LinkMissing`, `Feed.RenderFails`,
  `Collector.MissingUrlBreaksFeed`).
- After `retries + 1` consecutive 429 replies the fetcher sleeps after the
  last one as well, and then raises that 429 (`Fetcher.FetchExhausted`).
- The server delay is used when `str.isdigit` accepts it. That test also
  accepts digits `int` cannot read; the fetch loop is modelled with the
  corrected test, and the code as written separately (see Findings).

## Model

| member | source | states |
|---|---|---|
| Fetcher.RaiseForStatus | devto_top_month_rss.py:27-29 | a reply that ends the loop fails exactly when its status is 4xx or 5xx, with that status; otherwise its body is returned |
| Fetcher.RetryDelay | devto_top_month_rss.py:31-35 | the corrected delay: an ASCII-decimal `Retry-After` is the delay, otherwise `2 ** attempt`; `RetryAfterHonoured`, `BackoffDoubles` and `PyRetryDelay` state its properties |
| Fetcher.FetchJson | devto_top_month_rss.py:22-41 | the loop's delays, request count and outcome are those of the retry policy `FetchSpec`, which uses the corrected `RetryDelay` |
| Fetcher.FetchRequestBound | devto_top_month_rss.py:24 | with `retries >= 0` between 1 and `retries + 1` requests are sent; with negative retries none, and the fetch fails without a response |
| Fetcher.FetchStopsAtFirstNonRateLimited | devto_top_month_rss.py:24-37 | when replies 0..k-1 are 429s and reply k is not: k+1 requests, one delay per 429 computed from that reply's header and attempt, and reply k decides the outcome |
| Fetcher.FetchExhausted | devto_top_month_rss.py:24-40 | `retries + 1` consecutive 429s: `retries + 1` requests, a delay after every one of them, and failure with HTTP 429 |
| Fetcher.BackoffDoubles | devto_top_month_rss.py:34-35 | without a usable `Retry-After` each delay is twice the previous one |
| Fetcher.RetryAfterHonoured | devto_top_month_rss.py:32-33 | a decimal `Retry-After` ("2", "120") is the delay, whatever the attempt |
| Fetcher.PyRetryDelay | devto_top_month_rss.py:31-35 | the header test as written raises exactly for headers that `isdigit` accepts but that are not ASCII decimal; otherwise it agrees with `RetryDelay` |
| Fetcher.SuperscriptRetryAfterRaises | devto_top_month_rss.py:32-33 | `Retry-After: ²` raises in the code as written, where the corrected delay backs off to `2 ** attempt` |
| Fetcher.PyFetchSpec | devto_top_month_rss.py:22-41 | the loop as written, with `PyRetryDelay`: a ValueError from the header ends the call after that request; `PyFetchAgrees` and `SuperscriptAbortsFetch` state its properties |
| Fetcher.PyFetchAgrees | devto_top_month_rss.py:22-41 | the loop as written (`PyFetchSpec`) and the corrected loop give the same delays, requests and outcome whenever no 429 reply's header makes `int` raise |
| Fetcher.SuperscriptAbortsFetch | devto_top_month_rss.py:31-33 | with one retry, a 429 carrying `Retry-After: ²` followed by a 200: as written the call raises after one request; corrected it sleeps 1 s and returns the body |
| Fetcher.DefaultRetriesMakeFourAttempts | devto_top_month_rss.py:22-41 | with the default three retries, four 429s give four requests, four sleeps and the 429 error |
| Extractor.NonEmpty | devto_top_month_rss.py:48-52 | the kept candidates are no more than the candidates and none is empty |
| Extractor.NonEmptyMembers | devto_top_month_rss.py:48-52 | a text is kept exactly when it is a candidate and is non-empty |
| Extractor.ExtractParagraphs | devto_top_month_rss.py:44-72 | the scanning loop with `continue` and `break` and the three top-up steps compute `Extract` |
| Extractor.ExtractCases | devto_top_month_rss.py:53-72 | the full result for 0, 1, 2..20 and more than 20 non-empty candidates, with and without a truthy fallback |
| Extractor.ExtractBounds | devto_top_month_rss.py:56-72 | the result always has between 1 and 21 entries |
| Extractor.ExtractPrefix | devto_top_month_rss.py:48-54 | the result starts with the first min(20, k) non-empty candidates, in order |
| Extractor.ExtractMarker | devto_top_month_rss.py:62-70 | entry 21 is the "read the rest" marker exactly when more than 20 candidates are non-empty; otherwise there are at most 20 entries |
| Extractor.ExtractFallback | devto_top_month_rss.py:56-60 | what follows the snippets: the fallback when it is truthy and fewer than two snippets exist, then the placeholder while fewer than two entries exist; with two or more snippets only the marker can follow |
| Extractor.ExtractSliceKeepsAll | devto_top_month_rss.py:72 | the list before the final `[:21]` slice has at most 21 entries, so the slice returns it unchanged |
| Extractor.ExtractExamples | devto_top_month_rss.py:44-72 | concrete results: no candidates with and without a fallback, empty candidates with an empty fallback, 25 non-empty candidates |
| Escaping.Escape | devto_top_month_rss.py:76 | escaped text never contains `<`, `>`, `"` or `'`, and is no shorter than the input |
| Escaping.ParagraphsToHtml | devto_top_month_rss.py:75-76 | the fragment is empty exactly when there are no paragraphs, and has at least seven characters per paragraph; `ParseRendered` reads it back |
| Escaping.UnescapeEscape | devto_top_month_rss.py:76 | escaping loses nothing: decoding the five entities gives the original text back |
| Escaping.ParagraphsToHtmlAppend | devto_top_month_rss.py:75-76 | rendering distributes over concatenation of paragraph lists |
| Escaping.ParseRendered | devto_top_month_rss.py:75-76 | reading the rendered `<p>…</p>` fragment back gives exactly the paragraphs rendered |
| Escaping.RenderedHasNoCdataEnd | devto_top_month_rss.py:99-101 | the rendered fragment never contains `]]>`, so it can stand inside the item's CDATA sections |
| Feed.Header | devto_top_month_rss.py:81-89 | the channel part has seven lines; `ChannelTextsUnchanged` shows that writing the channel texts unescaped is the same as escaping them |
| Escaping.EscapePlain | devto_top_month_rss.py:85-87 | escaping leaves text without `&`, `<`, `>`, `"` and `'` unchanged |
| Feed.ChannelTextsUnchanged | devto_top_month_rss.py:85-87 | `html.escape` leaves the feed's title, link and description unchanged |
| Feed.Footer | devto_top_month_rss.py:105-106 | the closing part has two lines |
| Feed.ItemBlock | devto_top_month_rss.py:92-103 | each item contributes eight lines |
| Feed.BuildRss | devto_top_month_rss.py:79-108 | the loop's result is `RenderFeed`: the joined lines, or an error at the first item without a title or link |
| Feed.FeedLinesFrame | devto_top_month_rss.py:81-106 | the document has 7 + 8n + 2 lines, starting with the channel lines and ending with the two closing lines |
| Feed.FeedLineOfItem | devto_top_month_rss.py:91-103 | line j of item k's block is line 7 + 8k + j of the document: items appear in order, one block each |
| Feed.FeedShape | devto_top_month_rss.py:81-106 | 7 + 8n + 2 lines: the header first, the footer last, and item k's eight lines at 7 + 8k in order (escaped title, escaped link twice, date and content verbatim, content in CDATA) |
| Feed.EmptyFeed | devto_top_month_rss.py:79-108 | with no items the lines are exactly the header followed by the footer (nine lines), and rendering succeeds with their join |
| Feed.RenderFails | devto_top_month_rss.py:93-96 | rendering fails exactly when some item lacks a title or a link |
| Feed.SplitJoin | devto_top_month_rss.py:108 | when no line holds a newline, splitting the joined document at newlines gives back its lines |
| Collector.SliceTo | devto_top_month_rss.py:131 | `top[:limit]` is a prefix, of length min(limit, n) for `limit >= 0` and n + limit (at least 0) for a negative limit |
| Collector.CollectItems | devto_top_month_rss.py:124-156 | the loop returns `Collected`: a failure of the top fetch, an empty top list, the first failing summary, or the normalised items |
| Collector.CollectedErrors | devto_top_month_rss.py:126-128 | a failed top-list fetch raises that failure; an empty top list raises "no articles" |
| Collector.CollectedItems | devto_top_month_rss.py:130-156 | on success one item per summary of `top[:limit]`, in order, each with its summary's id and the title, link, date and content built from that summary and its detail |
| Collector.CollectedFirstError | devto_top_month_rss.py:131-134 | on failure the error is that of the first chosen summary without an id or whose detail fetch failed, and every summary before it succeeded |
| Collector.ItemTitle | devto_top_month_rss.py:149 | the title chain `detail.get("title", article.get("title", "Untitled"))`; `TitleMissing` states when it is absent |
| Collector.ItemLink | devto_top_month_rss.py:150 | the link chain `detail.get("url", article.get("url"))`; `LinkMissing` states when it is absent |
| Collector.TitleMissing | devto_top_month_rss.py:149 | the title is absent exactly when a null is stored where the lookup stops; with no title anywhere it is "Untitled" |
| Collector.LinkMissing | devto_top_month_rss.py:150 | the link is absent exactly when the detail stores a null url, or has none and the summary has no non-null url |
| Collector.Published | devto_top_month_rss.py:139 | `published_at` when it is truthy, otherwise `created_at`; `PubDateChoice` states the cases |
| Collector.PubDate | devto_top_month_rss.py:139-144 | the formatted timestamp, or the current time when there is none; `PubDateChoice` states the cases |
| Collector.PubDateChoice | devto_top_month_rss.py:139-144 | the date is the formatted `published_at` when truthy, else the formatted `created_at` when truthy, else the current time |
| Collector.ContentIsSafe | devto_top_month_rss.py:136-137 | every item's content renders 1 to 21 snippets, reads back as exactly those snippets, and is safe inside CDATA |
| Collector.MissingUrlBreaksFeed | devto_top_month_rss.py:150 | an item whose summary and detail both lack a url makes the feed renderer fail |
| State.StateDict.Load | devto_top_month_rss.py:111-116 | the loaded entries are the file's object, or empty when the file is missing |
| State.StateDict.Record | devto_top_month_rss.py:257-258 | the entries become the old entries with `latest_ids` and `updated_at` rewritten |
| State.PreviousIds | devto_top_month_rss.py:253 | every id of a stored `latest_ids` list is in the previous set; without such a list the set is empty; `PreviousIdsMembers` states the converse |
| State.PreviousIdsMembers | devto_top_month_rss.py:253 | an id is in the previous set exactly when the stored `latest_ids` list holds it |
| State.NewIds | devto_top_month_rss.py:255 | the new ids are at most the current ids, each of them current and not previously seen |
| State.NewIdsMembers | devto_top_month_rss.py:255 | an id is new exactly when it is current and was not in the previous set |
| State.NewIdsAppend | devto_top_month_rss.py:255 | new-id detection keeps current order: it distributes over concatenation |
| State.AllNewWhenNothingSeen | devto_top_month_rss.py:255 | against an empty previous set every current id is new, in order |
| State.MissingFileSeesNothing | devto_top_month_rss.py:252-255 | with a missing state file every current id is reported new |
| State.RecordedKeepsOthers | devto_top_month_rss.py:257-258 | recording adds or rewrites the two keys and keeps every other entry |
| State.RecordedPrevious | devto_top_month_rss.py:253-257 | after recording, the previous-id set is exactly the recorded ids |
| State.TwoCycles | devto_top_month_rss.py:252-258 | ids 1, 2, 3 followed by 2, 3, 4 report only 4 as new |
| Cycle.IdsOf | devto_top_month_rss.py:254 | the current ids are the items' ids, in order |
| Cycle.Refresh | devto_top_month_rss.py:248-265 | a collection or render failure returns that error and writes nothing; otherwise the cycle returns the rendered feed, the recorded state, the new ids and the item count |
| Cycle.CycleState | devto_top_month_rss.py:252-258 | after a cycle `latest_ids` holds the items' ids, other keys survive, and an id is new exactly when it is an item's id not in the old `latest_ids` |
| Cycle.NextCycleSeesThisOne | devto_top_month_rss.py:253-257 | the next cycle's previous-id set is this cycle's item ids |
| Config.Validate | devto_top_month_rss.py:230-238 | accepted exactly when limit, both intervals and port are positive and min <= max; each error is reported exactly when the earlier checks pass and its own fails |
| Config.DefaultsAreValid | devto_top_month_rss.py:178-227 | the default limit, intervals and port pass the checks |

## Left out

- The network, timeouts and the HTTP session with its headers are not modelled. Replies are given as a sequence, and detail fetches as a function of the article id.
- The URL templates are not modelled, because formatting an id into a URL has no effect the model could observe.
- JSON decoding of response bodies is not modelled; a body that is not JSON raises in the source. JSON values are restricted to strings and null.
- Fetcher.FetchJson uses the corrected `RetryDelay`, so the method never raises the ValueError of the code as written. That behaviour is modelled by the function `PyFetchSpec` only, not by a method.
- Fetcher.FetchJson: the random jitter added to each sleep is not modelled, and the sleep itself only records its delay, because randomness and time are outside the model.
- Fetcher.FetchJson requires that the reply sequence covers every attempt (`retries < |replies|`). The model needs one reply for every attempt the loop may make, because it cannot know in advance at which attempt the loop stops.
- Fetcher.FetchJson does not model `Retry-After` text outside ISO-8859-1, because HTTP headers are decoded that way. Python's `int` whitespace tolerance is not modelled either, because `isdigit` rejects whitespace before `int` runs.
- Extractor.ExtractParagraphs receives the stripped, space-joined texts of the `p`, `blockquote` and `li` nodes. The HTML parser is a foreign library.
- Collector.CollectItems treats date parsing and RFC 2822 formatting (`fromisoformat`, `format_datetime`) as the parameter `format`. A timestamp that fails to parse raises in the source and is not modelled.
- Collector.CollectItems does not model a summary that is not an object or a top list that is not a list; the source raises on both.
- The clock is two timestamps per cycle in the model: `now` (RFC 2822) serves both `collect_items` and `build_rss`, and `isoNow` serves `updated_at`. The source reads the clock separately in `collect_items`, in `build_rss` and for `updated_at`.
- Collector.CollectItems takes detail fetches as a function of the id, so two chosen summaries with the same id get the same detail outcome. The source fetches the detail once per summary, and two such fetches could get different replies.
- File I/O is not modelled: `save_state`, `write_feed`, JSON pretty-printing and a malformed state file. Cycle.Refresh returns what would be written.
- State.PreviousIds treats a `latest_ids` value that is not a list of ids as no previous ids. In the source a string gives its characters, an object gives its keys, and null, a number or a boolean raises TypeError.
- The daemon loop, the randomized pause between cycles, the HTTP file server and its thread, `argparse` parsing and the printed messages are not modelled. They are I/O and concurrency with no logic of their own.

## Findings

| source | as written | input that shows it | evidently intended | confidence | as-written member | corrected member |
|---|---|---|---|---|---|---|
| devto_top_month_rss.py:32-33 | `retry_after.isdigit()` guards `int(retry_after)` | a 429 with header `Retry-After: ²` (Latin-1 superscript two): `isdigit` is true, `int` raises ValueError, and the fetch aborts instead of backing off | use the header only when it is ASCII decimal, otherwise back off by `2 ** attempt` | not executed | Fetcher.PyRetryDelay, Fetcher.PyFetchSpec, Fetcher.SuperscriptRetryAfterRaises, Fetcher.SuperscriptAbortsFetch | Fetcher.RetryDelay |
