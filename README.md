# Scholar watcher: the deduplicate-then-notify cycle in Dafny

`scholar_watcher.py` runs a periodic cycle. For every registered keyword it
searches Google Scholar and fingerprints each result. It then tries to insert a
`(keyword, fingerprint)` row into the SQLite `seen_papers` table. If the insert
succeeds, the result is new and goes to a Discord webhook. If the webhook
fails, the row is deleted again and the error ends that keyword's turn. Any
error for one keyword is caught, and the cycle moves on to the next one.
Users register keywords with `add_keyword` and remove them, with all their
seen rows, with `delete_keyword`.

This project models that core and proves what it promises.

- `text.dfy`, module `Text`: the string primitives the code relies on.
  These are Python's `str.strip()` (the full `str.isspace` set),
  `str.split(sep)` and its inverse `sep.join`, and the order in which SQLite's
  BINARY collation sorts `ORDER BY term ASC` (code-point lexicographic). It
  proves that this order is a total order, that `Ascending` lists every finite
  set once in strictly ascending order, and that it is the only sequence that
  does (`AscendingUnique`), so it is what the query returns.
- `fingerprint.dfy`, module `Fingerprints`: `_fingerprint`. The four fields are
  trimmed and joined with `|` exactly as written. SHA-256 is a parameter
  `digest` about which nothing is assumed.
- `cycle.dfy`, module `Cycle`: `process_keyword` and `run_cycle` as functions
  on values (`ProcessRows`, `KeywordStep`, `CycleOver`), with the lemmas
  about them.
  - The `seen_papers` table is a map from its unique key
    `(kw_term, fingerprint)` to the stored result.
  - An `Env` supplies the fingerprint function, the search (`Fetched(rows)` or
    `FetchFailed`) and the notifier outcome for each (keyword, result).
  - `ProcessFresh` and `CycleFresh` prove that the notifier is never asked
    twice for the same key within one cycle. Giving its outcome as a function
    therefore loses nothing.
- `store.dfy`, module `Store`: both tables as a value `Tables`, with one
  function per statement (`Inserted`, `Added`, `Deleted`, `Forget`,
  `Preloaded`).
  - Class `Database` holds the same state in fields. Its methods run
    `add_keyword`, `delete_keyword`, the start-up preload, the keyword
    snapshot, `process_keyword` and `run_cycle` in place, with loops.
  - Each method is proved equal to the function that specifies it.
- `discord.dfy`, module `Discord`: the message `send_to_discord` builds, with
  its "Untitled" / "Year n/a" / "Unknown authors" defaults. A notification
  fails when no webhook URL is set, and otherwise succeeds exactly when the
  POST does (a parameter).
- `config.dfy`, module `Config`: how the `KEYWORDS` setting is parsed into
  `DEFAULT_KEYWORDS`, and the clamp applied to the RSS `limit`.

Points where the code does not do what one might expect of it; the model
follows the code in each case:

- The fingerprint does not identify a result's content. A `|` inside a field
  lets two different results share the joined string, and with it the
  fingerprint under every hash (`Fingerprints.BarInFieldCollides`). The second
  such result is treated as already seen. Without a `|` in the trimmed title,
  authors and year, only the hash can make two results collide
  (`Fingerprints.BaseInjectiveWithoutBars`).
- When a notification fails, the keyword's earlier insertions stay committed
  and were notified. The keyword still adds 0 to `total_new`, so
  `run_cycle`'s total can be smaller than the number of notifications it
  made (`Cycle.ProcessStore`, `Cycle.CycleCounts`).
- Nothing in the code stops a scheduled cycle and a `/run-now` cycle from
  overlapping. The model covers one cycle at a time.

## Model

| member | source | states |
|---|---|---|
| Text.StripCharacterization | scholar_watcher.py:129 | `strip()` removes exactly the leading and trailing whitespace: for any cut of the string into whitespace, a middle with non-space ends and whitespace, the result is the middle |
| Text.StripPadding | scholar_watcher.py:129 | whitespace added on either side of a field does not change what `strip()` returns |
| Text.Ascending | scholar_watcher.py:218 | `ORDER BY term ASC` lists every term of the set exactly once, strictly ascending in code-point order |
| Text.AscendingUnique | scholar_watcher.py:218 | any sequence holding exactly the set's terms in strictly ascending order is `Ascending` of the set: the listing the query returns is determined |
| Fingerprints.SameTrimmedFieldsSameFingerprint | scholar_watcher.py:128-130 | results that agree once their four fields are trimmed get the same fingerprint, for any hash |
| Fingerprints.FingerprintIgnoresPadding | scholar_watcher.py:128-130 | leading and trailing whitespace added to any field leaves the fingerprint unchanged |
| Fingerprints.FingerprintOfTrimmed | scholar_watcher.py:128-130 | fingerprinting the trimmed result gives the same value as fingerprinting the raw one |
| Fingerprints.BaseInjectiveWithoutBars | scholar_watcher.py:129 | when the trimmed title, authors and year hold no bar character, equal joined strings mean equal trimmed fields |
| Fingerprints.BarInFieldCollides | scholar_watcher.py:129 | two different results, differing only in which field holds the text between two bars, get the same fingerprint under every hash |
| Cycle.ProcessCalls | scholar_watcher.py:183-212 | notifications are made only for fetched results of the keyword; on completion `new_count` is the number of notifications and all succeeded; on a raise it is a notify error on the last call and every earlier call succeeded |
| Cycle.ProcessCallsInOrder | scholar_watcher.py:183-203 | the notifications follow the fetch order: each is for the result at a position of the fetch, and these positions strictly increase |
| Cycle.ProcessStore | scholar_watcher.py:183-211 | the seen table only grows; the rows added are exactly the keys whose notification succeeded, each holding the notified result |
| Cycle.ProcessFresh | scholar_watcher.py:183-210 | no key is notified twice in one fetch, nor one already stored |
| Cycle.PaddedCopyNotifiedOnce | scholar_watcher.py:128-130 | with the watcher's own fingerprint, a result and a copy with whitespace around its fields share a key, so one keyword's loop notifies at most one of them |
| Cycle.ProcessCount | scholar_watcher.py:202-208 | a completed keyword adds exactly `new_count` rows; after a notify error the failed result's key is not in the table |
| Cycle.SeenCandidateIgnored | scholar_watcher.py:185-211 | a fetched result whose (keyword, fingerprint) is already stored changes neither the table, the notifications nor the count, wherever it stands in the fetch |
| Cycle.FailureAbortsRest | scholar_watcher.py:202-207 | once a notify error is raised, the results after it in the fetch are never looked at |
| Cycle.ProcessScoped | scholar_watcher.py:179-212 | deduplication is per keyword: a keyword's run depends only on the stored rows of that keyword |
| Cycle.AllSeenIsQuiet | scholar_watcher.py:209-211 | when every fetched result is already stored, nothing is notified, stored or counted |
| Cycle.CompletedCoversRows | scholar_watcher.py:183-211 | after a completed run every fetched result has a row for the keyword |
| Cycle.ReplayFindsNothing | scholar_watcher.py:179-212 | fetching the same results again after a completed run finds nothing new |
| Cycle.KeywordStepEffect | scholar_watcher.py:179-212 | `process_keyword` with its fetch: the table only grows, by exactly the keys whose notification succeeded; every notification and new row is for this keyword; no key is notified twice; on completion `new_count` is the number of notifications, all successful |
| Cycle.KeywordStepOthersUntouched | scholar_watcher.py:186-206 | one keyword's run leaves every other keyword's rows as they were |
| Cycle.KeywordStepScoped | scholar_watcher.py:179-212 | how `process_keyword` ends depends only on the keyword's own stored rows |
| Cycle.CycleCounts | scholar_watcher.py:215-230 | there is one outcome per snapshot keyword, and `total_new` is the sum of `new_count` over the keywords that completed; one that raised adds 0 |
| Cycle.CycleStore | scholar_watcher.py:215-230 | across a cycle the seen table only grows; the rows added are exactly those whose notification succeeded; every notification and new row is for a snapshot keyword |
| Cycle.CycleFresh | scholar_watcher.py:215-227 | with distinct keywords no key is notified twice in a cycle, nor one stored before it |
| Cycle.CycleEffect | scholar_watcher.py:215-230 | the count, store and freshness facts of a cycle together |
| Cycle.FailedDeliveryNotRecorded | scholar_watcher.py:202-207 | a result whose notification failed has no row after the cycle, so it is retried next cycle |
| Cycle.CycleIsolation | scholar_watcher.py:220-227 | each keyword ends exactly as it would alone against the starting table, whatever the other keywords did (errors included) |
| Cycle.CycleTotalIsolated | scholar_watcher.py:220-227 | `total_new` equals the sum of what each keyword would contribute on its own |
| Cycle.NoDeliveryNoChange | scholar_watcher.py:202-207 | when every notification fails, a cycle leaves the table unchanged and reports 0 |
| Config.KeepTrimmed | scholar_watcher.py:69 | keeps at most one entry per piece, each one trimmed and non-empty |
| Config.KeepTrimmedMembers | scholar_watcher.py:69 | a string is kept exactly when it is non-empty and equals some piece once stripped |
| Config.ParseKeywords | scholar_watcher.py:67-71 | `DEFAULT_KEYWORDS` holds exactly the non-empty stripped comma-separated pieces of `KEYWORDS`, none empty, untrimmed or holding a comma |
| Config.ParseJoinedKeywords | scholar_watcher.py:67-71 | a list of trimmed comma-free keywords joined with commas parses back to that list |
| Config.KeepTrimmedIgnoresPadding | scholar_watcher.py:69 | whitespace added before and after any of the pieces leaves the kept keywords unchanged |
| Config.KeepTrimmedSkipsBlank | scholar_watcher.py:69 | a piece that is empty or only whitespace, wherever it stands, adds no keyword |
| Config.ParseIsKeepTrimmed | scholar_watcher.py:67-71 | the unset or empty setting yields nothing, as its single empty piece would |
| Config.ParseIgnoresPadding | scholar_watcher.py:67-71 | a `KEYWORDS` setting parses to the same list whatever whitespace surrounds each entry, for any number of entries |
| Config.ParseSkipsBlank | scholar_watcher.py:67-71 | an empty or whitespace-only entry anywhere in `KEYWORDS` adds no keyword and leaves the list unchanged |
| Config.ParseIgnoresPaddingAndBlanks | scholar_watcher.py:69 | example: `a`, blank padding, two commas, the same padding and `b` parse to exactly `[a, b]` |
| Config.ClampFeedLimit | scholar_watcher.py:391 | the RSS limit lies in 1..1000, is kept when already in range, and becomes 1 below and 1000 above |
| Discord.MessageLines | scholar_watcher.py:159-169 | when no field holds a line break, the message is exactly four lines: keyword header, title (or "Untitled") with year (or "Year n/a"), authors (or "Unknown authors"), url |
| Discord.MessageDefaults | scholar_watcher.py:159-169 | a result with no title, year or authors is announced as `**Untitled** (Year n/a)` and `*Unknown authors*` |
| Discord.MessageKeepsFields | scholar_watcher.py:159-169 | a result whose title, year and authors are present is announced with them as given |
| Discord.MissingWebhookChangesNothing | scholar_watcher.py:156-157 | with no webhook URL every insert is rolled back: a cycle leaves the table unchanged and reports 0 |
| Store.Empty | scholar_watcher.py:94-119 | the fresh database is consistent, with no keywords and no seen rows |
| Store.Inserted | scholar_watcher.py:338-343 | inserting a term registers it under a fresh id, keeps every existing row and the seen table, changes nothing for a duplicate, and keeps the table consistent |
| Store.Added | scholar_watcher.py:333-343 | `add_keyword` registers the stripped term; an empty or duplicate term changes nothing; the seen table is untouched; consistency is kept |
| Store.Forget | scholar_watcher.py:355 | the cascade keeps exactly the seen rows of other terms, unchanged |
| Store.Deleted | scholar_watcher.py:348-355 | an unknown id changes nothing; a known id removes that keyword and every seen row of its term, and nothing else |
| Store.Preloaded | scholar_watcher.py:463-473 | the preload never touches the seen table |
| Store.PreloadedTerms | scholar_watcher.py:463-473 | after the preload the registered terms are the earlier ones plus every preloaded term, and the table stays consistent |
| Store.PreloadRegisteredNoop | scholar_watcher.py:466-473 | preloading terms that are all registered changes nothing |
| Store.PreloadOnce | scholar_watcher.py:462-473 | running the start-up preload a second time with the same setting changes nothing |
| Store.AddIdempotent | scholar_watcher.py:333-343 | adding a keyword twice is the same as adding it once |
| Store.CycleOnDatabase | scholar_watcher.py:215-230 | on any database the snapshot lists each keyword once in ascending order, and the cycle's count, growth, notification-before-record and no-duplicate-notification facts hold |
| Store.DeleteThenAddForgets | scholar_watcher.py:347-356 | after deleting a keyword and adding it again, its next run notifies and counts exactly what it would on an empty seen table |
| Store.DeleteReAddScenario | scholar_watcher.py:347-356 | one keyword and one accepted result: the first cycle reports 1, the second 0, and after delete and re-add the third reports 1 again |
| Store.Database.constructor | scholar_watcher.py:94-119 | a new database is valid and empty |
| Store.Database.InsertKeyword | scholar_watcher.py:338-343 | the in-place insert equals `Inserted` and keeps the invariant |
| Store.Database.AddKeyword | scholar_watcher.py:332-344 | the in-place `add_keyword` equals `Added` and keeps the invariant |
| Store.Database.DeleteKeyword | scholar_watcher.py:347-356 | the in-place `delete_keyword` equals `Deleted` and keeps the invariant |
| Store.Database.Preload | scholar_watcher.py:463-473 | the start-up loop over `DEFAULT_KEYWORDS` equals `Preloaded` of the parsed setting and keeps the invariant |
| Store.Database.Snapshot | scholar_watcher.py:217-219 | the snapshot is the registered terms in strictly ascending order, each once |
| Store.Database.ProcessKeyword | scholar_watcher.py:179-212 | the in-place insert / notify / delete-and-raise loop leaves the seen table, the outcome and the notifications equal to `KeywordStep` |
| Store.Database.RunCycle | scholar_watcher.py:215-230 | the in-place cycle over the snapshot equals `CycleOver` on the ascending keyword list: same table, total, outcomes and notifications; the keywords table is untouched |
| Store.Database.RunTerms | scholar_watcher.py:220-230 | the keyword loop, run in place over a given list, equals `CycleOver` on that list: same table, total, outcomes and notifications |

## Left out

- SHA-256 and its hex rendering are the parameter `digest`. The fingerprint is not assumed injective.
- The Scholar search (`fetch_scholar_results`, with its mapping of `pub.bib` and its `PER_KEYWORD_LIMIT` cap) is an input. The model receives the already-capped list of results, or an error.
- The Discord HTTP POST is the parameter `post`. Timeouts and status codes are folded into its boolean answer.
- SQLite plumbing is not modelled: connections, WAL mode, commit-in-finally and the schema DDL. Database errors other than the uniqueness conflict are assumed not to happen. A failure of the rollback DELETE is therefore not modelled.
- The `created_at` and `first_seen` timestamps, the one-second pause between keywords, and the log output do not affect the tables' keys or the counts.
- The FastAPI pages are not modelled: the index page, `/health`, `/status` and the HTML. `/run-now` only calls `run_cycle`.
- RSS: only the `limit` clamp is modelled. The queries ordered by `first_seen` and the XML serialisation depend on clock values and on HTML escaping.
- The scheduler is not modelled, and neither is any overlap between a scheduled and an on-demand cycle, which is concurrency.
- The notifier's outcome is a fixed function `Env.notify` of (keyword, result) for the cycle being modelled. This is exact because no key is notified twice within a cycle (Cycle.CycleFresh). Across cycles the outcome can change, by passing a different `Env`.
- Discord.Notifier: the POST outcome is a function of (webhook, message text) only, so two different results that render the same text (an empty title and the title "Untitled", say) get the same outcome within a cycle. No lemma depends on this; `MissingWebhookChangesNothing` holds for every `post`.
- The cycle lemmas in module Cycle hold for any fingerprint function. Only `PaddedCopyNotifiedOnce` instantiates it with `Fingerprint` and a digest.
