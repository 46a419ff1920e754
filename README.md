# nhentai downloader: a verified model of its core

The nhentai downloader is a browser extension. It downloads galleries (multi-page image sets) page by page and packs them into zip files. This project models its core in Dafny and proves properties of the model:

- **Retry loop** (`utils/retry.js`, module `Retry`). `fetch` with retries, exponential backoff with jitter, the server's `Retry-After` hint in seconds, and the friendly error messages. `fetch`, `Math.random` and `delay` become oracles and a trace of waits.
- **Service worker copy** (`background.js`, module `Background`). Its own retry loop, which differs from the utility's in two places. The `saveSettings` merge and the `getDownloadedIds` list of its message handler.
- **History and settings** (`utils/storage.js`, module `Storage`). The history upsert, trimmed to 100 entries; the history queries; the layered settings merges. Storage reads are parameters and writes are results.
- **Download queue** (`utils/queue.js`, module `Queue`). The `DownloadQueue` class, with its `items` map, its `order` array and a ghost log of the events it announces. `Date.now` is a parameter.
- **Content script** (`content.js`, module `Content`). The selection set; the per-gallery download loop with windows of five pages, the cancel flag and the error cases; the folder and file naming; the loop over the selected galleries.

Supporting modules:
- `Wrappers`: `Option` and `Result`.
- `SeqSet`: sequences used as insertion-ordered sets, the way a JavaScript `Set` or the queue's `order` array behaves.
- `JsText`: the few JavaScript string built-ins the code relies on (`String(n)`, `parseInt`, `includes`, `padStart`, `substring` and `slice`, `Math.min`).

A JavaScript object (a history entry, the settings) is a `map<string, Value>`, and a property that is not there is `undefined`. The `||` operator is modelled with JavaScript truthiness: `""`, `0`, `null` and `undefined` are falsy.

There is no component that drains the queue. `DownloadQueue` is not used by the content script; the batch driver is `downloadSelected` in `content.js`, which keeps only two counters. Some consequences of the code as it stands:
- `retryCount` is raised by `fail`; `retry` keeps it.
- A cancel seen before a window throws `'Cancelled'`. The gallery is then counted as a failure, though its pages written so far stay in the zip folder.
- The fallback backoff is `min(base * 2^attempt + jitter, 30000)`, so it can be below `base * 2^attempt`.

## Model

| member | source | states |
|---|---|---|
| JsText.NatToString | content.js:331 | `String(n)` is the digits of `n` without leading zeros, and they read back as `n` |
| JsText.NatToStringInjective | content.js:331 | two numbers with the same decimal rendering are equal |
| JsText.ParseIntReadsDigitPrefix | utils/retry.js:133 | `parseInt` of a number's digits followed by a non-digit (or nothing) gives that number, e.g. `"5abc"` gives 5 |
| JsText.ParseIntNegative | utils/retry.js:133 | `parseInt("-" + digits)` gives the negated number |
| JsText.ParseIntRejectsNonNumeric | utils/retry.js:133-134 | text that starts with a character other than white space, a sign or a digit is NaN |
| JsText.PadStart | content.js:331 | the result has length the larger of n and the length of `s`, ends with `s` and is filled with the pad character in front |
| JsText.Truncate | content.js:316 | `substring(0, n)`, and the history's `slice(0, n)` (utils/storage.js:65), keep the prefix of length n, or all of `s` when it is shorter |
| Retry.ErrorMessage | utils/retry.js:15-23 | the table knows exactly the statuses 0, 403, 404, 429, 500, 502 and 503, and none of its texts is empty |
| Retry.FriendlyMessage | utils/retry.js:30-41 | the message is never empty; a status in the table gives its table text, one missing from it gives `"HTTP 錯誤 <status>"`; an empty network error message gives `"未知錯誤"` |
| Retry.ConnectivityFailureMapped | utils/retry.js:34-39 | a network error message with `Failed to fetch` or `NetworkError` anywhere in it gives the status-0 text |
| JsText.ContainsInfix | utils/retry.js:34-39 | `includes` finds a substring wherever it sits |
| Retry.UnmappedStatusIsRecoverable | utils/retry.js:32 | for an unmapped status the status can be parsed back out of the message |
| Retry.NetworkMessageKept | utils/retry.js:34-40 | a non-empty network error message that names neither connectivity failure is returned unchanged |
| Retry.CalculateBackoff | utils/retry.js:128-144 | a parsable `Retry-After` gives exactly seconds * 1000; otherwise the delay lies between min(base * 2^attempt, 30000) and 30000 |
| Retry.BackoffWithinJitterWindow | utils/retry.js:140-143 | without a hint the delay is below base * 2^attempt + 500 and at least min(base * 2^attempt, 30000) |
| Retry.RetryAfterSeconds | utils/retry.js:130-136 | a header of n whole seconds, alone or followed by text that does not start with a digit (`5`, `5abc`), waits exactly n * 1000 ms whatever the attempt and jitter |
| Retry.RetryAfterNegative | utils/retry.js:130-136 | a header `-n` gives the negative delay -n * 1000 ms |
| Retry.RetryAfterDateFallsBack | utils/retry.js:130-143 | the HTTP-date form of the header falls back to the exponential branch |
| Retry.FetchWithRetry | utils/retry.js:54-119 | at most maxRetries + 1 calls. The first ok or non-retryable response is returned at once. One wait and one `onRetry` notice (attempt + 1, status or 0, delay, friendly message) follow each failed attempt except the last. When every attempt fails, it throws `"HTTP <status>: <friendly>"` for a response or rethrows the network error |
| Retry.ThreeUnavailableThenOk | utils/retry.js:54-119 | three 503s then a 200 under the defaults: four calls, the 200, waits in [1000,1500), [2000,2500), [4000,4500) |
| Retry.AlwaysRateLimited | utils/retry.js:115-116 | 429 on every call under the defaults: four calls, then `"HTTP 429: <rate-limit message>"` |
| Background.NetworkWaitsCompared | background.js:51-75 | waits after a response equal the utility's; after a network error they are equal below the 30000 ms ceiling and larger above it |
| Background.NetworkWait | background.js:72-75 | the wait after a network error is at least base * 2^attempt, below base * 2^attempt + 500, and has no 30000 ms ceiling |
| Background.SixthNetworkWaitPassesCeiling | background.js:72-75 | with a one-second base, the network wait after attempt 5 exceeds 30000 ms |
| Background.FetchWithRetry | background.js:32-84 | the same call bound, early return and final throw as the utility; each wait is the `Retry-After` seconds * 1000 or the capped backoff after a response, and the uncapped base * 2^attempt + jitter after a network error |
| Background.SaveSettings | background.js:169-177 | the merged value stored is the one the utility's `saveSettings` stores |
| Background.DownloadedIds | background.js:200-207 | the galleryIds of the history in history order, `undefined` for an entry without one, empty with no history |
| Background.IdsOf | background.js:203 | `history.map(h => h.galleryId)` entry by entry |
| Background.DownloadedIdsAreDownloaded | background.js:200-207 | every id listed is one that `isDownloaded` reports |
| Storage.BumpCount | utils/storage.js:53 | the bumped download count: a missing or falsy count gives 2, a non-zero number grows by one, a non-empty string gets `"1"` appended, `true` gives 2 |
| Storage.MergedKeepsId | utils/storage.js:49-54 | the merged entry keeps the galleryId it was found by |
| Storage.AddHistoryRecord | utils/storage.js:42-70 | a new galleryId goes to the front with count 1; an existing one is merged in place at its first index; the result is cut to 100; the record's id is present when the history had at most 100 entries; no duplicate id is introduced |
| Storage.IsDownloaded | utils/storage.js:77-80 | true exactly when some entry has that galleryId |
| Storage.HistoryIdSet | utils/storage.js:89 | the set of galleryIds of the history |
| Storage.GetDownloadedIds | utils/storage.js:87-91 | exactly the given ids that `isDownloaded` reports |
| Storage.RemoveHistoryRecord | utils/storage.js:97-99 | no entry with that galleryId is left, every other entry stays, nothing is added |
| Storage.RemoveHistoryRecordKeepsOrder | utils/storage.js:97-99 | the filter distributes over concatenation, so the survivors keep their order |
| Storage.RemoveAbsentIsIdentity | utils/storage.js:97-99 | removing an id that is not there leaves the history unchanged |
| Storage.GetSettings | utils/storage.js:130-136 | stored keys win over the defaults; default keys not stored keep their default |
| Storage.SaveSettings | utils/storage.js:142-149 | the given keys are set; other keys keep their current value |
| Storage.ResetSettings | utils/storage.js:154-158 | the value written by a reset holds exactly the default keys, and reads back like settings never saved |
| Storage.GetDefaultSettings | utils/storage.js:164-166 | the copy equals the defaults key by key, and equals what `getSettings` reads with nothing stored |
| Storage.SavedSettingsReadBack | utils/storage.js:130-149 | reading right after a save gives what was saved |
| Storage.SaveSettingsIdempotent | utils/storage.js:142-149 | saving the same settings twice equals saving them once |
| Storage.ResetReadsDefaults | utils/storage.js:130-166 | after `resetSettings`, or with nothing stored, `getSettings` equals `getDefaultSettings` |
| Queue.ApplyPatch | utils/queue.js:84-98 | `update` never changes an item's id, title or addedAt |
| Queue.RoundPercent | utils/queue.js:110 | the result is within half a step of 100 * current / total, lies in 0..100 when 0 <= current <= total, and is 100 when current == total |
| Queue.PercentRange | utils/queue.js:110 | the integer within half a step of 100 * current / total has those bounds |
| Queue.StartedAtStampedOnce | utils/queue.js:89-91 | `startDownload` stamps `startedAt` on the first move to downloading and keeps it on later ones |
| Queue.CompletedAtStamped | utils/queue.js:92-94 | `completedAt` is stamped exactly when the update moves the item to completed or failed |
| Queue.CompleteForcesProgress | utils/queue.js:127-133 | `complete` sets progress 100 and status completed unless `meta` sets them, and keeps `meta`'s fileSize |
| Queue.FailBumpsRetryCount | utils/queue.js:140-149 | `fail` sets failed, stores the error, stamps completedAt and raises retryCount by exactly one |
| Queue.RetryResets | utils/queue.js:176-181 | a retried item is pending with no error, progress 0 and page 0, its retryCount and time stamps kept |
| Queue.ProgressWithinBounds | utils/queue.js:106-112 | a progress update keeps progress in 0..100 and records the page and the total, changing neither status nor startedAt |
| Queue.CancelAllSweep | utils/queue.js:159-164 | `cancel()` cancels every pending or downloading item and leaves every other item as it was |
| Queue.RetryAllResetsEveryFailed | utils/queue.js:184-188 | a retry of all resets every failed item to pending with its retryCount kept and leaves the others as they were |
| Queue.CompletedIdsExactly | utils/queue.js:243-248 | the collected ids are exactly the completed ones, without duplicates |
| Queue.DroppedCompleted | utils/queue.js:242-250 | removing the collected ids drops exactly the completed items |
| Queue.Lookup | utils/queue.js:211 | `order.map(items.get).filter(Boolean)` lists each known item of the order, and when every id is known it is the items in order |
| Queue.WithStatusExactly | utils/queue.js:220 | the filter keeps exactly the items with that status |
| Queue.WithStatusAppend | utils/queue.js:220 | the filter distributes over concatenation, so the kept items stay in their order |
| Queue.LookupStatusCount | utils/queue.js:210-237 | over distinct known ids, the filtered lookup lists one item per id with that status |
| Queue.StatusCountsSum | utils/queue.js:227-237 | the five per-status counts add up to the number of items |
| Queue.SpliceStart | utils/queue.js:271 | `splice`'s clamped start never passes the end |
| Queue.ReorderKeepsOthers | utils/queue.js:266-273 | moving one id is a permutation without duplicates that puts the id at the target and keeps the other ids in order |
| Queue.BatchFirstEntryWins | utils/queue.js:62-64 | after `addBatch`, queued items are kept and each new id holds the item made from the first entry carrying it |
| Queue.RetryAsWritten | utils/queue.js:172-190 | the `retry` of the code as written: a truthy id always returns; when it returns, the same ids are queued and items that were not failed are unchanged |
| Queue.RetryEachAsWritten | utils/queue.js:184-188 | its `forEach` over the failed items: when it returns, the same ids are queued and items that were not failed are unchanged |
| Queue.RetryOfEmptyIdNeverReturns | utils/queue.js:172-190 | as written, `retry()` with a failed item whose id is `""` recurses without end |
| Queue.RetryAsWrittenAgrees | utils/queue.js:172-190 | without such an item, the code as written resets exactly the failed items, like `DownloadQueue.Retry` |
| Queue.DownloadQueue.constructor | utils/queue.js:19-24 | the queue starts empty and valid |
| Queue.DownloadQueue.Add | utils/queue.js:33-56 | a known id returns false and changes nothing; a new id returns true, appends to `order`, stores a fresh pending item and announces it |
| Queue.DownloadQueue.AddBatch | utils/queue.js:62-64 | `add` of each entry in turn: the order is the `Set`-like append of the ids, the map and the events those of the successive adds |
| Queue.DownloadQueue.Remove | utils/queue.js:70-77 | a known id leaves the map and the order, and is announced; an unknown one changes nothing |
| Queue.DownloadQueue.Update | utils/queue.js:84-98 | the item is replaced by its patched version and announced; unknown ids change nothing; `order` is kept |
| Queue.DownloadQueue.UpdateProgress | utils/queue.js:106-112 | `update` with the page, the total and the rounded percentage |
| Queue.DownloadQueue.StartDownload | utils/queue.js:118-120 | `update` to downloading |
| Queue.DownloadQueue.Complete | utils/queue.js:127-133 | `update` with completed, progress 100 and `meta` on top |
| Queue.DownloadQueue.Fail | utils/queue.js:140-149 | `update` with failed, the error and retryCount + 1 read before the update; unknown ids change nothing |
| Queue.DownloadQueue.UpdateWhere | utils/queue.js:160-164 | the `forEach` patches exactly the items whose status is selected, and announces them in queue order |
| Queue.DownloadQueue.Cancel | utils/queue.js:155-166 | a truthy id is cancelled whatever its status; otherwise every pending or downloading item is |
| Queue.DownloadQueue.Retry | utils/queue.js:172-190 | a truthy id is reset only when failed; otherwise every failed item is reset |
| Queue.DownloadQueue.GetNext | utils/queue.js:196-204 | the first item in queue order that is pending, or none exactly when there is none |
| Queue.DownloadQueue.GetAll | utils/queue.js:210-212 | the items in queue order, one per id |
| Queue.DownloadQueue.GetByStatus | utils/queue.js:219-221 | exactly the queued items with that status, one entry for each of them |
| Queue.DownloadQueue.GetStats | utils/queue.js:227-237 | `total` is the number of items, each per-status count is the number of queued items with that status, and the counts sum to the total |
| Queue.DownloadQueue.StatusCount | utils/queue.js:227-237 | filtering `getAll()` by a status lists as many items as the queue holds with that status |
| Queue.DownloadQueue.ClearCompleted | utils/queue.js:242-250 | exactly the completed items are removed, the rest keep their order |
| Queue.DownloadQueue.CollectCompleted | utils/queue.js:243-248 | the ids collected are those of the completed items, in queue order |
| Queue.DownloadQueue.RemoveEach | utils/queue.js:249 | each collected id is removed and announced in turn |
| Queue.DownloadQueue.Clear | utils/queue.js:255-259 | map and order emptied, one clear event |
| Queue.DownloadQueue.Reorder | utils/queue.js:266-273 | an unknown id changes nothing; a known one is taken out and spliced back at the clamped index, with the move announced |
| Content.Sanitize | content.js:315 | each reserved character becomes `_` and every other character is kept |
| Content.SanitizeIdempotent | content.js:315 | sanitizing twice equals sanitizing once |
| Content.SafeTitle | content.js:314-316 | the folder name is at most 100 characters, a prefix of the sanitized title, and free of reserved characters |
| Content.SafeTitleKeepsCleanTitle | content.js:314-316 | a clean title of at most 100 characters is kept as it is; without titles the name is `"Gallery <id>"` |
| Content.ExtFor | content.js:318 | the extension is jpg, png, gif or webp; anything but the three other type letters gives jpg |
| Content.RequestPathsAt | content.js:327-330 | page k is requested at its number and the extension of its type |
| Content.PageFilenameInjective | content.js:331 | two pages never get the same file name |
| Content.PaddedValue | content.js:331 | zero padding keeps the number the digits denote |
| Content.OkPagesExactly | content.js:352-359 | the pages written are exactly the successful ones, each once, in ascending order |
| Content.FilenamesAt | content.js:355 | the file written for each such page is its padded name |
| Content.WrittenOnce | content.js:353-356 | no file of a gallery is written twice |
| Content.Windows | content.js:346 | the windows of five cover all pages and no more |
| Content.ProgressClimbsToTotal | content.js:360-362 | the reported counts strictly grow, each is 5(k+1) or the total, and a full run ends at the total |
| Content.TwelvePages | content.js:346-362 | twelve pages report 5, 10 and 12 |
| Content.Issued | content.js:346-347 | at most all the windows are issued, and when fewer are, the flag read before the first window not issued sees a cancel |
| Content.IssuedUnseen | content.js:346-347 | no flag read before an issued window sees a cancel |
| Content.IssuedReadSees | content.js:347 | the check before a window throws exactly at the first window that is not issued |
| Content.Toggled | content.js:110-119 | exactly that id changes membership |
| Content.ToggleTwice | content.js:110-119 | toggling twice restores the selected ids |
| Content.ContentScript.constructor | content.js:6-8 | nothing selected, neither flag set |
| Content.ContentScript.ToggleSelection | content.js:110-119 | the selection becomes `Toggled` of the old one, flags unchanged |
| Content.ContentScript.SelectAll | content.js:121-137 | with as many selected ids as checkboxes every checkbox id is deselected, otherwise every one is selected |
| Content.ContentScript.SelectEach | content.js:125-134 | with `allSelected` false, every checkbox id is added in page order and the rest of the selection is kept |
| Content.ContentScript.ClearSelection | content.js:139-146 | every checkbox id is deselected and the other ids are kept |
| Content.ContentScript.ButtonDisabled | content.js:148-154 | the download button is disabled exactly when the selection is empty or a download runs |
| Content.ContentScript.ReadCancel | content.js:347 | a read sees the flag when it was set or the press came before it |
| Content.ContentScript.DownloadGalleryToZip | content.js:309-366 | a metadata failure throws its message; otherwise windows run until a flag read sees a cancel ('Cancelled'). The folder, the requests, the files written in page order and the progress reports are those of the windows issued, and 'No pages downloaded' is thrown when nothing was written |
| Content.ContentScript.DownloadPages | content.js:346-363 | the loop issues exactly the windows before the first read that sees the flag |
| Content.ContentScript.DownloadPage | content.js:325-344 | one page: its image path is requested, and its file is written when the fetch succeeded |
| Content.ContentScript.DownloadWindow | content.js:348-359 | one window requests its pages and writes the successful ones in page order |
| Content.ContentScript.GalleryTurn | content.js:192-200 | one gallery of the loop makes exactly `GalleryReads` flag reads (none on a metadata failure, otherwise one per window issued and the read that throws 'Cancelled'). It counts as a success exactly when `GallerySucceeds`: the metadata arrived, every window was issued and a page was written. A press is seen exactly when it came before the last read |
| Content.ContentScript.ZipCheck | content.js:204 | the flag is read only when something succeeded, and the zip is made exactly when that read sees no cancel |
| Content.ContentScript.DownloadSelected | content.js:168-236 | starts exactly when the button is enabled. Successes plus failures are the galleries attempted, at most the selection size. It stops only after seeing a press, and reads the flag at most three times from the press on. A cancel is seen exactly when the press came before the last flag read, including the read before the zip. The ghost record of the gallery loop's reads, taken from the run's first read in increasing order, shows that every gallery attempted had its loop read before the press, and that a loop cut short stopped at the first loop read at or after it. The zip is made iff something succeeded and no cancel was seen. Both flags end false, so the summary is always shown. Without a press every gallery is attempted and the successes are the galleries whose metadata arrived and that had a page. A run that starts ends with the summary `RunSummary` gives for the selection, so the galleries attempted and the successes are pinned down exactly, even with a press. Between two loop reads lie exactly the reads of the gallery begun after the first of them |
| Content.ContentScript.RunDownload | content.js:172-226 | once started, the run sets both flags and clears them at the end, and its summary is `RunSummary` of the selection, with every fact of `DownloadSelected` about reads, press and zip |
| Content.ContentScript.RunGalleries | content.js:181-201 | the gallery loop ends where `GalleryLoop` ends, the galleries attempted being the successes plus the failures, and its record of loop reads is `LoopReads`. A cancel is seen exactly when the press came before the last read, at most two reads before the end |
| Content.ContentScript.LoopStep | content.js:182-200 | one turn of the loop: the read that sees the cancel stops it with the reference loop ending there, otherwise the gallery turn advances the reference loop and its record of reads by one gallery |
| Content.GalleryLoop | content.js:181-201 | the loop attempts between its start and all galleries, gains at most one success per gallery, and stops early only after a read at or after the press |
| Content.LoopReads | content.js:182 | the loop makes at most one read per gallery plus the stopping read |
| Content.LoopTurn | content.js:182-200 | a turn whose read sees no cancel moves the loop and its reads on by one gallery, after that gallery's reads |
| Content.LoopReadsCount | content.js:181-185 | the loop reads once per gallery begun, plus the read that stops it early, starting at the first read number |
| Content.LoopReadsStep | content.js:182-200 | each loop read after the first is one past the previous loop read plus the reads of the gallery begun between them |
| Content.LoopReadsAscend | content.js:182 | the loop reads are strictly increasing |
| Content.LoopReadsBounded | content.js:182 | every loop read lies between the first read and the loop's end |
| Content.LoopReadsBeforePress | content.js:182-185 | the read before every gallery begun sees no cancel |
| Content.LoopReadsStopAtPress | content.js:182-185 | a loop that stops early stops at a read that sees the cancel |
| Content.RunLoopReads | content.js:181-201 | for a whole run: as many loop reads as galleries begun plus the stopping one, starting at read 0 and ascending, all before the loop's end; those before the galleries begun see no cancel, and a cut-short loop stops at one that does |
| Content.RunLoopSteps | content.js:182-200 | for a whole run, consecutive loop reads are separated by exactly the reads of the gallery between them |
| Content.LoopEndsNearPress | content.js:182-200 | a loop begun before the press makes at most two reads from the press on |
| Content.LoopWithoutPress | content.js:181-201 | without a press every gallery is attempted and every gallery that can succeed does |
| Content.LoopSuccessBound | content.js:192-200 | the successes never exceed the galleries attempted that can succeed |
| Content.RunSuccesses | content.js:192-200 | a whole run succeeds at most on the galleries that can, and exactly on them without a press |
| Content.RunSummary | content.js:168-236 | the reference summary of a run: it is always shown, successes plus failures are the galleries attempted, a run cut short has seen the cancel, and the zip is made exactly when something succeeded and no cancel was seen |
| Content.RunFacts | content.js:181-204 | the reference run's successes are bounded by the galleries that can succeed; a cancel is seen exactly when the press came before the last read (the zip check included), at most three reads before it; the loop reads ascend, precede the press for every gallery begun, stop at it when cut short, and are separated by each gallery's reads |
| Content.RunWithoutPress | content.js:181-236 | without a press every gallery is attempted, the successes are those that can succeed, and the zip is made iff one did |
| Content.PressBeforeFirstRead | content.js:182-185 | a press before the first read ends the run with nothing attempted and no zip |
| Content.CancelInFirstGallery | content.js:182-200 | ten good pages, then two metadata failures, press before the third read: one gallery attempted and failed, a cancel seen and no zip |
| Content.PressAfterLastRead | content.js:182-204 | one good single-page gallery with the press after every read: one success, no cancel seen, and the zip made |

## Left out

- Listeners, `subscribe` and `_notify`'s exception isolation and logging (utils/queue.js:280-297): the announcements are a ghost event log. Each event holds a snapshot of the item, whereas the code hands listeners the live object that later updates mutate.
- The `forEach` loops of `cancel`, `retry` and `clearCompleted` walk `order` rather than the `Map`'s insertion order. The two differ only after `reorder`, and only in the order of events.
- `isProcessing` (utils/queue.js:23) is never read and is not modelled.
- Patch: an `update` patch carries status, progress, currentPage, pageCount, error, retryCount and fileSize. The other properties an arbitrary `updates` or `meta` object could carry are not modelled.
- Queue.DownloadQueue.UpdateProgress: requires `total > 0`. The code divides by it, and a zero total would store `NaN` or `Infinity`.
- Queue.RoundPercent: does not model floating-point rounding. It rounds the exact quotient half up; `Math.round` on the floating-point product can land on the other side of an exact half (for example 29 / 200 * 100).
- Retry.FetchWithRetry: `maxRetries` is a natural number. With a negative `maxRetries` the code makes no call and throws `undefined`; that case is not modelled.
- Storage.GetDownloadedIds: returns a set, so its contract states membership only. The code's `Set` also keeps the ids in the order of `galleryIds`; that order is not modelled.
- Jitter is an integer in [0, 500), not a floating-point value.
- `parseInt` returns unbounded integers, so very long digit runs do not lose precision as JavaScript numbers do.
- `delay`, `setTimeout` and `Date.now` are a trace of waits and time parameters.
- `onRetry` is assumed not to throw. A throwing callback would be caught as if it were a network error.
- The random choice among the four image hosts is left out of the request paths.
- `downloadPage`'s own cancel check (content.js:326) always sees the same value as its window's check, because no await separates them. It is folded into the window check.
- The pages of a window are requested and their results written one after another; the parallelism of `Promise.all` is not modelled, only its order.
- String lengths count Unicode scalar values, not UTF-16 code units as `substring(0, 100)` does.
- Gallery titles that are `null` or missing are modelled as the empty string, which is just as falsy.
- The page, the DOM, the toast, the progress modal, keyboard wiring, JSZip, object URLs, `dataURLtoBlob`, image transcoding (`fetchImageAsJpegBase64`), `chrome.runtime` messaging and context menus are not modelled. Their inputs and outcomes are parameters: the checkbox ids, the gallery metadata as a `Result`, each page fetch's success, and the moment of the cancel press.
- popup.js, `getHistory`, `clearHistory` and `exportHistory` are not modelled; they are storage plumbing or UI.

## Findings

| source | as written | input that shows it | evidently intended | confidence | as-written member | corrected member |
|---|---|---|---|---|---|---|
| utils/queue.js:184-188 | the retry of all failed items calls `this.retry(itemId)`, and `retry` treats a falsy id as "retry all" | a failed item whose id is `""`: every nested call sweeps again and finds it still failed, so the recursion never ends (stack overflow) | each failed item is reset once | not executed | Queue.RetryOfEmptyIdNeverReturns | Queue.DownloadQueue.Retry |
