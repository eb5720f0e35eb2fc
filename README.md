# Gallica stealth downloader — a verified model of its decision core

`gallica_stealth_downloader.py` downloads PDFs from Gallica, the digital
library of the Bibliothèque nationale de France. It reads a CSV of document
URLs. For each URL it drives a Chrome browser to the document's direct PDF
link and watches the download folder until the file is complete, and at the
end it reports how many downloads succeeded and how many failed.

This project models the parts of that program that make decisions, in
Dafny. The browser, the folder and the clock are treated as an observation
oracle:

- **ARK identifiers** (`ark.dfy`, module `ArkId`). `extract_ark_id` finds
  the name that follows the `12148` path segment of a URL containing `ark:`.
  It is modelled as a function over strings, built on Python's
  `rstrip('/')` and `split('/')` (module `Text`, `text.dfy`).
- **Block detection** (`block.dfy`, module `BlockCheck`). The source lists
  seventeen words that mark an error, login or paywall page. A page is
  blocked when one of them occurs in its lowered title or in the first 2000
  characters of its lowered source. The source's loop over the words is
  the method `FindIndicator`.
- **The download folder** (`directory.dfy`, module `Directory`). A listing
  of names and sizes, read through the globs `*{id}.pdf`,
  `*{id}*.crdownload` and `*.crdownload`. `wait_for_downloads` is a polling
  method over a listing that changes with time.
- **One attempt** (`attempt.dfy`, module `Attempt`). `download_gallica_pdf`
  runs, in order: the already-exists skip, two navigations, the block
  test, the 15 s start window polled every second, and the 600 s completion
  window. Each pass of that window reads the size of the first finished
  file up to three times: twice whenever a PDF is found, and a third time
  only when the first re-check matched and the size was over 1000 bytes.
  - The world is an oracle: the folder as a function of the second, the
    navigation errors, the page read after the PDF navigation, and the
    length of the random settle pause.
  - Time is whole seconds, counted from the sleeps.
  - `AttemptSpec` states the whole attempt as a function.
  - `DownloadPdf` is the step-by-step method. Its two loops, run in turn
    by `AwaitDownload`, are the methods `AwaitStart` and `AwaitCompletion`,
    each proved against the recursive functions `StartPoll` and
    `CompletionPoll`.
- **The batch run** (`batch.dfy`, module `Batch`). `download_from_csv`
  takes the stripped first cells of the CSV rows as URLs, then for each
  item:
  - it restarts the browser before items 11, 21, …;
  - it runs the attempt and counts it as successful or failed;
  - if the progress line printed after that count raises, the handler
    counts the item as failed once more and restarts the browser;
  - it pauses before the next item, except after the last one.

  A failing driver creation ends the run with `None`. The browser is a
  count of created drivers. `Run` states the loop as a function of the
  attempt verdicts; `DownloadFromCsv` is the method, proved against
  `Run` with `Attempts(env)`, the verdicts of `AttemptSpec`. Its loop body is
  the method `ProcessItem`.

Time, the folder, the page and where exceptions happen are all parameters.
Nothing in the model reads a clock, a disk or a network.

## Model

| member | source | states |
|---|---|---|
| `Text.IsSpace` | gallica_stealth_downloader.py:217 | the characters `str.isspace()` accepts, which `str.strip()` removes: space, U+0009 to U+000D, U+001C to U+001F, U+0085, U+00A0 and the Unicode spaces; `Text.StripShape` and `Batch.UrlsAreStripped` state what stripping leaves |
| `Text.DropEnd` | gallica_stealth_downloader.py:28 | `rstrip` of a set of characters; `Text.DropEndShape` and `Text.DropEndIgnoresDropped` characterise it |
| `Text.DropStart` | gallica_stealth_downloader.py:217 | `lstrip` of a set of characters; `Text.DropStartShape` characterises it |
| `Text.Strip` | gallica_stealth_downloader.py:217 | `str.strip()`, both ends of whitespace removed; `Text.StripShape` characterises it |
| `Text.Split` | gallica_stealth_downloader.py:28 | `split('/')` gives at least one part; no part contains the separator; joining the parts with it gives back the input |
| `Text.SplitWithoutSep` | gallica_stealth_downloader.py:28 | a string without the separator splits into itself alone |
| `Text.SplitAfterSegment` | gallica_stealth_downloader.py:28 | a segment, the separator and a rest split into that segment followed by the parts of the rest |
| `Text.SplitUnique` | gallica_stealth_downloader.py:28 | splitting the join of separator-free parts gives exactly those parts (split and join are inverse) |
| `Text.DropEndShape` | gallica_stealth_downloader.py:28 | `rstrip` keeps a prefix; everything it removed was strippable; what it kept does not end in a strippable character |
| `Text.DropEndIgnoresDropped` | gallica_stealth_downloader.py:28 | appending a strippable character does not change what `rstrip` keeps |
| `Text.DropStartShape` | gallica_stealth_downloader.py:217 | `lstrip` keeps a suffix; everything it removed was strippable; what it kept does not start with a strippable character |
| `Text.StripShape` | gallica_stealth_downloader.py:217 | `strip()` is empty exactly for all-whitespace text; otherwise the result neither starts nor ends with whitespace |
| `Text.Contains` | gallica_stealth_downloader.py:29 | `needle in hay` holds exactly when the needle occurs at some position of the haystack |
| `Text.ContainsIgnoresAppended` | gallica_stealth_downloader.py:29 | appending a character outside the needle never creates or destroys an occurrence |
| `Text.Lower` | gallica_stealth_downloader.py:88-89 | lowering keeps the length and lowers each character |
| `Text.LowerIdempotent` | gallica_stealth_downloader.py:88-89 | lowering twice is lowering once |
| `Text.Head` | gallica_stealth_downloader.py:100 | `s[:n]` is a prefix of `s` of length `min(n, len(s))` |
| `ArkId.Segments` | gallica_stealth_downloader.py:28 | `url.rstrip('/').split('/')`; `Text.SplitUnique`, `ArkId.ExtractArkId` and `ArkId.TrailingSlashesIgnored` characterise it |
| `ArkId.IndexOf` | gallica_stealth_downloader.py:31-34 | `list.index` gives the first position of the element, and fails exactly when the element is absent |
| `ArkId.ExtractArkId` | gallica_stealth_downloader.py:26-35 | an id is found exactly when the URL contains `ark:` and some `12148` segment is not last; it is then the segment after the first `12148`, and never contains `/` |
| `ArkId.OneTrailingSlashIgnored` | gallica_stealth_downloader.py:28-29 | one more trailing slash leaves the id unchanged |
| `ArkId.TrailingSlashesIgnored` | gallica_stealth_downloader.py:28-29 | any number of trailing slashes leaves the id unchanged |
| `BlockCheck.Hit` | gallica_stealth_downloader.py:100 | one indicator in the lowered title or in the first 2000 lowered characters of the source; `BlockCheck.FindIndicator` and `BlockCheck.BlockedIgnoresSourceTail` characterise it |
| `BlockCheck.Blocked` | gallica_stealth_downloader.py:92-103 | one of the seventeen indicators of lines 92-97 hits; `BlockCheck.FindIndicator`, `BlockCheck.BlockedIgnoresCase` and `BlockCheck.BlockedIgnoresSourceTail` characterise it |
| `BlockCheck.FindIndicator` | gallica_stealth_downloader.py:87-103 | the indicator loop reports a block exactly when some indicator occurs in the lowered title or in the first 2000 lowered characters of the source |
| `BlockCheck.BlockedIgnoresCase` | gallica_stealth_downloader.py:88-89 | the block test gives the same answer on lowered and original text |
| `BlockCheck.BlockedIgnoresSourceTail` | gallica_stealth_downloader.py:100 | nothing after the first 2000 characters of the source changes the block test |
| `BlockCheck.AuthentificationBlocks` | gallica_stealth_downloader.py:92-100 | a source whose first 2000 lowered characters mention "authentification" is blocked |
| `Directory.IsPdfOf` | gallica_stealth_downloader.py:66 | the `*{id}.pdf` name test; `Directory.PdfOfMatchesGlob` characterises it |
| `Directory.IsPartial` | gallica_stealth_downloader.py:49 | the `*.crdownload` name test; `Directory.WaitForDownloads` uses it |
| `Directory.PdfOfMatchesGlob` | gallica_stealth_downloader.py:66 | a name matches `*{id}.pdf` exactly when it is some prefix followed by the id and `.pdf` |
| `Directory.IsPartialOf` | gallica_stealth_downloader.py:116 | the `*{id}*.crdownload` test; `Directory.PartialOfMatchesGlob` characterises it |
| `Directory.PartialOfMatchesGlob` | gallica_stealth_downloader.py:116 | a name matches `*{id}*.crdownload` exactly when it is some prefix, the id, some infix and `.crdownload` |
| `Directory.HasPartialOf` | gallica_stealth_downloader.py:116-119 | `glob("*{id}*.crdownload")` finds something; `Directory.PartialOfMatchesGlob` characterises the name test it uses |
| `Directory.Settled` | gallica_stealth_downloader.py:49-50 | `glob("*.crdownload")` finds nothing; `Directory.WaitForDownloads` characterises the loop over it |
| `Directory.FirstPdf` | gallica_stealth_downloader.py:66-67 | `existing_files[0]` of the `*{id}.pdf` glob; `Directory.FirstPdfFinds` characterises it |
| `Directory.FirstPdfFinds` | gallica_stealth_downloader.py:66-67 | `glob("*{id}.pdf")` finds nothing exactly when no name ends in `{id}.pdf`; otherwise the first entry taken is the first matching one |
| `Directory.SizeOfFinds` | gallica_stealth_downloader.py:142-149 | `stat` fails exactly when no entry has the name; otherwise it reports a size the folder holds for that name |
| `Directory.SizeOf` | gallica_stealth_downloader.py:142-149 | `stat().st_size` of a globbed file; `Directory.SizeOfFinds` characterises it |
| `Directory.WaitForDownloads` | gallica_stealth_downloader.py:43-56 | succeeds exactly when a probe at an even second before the timeout finds no `*.crdownload`, and then at the first such probe; otherwise it gives up at or after the timeout |
| `Attempt.PdfUrl` | gallica_stealth_downloader.py:78 | the direct PDF link `https://gallica.bnf.fr/ark:/12148/{id}.pdf`; `Attempt.BlockShortCircuits` shows it as the second page visited |
| `Attempt.StartSeen` | gallica_stealth_downloader.py:116-119 | a probe of the start loop sees a partial file for the id or a finished PDF; `Attempt.StartPollFirst` characterises the loop over it |
| `Attempt.PassAt` | gallica_stealth_downloader.py:139-157 | a pass that goes round has slept exactly 3, 8 or 13 s; a vanished file is noticed exactly 5 or 10 s in; a completed pass ends 10 s in |
| `Attempt.StartPoll` | gallica_stealth_downloader.py:114-124 | the start window as a function of the folder; `Attempt.StartPollFirst` and `Attempt.StartPollWithin` characterise it |
| `Attempt.CompletionPoll` | gallica_stealth_downloader.py:137-157 | the completion window as a function of the folder; `Attempt.StableFromPass`, `Attempt.CompletionBounded` and `Attempt.NoPdfExpires` characterise it |
| `Attempt.Polled` | gallica_stealth_downloader.py:109-162 | the start window, then the completion window, as one function; `Attempt.PollingStableIsSteady` and `Attempt.PollingStalls` characterise it |
| `Attempt.AttemptSpec` | gallica_stealth_downloader.py:60-165 | the whole attempt as a function of what it observes; `Attempt.ExistingPdfSkips`, `Attempt.BlockShortCircuits`, `Attempt.NoStartIffSilent`, `Attempt.CompletedIsSteady`, `Attempt.TimeoutAfterWindow` and `Attempt.AttemptIsBounded` characterise it |
| `Attempt.Outcome.Succeeded` | gallica_stealth_downloader.py:64-165 | the flag half of each returned pair, `True` for "Already exists" and "Download complete"; `Attempt.SuccessIffMessage` ties it to the message half |
| `Attempt.Outcome.Message` | gallica_stealth_downloader.py:64-165 | the message half of each returned pair (lines 69, 103, 129, 160, 162, 165); `Attempt.SuccessIffMessage` ties it to the flag half |
| `Attempt.ErrorMessageInitial` | gallica_stealth_downloader.py:164-165 | every message of the catch-all handler starts with "Error: ", so it begins with "E" |
| `Attempt.SuccessIffMessage` | gallica_stealth_downloader.py:64-165 | the flag is `True` exactly when the message is "Already exists" or "Download complete" |
| `Attempt.DownloadPdf` | gallica_stealth_downloader.py:60-165 | the step-by-step attempt produces exactly `AttemptSpec`: the outcome, the pages visited, whether it polled and when it ended; success is reported exactly for "Already exists" and "Download complete" |
| `Attempt.AwaitDownload` | gallica_stealth_downloader.py:109-162 | the start loop followed, when the download started, by the completion loop ends as `Polled` says: "did not start" at the end of the 15 s window, or the completion loop's verdict and time |
| `Attempt.AwaitStart` | gallica_stealth_downloader.py:109-129 | the start loop reports the first second in the 15 s window at which a partial or finished file is seen, or that none is seen and 15 s have passed |
| `Attempt.AwaitCompletion` | gallica_stealth_downloader.py:133-160 | the completion loop ends as `CompletionPoll` says: three equal readings, a vanished file, or the 600 s window running out |
| `Attempt.StartPollFirst` | gallica_stealth_downloader.py:114-124 | the start window reports nothing exactly when no probe in it sees the download, and otherwise the first probe that does |
| `Attempt.StartPollWithin` | gallica_stealth_downloader.py:114-124 | a start that is seen is seen inside the 15 s window |
| `Attempt.StableFromPass` | gallica_stealth_downloader.py:137-157 | the window ends `Stable` only through a completing pass that began inside the 600 s window |
| `Attempt.CompletionBounded` | gallica_stealth_downloader.py:134-157 | the completion window ends at most 612 s after it opened, and expires only once 600 s have passed |
| `Attempt.NoPdfExpires` | gallica_stealth_downloader.py:137-160 | with no finished PDF during the window, it runs out |
| `Attempt.ExistingPdfSkips` | gallica_stealth_downloader.py:66-69 | the attempt reports "Already exists" exactly when a finished PDF is present at the start, and then it is successful and the browser is never navigated |
| `Attempt.BlockShortCircuits` | gallica_stealth_downloader.py:87-106 | after both navigations, a readable page showing an indicator ends the attempt "not downloadable" with no polling; an unreadable page never blocks |
| `Attempt.NoStartIffSilent` | gallica_stealth_downloader.py:114-129 | once polling is reached, "Download did not start" is reported exactly when no probe of the 15 s window sees a partial or finished file |
| `Attempt.PollingStableIsSteady` | gallica_stealth_downloader.py:109-155 | polling ends in success only on three equal readings, over 1000 bytes, of a file that neither grew nor was small, taken after polling began |
| `Attempt.CompletedIsSteady` | gallica_stealth_downloader.py:147-162 | "Download complete" needs three equal readings over 1000 bytes taken after polling began |
| `Attempt.GrowingNeverCompletes` | gallica_stealth_downloader.py:141-155 | a file that always changes size by the first re-check is never reported complete |
| `Attempt.SmallNeverCompletes` | gallica_stealth_downloader.py:147 | a PDF that is always at most 1000 bytes is never reported complete |
| `Attempt.TimeoutAfterWindow` | gallica_stealth_downloader.py:134-160 | a timeout is reported only after the whole 600 s window |
| `Attempt.PollingStalls` | gallica_stealth_downloader.py:114-160 | polling that sees the download start but never sees a finished PDF starts and then runs out the 600 s window |
| `Attempt.StalledPartialTimesOut` | gallica_stealth_downloader.py:114-160 | a download that starts as a partial file but never becomes a PDF times out |
| `Attempt.AttemptIsBounded` | gallica_stealth_downloader.py:74-157 | every attempt ends at most 629 s after the random settle pause |
| `Batch.Keeps` | gallica_stealth_downloader.py:217 | the filter `row and row[0].strip()`; `Batch.UrlsAreStripped` and `Batch.UrlsSkipBlank` characterise it |
| `Batch.Urls` | gallica_stealth_downloader.py:217 | the list comprehension over the rows; `Batch.UrlsAreStripped`, `Batch.UrlsKeepOrder` and `Batch.UrlsSkipBlank` characterise it |
| `Batch.UrlsAppend` | gallica_stealth_downloader.py:217 | the URLs of two blocks of rows are those of the first block, then those of the second |
| `Batch.UrlsAreStripped` | gallica_stealth_downloader.py:217 | there are no more URLs than rows, and every URL is non-empty with no surrounding whitespace |
| `Batch.UrlsAround` | gallica_stealth_downloader.py:217 | the URLs around one row are those before it, its stripped first cell if usable, then those after it |
| `Batch.UrlsKeepOrder` | gallica_stealth_downloader.py:217 | a row with a non-blank first cell contributes its stripped cell right after the URLs of the earlier rows |
| `Batch.UrlsSkipBlank` | gallica_stealth_downloader.py:217 | a row that is empty or has a blank first cell contributes nothing |
| `Batch.RestartDue` | gallica_stealth_downloader.py:227 | the test `i > 1 and (i - 1) % 10 == 0`; `Batch.DueCountClosedForm` characterises it |
| `Batch.DueCountClosedForm` | gallica_stealth_downloader.py:227 | n items see floor((n - 1) / 10) proactive restarts |
| `Batch.Launch` | gallica_stealth_downloader.py:210 | the first driver creation, whose failure ends the run before any item; `Batch.RunCounts` counts it in the drivers |
| `Batch.Cadence` | gallica_stealth_downloader.py:227-235 | the restart before items 11, 21, …; `Batch.StepFacts` and `Batch.DueCountClosedForm` characterise it |
| `Batch.Pace` | gallica_stealth_downloader.py:259-262 | the delay after every item but the last; `Batch.PaceFacts` and `Batch.StepPauses` characterise it |
| `Batch.Relaunch` | gallica_stealth_downloader.py:229-235 | quitting and re-creating the driver; `Batch.RelaunchFacts` characterises it |
| `Batch.Handle` | gallica_stealth_downloader.py:237-256 | the guarded block for one item; `Batch.HandleFacts` characterises it |
| `Batch.Step` | gallica_stealth_downloader.py:222-262 | one item of the loop; `Batch.StepFacts` and `Batch.StepPauses` characterise it |
| `Batch.Run` | gallica_stealth_downloader.py:222-262 | the loop over the first k URLs; `Batch.RunCounts`, `Batch.RunHandled`, `Batch.RunPauses`, `Batch.AllSucceed` and `Batch.SummaryAddsUp` characterise it |
| `Batch.AbortedStays` | gallica_stealth_downloader.py:277-279 | once a driver creation fails, later items change nothing |
| `Batch.RelaunchFacts` | gallica_stealth_downloader.py:229-235 | a restart that succeeds adds one driver and changes neither counter nor the attempted URLs |
| `Batch.HandleFacts` | gallica_stealth_downloader.py:237-256 | the guarded block counts the item successful exactly when the attempt returned success (lines 240-242) and failed otherwise (243-245), and once more as failed when it raises after that count (246-247); it attempts the URL once and adds a driver exactly when it raised |
| `Batch.PaceFacts` | gallica_stealth_downloader.py:259-262 | the delay changes neither counters, drivers nor attempted URLs |
| `Batch.StepFacts` | gallica_stealth_downloader.py:222-262 | an item that does not abort the run moves `successful` exactly when its attempt succeeded and `failed` otherwise, plus once as failed if it raised after the count; it attempts its URL once and adds a driver for a due restart and for a raised exception |
| `Batch.RunCounts` | gallica_stealth_downloader.py:222-256 | after k items, `successful` is the number of successful attempts, `failed` is the number of the others plus the items that raised after their count, and drivers = 1 + due restarts + raised exceptions |
| `Batch.RunHandled` | gallica_stealth_downloader.py:222-248 | after k items the log has attempted exactly the first k URLs, once each, in input order |
| `Batch.StepPauses` | gallica_stealth_downloader.py:258-262 | an item adds one delay, unless it is the last |
| `Batch.RunPauses` | gallica_stealth_downloader.py:258-262 | a run pauses once after every item but the last |
| `Batch.AllSucceed` | gallica_stealth_downloader.py:237-242 | with no failing driver creation, no exception after the count and every attempt successful, the run never aborts and counts every item successful and none failed |
| `Batch.SummaryAddsUp` | gallica_stealth_downloader.py:217-275 | a completed run's summary has `successful` = the successful attempts and `failed` = total − those + the items that raised after their count; it attempted every URL once, in order; it created 1 + floor((total - 1) / 10) + raised exceptions drivers |
| `Batch.IdText` | gallica_stealth_downloader.py:223-238 | the id as spliced into the f-strings, `None` for an absent id; `Batch.AbsentIdMatchesNone` characterises it |
| `Batch.AbsentIdMatchesNone` | gallica_stealth_downloader.py:223-238 | a URL without an id is attempted with the text "None", so any finished file whose name ends in `None.pdf` counts it as already downloaded |
| `Batch.TryItem` | gallica_stealth_downloader.py:237-245 | the call for item i returns the verdict of the attempt on that item's world, and its success flag is exactly whether that verdict succeeds |
| `Batch.ProcessItem` | gallica_stealth_downloader.py:222-262 | one pass of the loop body leaves the counters, driver count, log and abort flag exactly as one `Step` of the run says |
| `Batch.DownloadFromCsv` | gallica_stealth_downloader.py:188-285 | a missing CSV gives `None`; otherwise the method's log is the run's log, and the summary is `None` if a driver creation failed, else `{total, successful, failed}` from the run |

## Quirks of the source

- An absent identifier is spliced into the globs and the PDF URL as the
  text `None` (`Batch.AbsentIdMatchesNone`).
- An error inside an attempt is caught by `download_gallica_pdf` itself
  (lines 164-165). It becomes the outcome `Error: …`, is counted as failed,
  and leaves the browser running.
- Inside the guarded block of lines 237-245, apart from the handler at
  line 165 raising (see "Left out"), only the progress lines at 242 and 245
  can raise, and they run after `successful += 1` or `failed += 1`. Such an item is then counted a second time, as failed, at
  line 247, and the browser restarts. So `successful + failed` can exceed
  `total` (`Batch.RunCounts`, `Batch.SummaryAddsUp`).
- Proactive restarts number floor((n - 1) / 10) for n items
  (`Batch.DueCountClosedForm`).
- The completion rule needs three equal size readings (`Attempt.PassAt`).

## Left out

- Browser provisioning (`setup_driver`, lines 168-185), the Chrome
  options, the import fallback (lines 15-23) and the SSL context (line 13)
  are foreign library calls. A driver creation is an oracle that either
  succeeds or raises.
- Real time, `time.sleep` and `random.uniform` are not modelled. The random
  settle pause (line 75) is a parameter of the world. The inter-item delay
  (line 260) is a `Pause` event with no length. Time spent computing, such
  as globbing and navigation, counts as zero seconds.
- Opening and parsing the CSV (lines 191-193, 215-217) are not modelled.
  The model receives the rows already split into cells, or `None` when the
  file does not exist. Creating the download folder (line 195) is not
  modelled.
- All `print` output, the megabyte formatting (line 153) and the `__main__`
  block (lines 288-305) are left out.
- Globbing is modelled as name tests: `*{id}.pdf` is a suffix test and
  `*{id}*.crdownload` an occurrence before the suffix. Glob
  metacharacters inside an id are not interpreted, and the listing order is
  whatever the oracle gives.
- `Text.Lower`: does not model Unicode case mapping; only ASCII letters are
  lowered.
- The exception text for a vanished file is modelled as the
  `FileNotFoundError` message around the name the glob returned. That name
  stands for the path as globbed, and no directory prefix is added.
- The final `wait_for_downloads(download_folder, timeout=120)` at line 273
  is not part of `Batch.DownloadFromCsv`, because its result is discarded.
  The method itself is modelled as `Directory.WaitForDownloads`.
- Closing the browser in the `finally` block (lines 281-285) is left out.
  A page whose title or source cannot be read (lines 104-106) is the world
  with no page.
- A `print` that raises is modelled only at lines 242 and 245, through the
  `escapes` oracle. The other prints of the loop (lines 224, 228, 235, 248,
  256, 261) sit outside the guarded block or in its handler; one that
  raised would end the run through lines 277-279, and that is not modelled.
  An exception escaping `download_gallica_pdf` itself would need its own
  handler at line 165 to raise, and is not modelled either.
  A print inside `download_gallica_pdf` that raised would be caught by
  its own handlers (lines 104 and 164); that is not modelled.
- `Batch.DownloadFromCsv`: the drivers come from an oracle that fails on a
  chosen creation. Whether the source's `driver.quit()` was tried on a
  driver that never existed is not tracked.
