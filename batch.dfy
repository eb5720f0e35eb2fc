/**
 * The batch run (`download_from_csv`): take the URLs from the CSV rows, then
 * for each one, in order, restart the browser when the cadence says so, run
 * one attempt, count it as successful or failed, and pause before the next
 * item unless it was the last. The browser is a count of created drivers.
 */
module Batch {
  import opened Wrappers
  import opened Text
  import opened ArkId
  import opened Directory
  import opened Attempt

  /** One CSV record: its cells. */
  type Row = seq<string>

  /** `row and row[0].strip()`: the row has a first cell that is not blank. */
  predicate Keeps(row: Row) {
    row != [] && Strip(row[0]) != []
  }

  /** `[row[0].strip() for row in reader if row and row[0].strip()]`. */
  function Urls(rows: seq<Row>): seq<string> {
    if rows == [] then []
    else (if Keeps(rows[0]) then [Strip(rows[0][0])] else []) + Urls(rows[1..])
  }

  /** Reading two blocks of rows gives the URLs of the first block, then those of the second. */
  lemma {:induction false} UrlsAppend(a: seq<Row>, b: seq<Row>)
    ensures Urls(a + b) == Urls(a) + Urls(b)
  {
    if a != [] {
      assert (a + b)[0] == a[0];
      assert (a + b)[1..] == a[1..] + b;
      UrlsAppend(a[1..], b);
    } else {
      assert a + b == b;
    }
  }

  /** Every URL is non-empty and has no surrounding whitespace; there are at most as many as rows. */
  lemma {:induction false} UrlsAreStripped(rows: seq<Row>)
    ensures |Urls(rows)| <= |rows|
    ensures forall k :: 0 <= k < |Urls(rows)| ==>
              Urls(rows)[k] != [] && !IsSpace(Urls(rows)[k][0]) && !IsSpace(Urls(rows)[k][|Urls(rows)[k]| - 1])
  {
    if rows != [] {
      UrlsAreStripped(rows[1..]);
      if Keeps(rows[0]) {
        StripShape(rows[0][0]);
      }
    }
  }

  /** The URLs of rows laid out as a block, one row, and another block. */
  lemma {:induction false} UrlsAround(before: seq<Row>, row: Row, rest: seq<Row>)
    ensures Urls(before + [row] + rest) == Urls(before) + (if Keeps(row) then [Strip(row[0])] else []) + Urls(rest)
  {
    UrlsAppend(before + [row], rest);
    UrlsAppend(before, [row]);
    assert [row][1..] == [];
  }

  /**
   * Input order is kept: a row with a non-blank first cell contributes its
   * stripped first cell right after the URLs of the rows before it.
   */
  lemma UrlsKeepOrder(rows: seq<Row>, i: nat)
    requires i < |rows| && Keeps(rows[i])
    ensures |Urls(rows[..i])| < |Urls(rows)|
    ensures Urls(rows)[|Urls(rows[..i])|] == Strip(rows[i][0])
  {
    assert rows == rows[..i] + [rows[i]] + rows[i + 1..];
    UrlsAround(rows[..i], rows[i], rows[i + 1..]);
  }

  /** A row without a usable first cell contributes nothing. */
  lemma UrlsSkipBlank(before: seq<Row>, row: Row, rest: seq<Row>)
    requires !Keeps(row)
    ensures Urls(before + [row] + rest) == Urls(before + rest)
  {
    UrlsAround(before, row, rest);
    UrlsAppend(before, rest);
  }

  /** Drivers serve this many items before a proactive restart. */
  const RestartEvery: nat := 10

  /** The restart test before item `i` (counted from 1). */
  predicate RestartDue(i: nat) {
    i > 1 && (i - 1) % RestartEvery == 0
  }

  /** How many of items 1..n are preceded by a proactive restart. */
  function DueCount(n: nat): nat {
    if n == 0 then 0 else DueCount(n - 1) + (if RestartDue(n) then 1 else 0)
  }

  /** n items see floor((n - 1) / 10) proactive restarts: one before item 11, 21, and so on. */
  lemma {:induction false} DueCountClosedForm(n: nat)
    ensures DueCount(n) == if n == 0 then 0 else (n - 1) / RestartEvery
  {
    if n > 1 {
      DueCountClosedForm(n - 1);
      assert RestartDue(n) <==> (n - 1) / RestartEvery == (n - 2) / RestartEvery + 1;
    }
  }

  /** What the run cannot control: the per-item worlds and where exceptions strike. */
  datatype Env = Env(
    world: nat -> World,        // what browser and folder show during item i
    escapes: nat -> bool,       // the progress line for item i, printed after its count, raises
    setupFails: nat -> bool)    // creating driver number k (0 = the first) raises

  /** What the run does, in order. */
  datatype Event =
    | Restart(proactive: bool)  // quit the driver (a failing quit is ignored) and create a new one
    | Tried(url: string, outcome: Outcome)
    | Raised(url: string)       // an exception in the guarded block after the item was counted
    | Pause                     // the random 3-6 s delay between items

  datatype RunState = RunState(successful: nat, failed: nat, drivers: nat, log: seq<Event>, aborted: bool)

  /** The dictionary `download_from_csv` returns. */
  datatype Summary = Summary(total: nat, successful: nat, failed: nat)

  /** `f"{ark_id}"`: an absent identifier is spliced in as the text "None". */
  function IdText(id: Option<string>): string {
    match id
    case None => "None"
    case Some(s) => s
  }

  /** The outcome of the attempt for item `i`. */
  function ItemOutcome(env: Env, i: nat, url: string): Outcome {
    AttemptSpec(env.world(i), url, IdText(ExtractArkId(url))).outcome
  }

  /**
   * What the call for item `i` with URL `url` returns, when it returns. The
   * run is stated for any such verdicts; the downloader's own are `Attempts(env)`.
   */
  type Verdicts = (nat, string) -> Outcome

  /** The verdicts of `download_gallica_pdf` in the worlds of `env`. */
  function Attempts(env: Env): Verdicts {
    (i: nat, url: string) => ItemOutcome(env, i, url)
  }

  /** The first `setup_driver`; its failure ends the run before any item. */
  function Launch(env: Env): RunState {
    if env.setupFails(0) then RunState(0, 0, 0, [], true) else RunState(0, 0, 1, [], false)
  }

  /** Quit the current driver and create another; a failing creation aborts the run. */
  function Relaunch(st: RunState, env: Env, proactive: bool): RunState {
    var st' := st.(log := st.log + [Restart(proactive)]);
    if env.setupFails(st.drivers) then st'.(aborted := true) else st'.(drivers := st.drivers + 1)
  }

  /** The cadence restart before item `i`, when due. */
  function Cadence(st: RunState, env: Env, i: nat): RunState {
    if RestartDue(i) then Relaunch(st, env, true) else st
  }

  /**
   * The guarded block for one item: the attempt's verdict is counted; when
   * the progress line printed after the count raises, the handler counts
   * the item as failed once more and restarts the browser.
   */
  function Handle(st: RunState, env: Env, attempt: Verdicts, i: nat, url: string): RunState {
    var outcome := attempt(i, url);
    var counted := if outcome.Succeeded() then st.(successful := st.successful + 1, log := st.log + [Tried(url, outcome)])
                   else st.(failed := st.failed + 1, log := st.log + [Tried(url, outcome)]);
    if env.escapes(i) then
      Relaunch(counted.(failed := counted.failed + 1, log := counted.log + [Raised(url)]), env, false)
    else
      counted
  }

  /** The delay after item `i`, skipped after the last one. */
  function Pace(st: RunState, i: nat, total: nat): RunState {
    if st.aborted || i >= total then st else st.(log := st.log + [Pause])
  }

  /** Item `i` of `total`: restart if due, attempt or catch, count, pause unless last. */
  function Step(st: RunState, env: Env, attempt: Verdicts, i: nat, total: nat, url: string): RunState {
    if st.aborted then st
    else
      var s1 := Cadence(st, env, i);
      if s1.aborted then s1 else Pace(Handle(s1, env, attempt, i, url), i, total)
  }

  /** The state after the first `k` URLs. */
  function Run(urls: seq<string>, env: Env, attempt: Verdicts, k: nat): RunState
    requires k <= |urls|
  {
    if k == 0 then Launch(env) else Step(Run(urls, env, attempt, k - 1), env, attempt, k, |urls|, urls[k - 1])
  }

  /** An aborted run stays as it was: later items do nothing. */
  lemma {:induction false} AbortedStays(urls: seq<string>, env: Env, attempt: Verdicts, k: nat, n: nat)
    requires k <= n <= |urls| && Run(urls, env, attempt, k).aborted
    ensures Run(urls, env, attempt, n) == Run(urls, env, attempt, k)
    decreases n - k
  {
    if n > k {
      AbortedStays(urls, env, attempt, k, n - 1);
    }
  }

  /** The URL an event shows as attempted, if any. */
  function HandledBy(e: Event): seq<string> {
    match e
    case Tried(u, _) => [u]
    case _ => []
  }

  /** The URLs the log shows as attempted, in order. */
  function Handled(log: seq<Event>): seq<string> {
    if log == [] then [] else HandledBy(log[0]) + Handled(log[1..])
  }

  /** The attempted URLs of two stretches of log are those of the first, then those of the second. */
  lemma {:induction false} HandledAppend(a: seq<Event>, b: seq<Event>)
    ensures Handled(a + b) == Handled(a) + Handled(b)
  {
    if a == [] {
      assert a + b == b;
    } else {
      assert (a + b)[0] == a[0];
      assert (a + b)[1..] == a[1..] + b;
      HandledAppend(a[1..], b);
    }
  }

  /** How many of items 1..k raise after being counted (each one restarts the browser). */
  function Escapes(env: Env, k: nat): nat {
    if k == 0 then 0 else Escapes(env, k - 1) + (if env.escapes(k) then 1 else 0)
  }

  /** How many of items 1..k the attempt reports successful. */
  function Successes(urls: seq<string>, attempt: Verdicts, k: nat): (r: nat)
    requires k <= |urls|
    ensures r <= k
  {
    if k == 0 then 0 else Successes(urls, attempt, k - 1) + (if attempt(k, urls[k - 1]).Succeeded() then 1 else 0)
  }

  /** A restart that succeeds adds a driver and leaves counters and attempted URLs alone. */
  lemma RelaunchFacts(st: RunState, env: Env, proactive: bool)
    requires !Relaunch(st, env, proactive).aborted
    ensures var st' := Relaunch(st, env, proactive);
            st'.successful == st.successful && st'.failed == st.failed &&
            st'.drivers == st.drivers + 1 && Handled(st'.log) == Handled(st.log)
  {
    HandledAppend(st.log, [Restart(proactive)]);
  }

  /**
   * The guarded block counts the item as successful exactly when the attempt
   * succeeded and as failed otherwise, and once more as failed when it raises
   * after the count; it attempts its URL once.
   */
  lemma HandleFacts(st: RunState, env: Env, attempt: Verdicts, i: nat, url: string)
    requires !Handle(st, env, attempt, i, url).aborted
    ensures var st' := Handle(st, env, attempt, i, url);
            var won := attempt(i, url).Succeeded();
            var extra := if env.escapes(i) then 1 else 0;
            st'.successful == st.successful + (if won then 1 else 0) &&
            st'.failed == st.failed + (if won then 0 else 1) + extra &&
            st'.drivers == st.drivers + extra &&
            Handled(st'.log) == Handled(st.log) + [url]
  {
    var tried := st.log + [Tried(url, attempt(i, url))];
    HandledAppend(st.log, [Tried(url, attempt(i, url))]);
    if env.escapes(i) {
      HandledAppend(tried, [Raised(url)]);
      HandledAppend(tried + [Raised(url)], [Restart(false)]);
    }
  }

  /** The delay changes neither counters, drivers nor attempted URLs. */
  lemma PaceFacts(st: RunState, i: nat, total: nat)
    ensures var st' := Pace(st, i, total);
            st'.successful == st.successful && st'.failed == st.failed && st'.aborted == st.aborted &&
            st'.drivers == st.drivers && Handled(st'.log) == Handled(st.log)
  {
    HandledAppend(st.log, [Pause]);
  }

  /**
   * One item that does not abort the run: it was not aborted before, the
   * item is counted successful exactly when its attempt succeeded and failed
   * otherwise, and once more as failed when it raises after its count, a
   * driver is added for the cadence restart and for the restart after an
   * exception, and the log attempts this URL.
   */
  lemma StepFacts(st: RunState, env: Env, attempt: Verdicts, i: nat, total: nat, url: string)
    requires !Step(st, env, attempt, i, total, url).aborted
    ensures !st.aborted
    ensures var st' := Step(st, env, attempt, i, total, url);
            var won := attempt(i, url).Succeeded();
            var extra := if env.escapes(i) then 1 else 0;
            st'.successful == st.successful + (if won then 1 else 0) &&
            st'.failed == st.failed + (if won then 0 else 1) + extra &&
            st'.drivers == st.drivers + (if RestartDue(i) then 1 else 0) + extra &&
            Handled(st'.log) == Handled(st.log) + [url]
  {
    var s1 := Cadence(st, env, i);
    if RestartDue(i) {
      RelaunchFacts(st, env, true);
    }
    var s2 := Handle(s1, env, attempt, i, url);
    PaceFacts(s2, i, total);
    HandleFacts(s1, env, attempt, i, url);
  }

  /**
   * A run that has not aborted after `k` items counted as successful exactly
   * the items whose attempt succeeded, as failed the others and, once more,
   * each item that raised after its count, and created one driver at launch,
   * one per due restart and one per exception.
   */
  lemma {:induction false} RunCounts(urls: seq<string>, env: Env, attempt: Verdicts, k: nat)
    requires k <= |urls| && !Run(urls, env, attempt, k).aborted
    ensures Run(urls, env, attempt, k).successful == Successes(urls, attempt, k)
    ensures Run(urls, env, attempt, k).failed == k - Successes(urls, attempt, k) + Escapes(env, k)
    ensures Run(urls, env, attempt, k).drivers == 1 + DueCount(k) + Escapes(env, k)
  {
    if k > 0 {
      StepFacts(Run(urls, env, attempt, k - 1), env, attempt, k, |urls|, urls[k - 1]);
      RunCounts(urls, env, attempt, k - 1);
    }
  }

  /** A run that has not aborted after `k` items attempted exactly the first `k` URLs, once each, in order. */
  lemma {:induction false} RunHandled(urls: seq<string>, env: Env, attempt: Verdicts, k: nat)
    requires k <= |urls| && !Run(urls, env, attempt, k).aborted
    ensures Handled(Run(urls, env, attempt, k).log) == urls[..k]
  {
    if k > 0 {
      var prev := Run(urls, env, attempt, k - 1);
      StepFacts(prev, env, attempt, k, |urls|, urls[k - 1]);
      RunHandled(urls, env, attempt, k - 1);
      assert urls[..k] == urls[..k - 1] + [urls[k - 1]];
    }
  }

  /** How many delays the log holds. */
  function Pauses(log: seq<Event>): nat {
    if log == [] then 0 else (if log[0] == Pause then 1 else 0) + Pauses(log[1..])
  }

  /** Delays in two stretches of log add up. */
  lemma {:induction false} PausesAppend(a: seq<Event>, b: seq<Event>)
    ensures Pauses(a + b) == Pauses(a) + Pauses(b)
  {
    if a == [] {
      assert a + b == b;
    } else {
      assert (a + b)[0] == a[0];
      assert (a + b)[1..] == a[1..] + b;
      PausesAppend(a[1..], b);
    }
  }

  /** An item that does not abort the run adds one delay, unless it is the last. */
  lemma StepPauses(st: RunState, env: Env, attempt: Verdicts, i: nat, total: nat, url: string)
    requires !Step(st, env, attempt, i, total, url).aborted
    ensures Pauses(Step(st, env, attempt, i, total, url).log) == Pauses(st.log) + (if i < total then 1 else 0)
  {
    PausesAppend(st.log, [Restart(true)]);
    var s1 := Cadence(st, env, i);
    var tried := s1.log + [Tried(url, attempt(i, url))];
    PausesAppend(s1.log, [Tried(url, attempt(i, url))]);
    PausesAppend(tried, [Raised(url)]);
    PausesAppend(tried + [Raised(url)], [Restart(false)]);
    PausesAppend(Handle(s1, env, attempt, i, url).log, [Pause]);
  }

  /**
   * A run that has not aborted after `k` of its `n` items paused once after
   * each of them except the last item of the input.
   */
  lemma {:induction false} RunPauses(urls: seq<string>, env: Env, attempt: Verdicts, k: nat)
    requires k <= |urls| && !Run(urls, env, attempt, k).aborted
    ensures Pauses(Run(urls, env, attempt, k).log) == if k == |urls| && k > 0 then k - 1 else k
  {
    if k > 0 {
      StepFacts(Run(urls, env, attempt, k - 1), env, attempt, k, |urls|, urls[k - 1]);
      StepPauses(Run(urls, env, attempt, k - 1), env, attempt, k, |urls|, urls[k - 1]);
      RunPauses(urls, env, attempt, k - 1);
    }
  }

  /**
   * When no driver creation fails, nothing raises after the count and every
   * attempt succeeds, the run never aborts and counts every item successful.
   */
  lemma {:induction false} AllSucceed(urls: seq<string>, env: Env, attempt: Verdicts, k: nat)
    requires k <= |urls|
    requires forall d :: !env.setupFails(d)
    requires forall i: nat :: 1 <= i <= |urls| ==> !env.escapes(i) && attempt(i, urls[i - 1]).Succeeded()
    ensures !Run(urls, env, attempt, k).aborted
    ensures Run(urls, env, attempt, k).successful == k && Run(urls, env, attempt, k).failed == 0
  {
    if k > 0 {
      AllSucceed(urls, env, attempt, k - 1);
      assert !env.escapes(k) && attempt(k, urls[k - 1]).Succeeded();
    }
  }

  /**
   * The summary of a completed run: every URL attempted once; successful
   * counts the successful attempts, failed the others plus once more each
   * item that raised after its count.
   */
  lemma SummaryAddsUp(rows: seq<Row>, env: Env, attempt: Verdicts)
    requires !Run(Urls(rows), env, attempt, |Urls(rows)|).aborted
    ensures var st := Run(Urls(rows), env, attempt, |Urls(rows)|);
            st.successful == Successes(Urls(rows), attempt, |Urls(rows)|) &&
            st.failed == |Urls(rows)| - Successes(Urls(rows), attempt, |Urls(rows)|) + Escapes(env, |Urls(rows)|) &&
            Handled(st.log) == Urls(rows) &&
            st.drivers == 1 + (if Urls(rows) == [] then 0 else (|Urls(rows)| - 1) / RestartEvery) + Escapes(env, |Urls(rows)|)
  {
    var urls := Urls(rows);
    RunCounts(urls, env, attempt, |urls|);
    RunHandled(urls, env, attempt, |urls|);
    DueCountClosedForm(|urls|);
    assert urls[..|urls|] == urls;
  }

  /**
   * A URL without an identifier is attempted with the text "None" as its
   * identifier, so any finished file whose name ends in `None.pdf` makes it
   * count as already downloaded.
   */
  lemma AbsentIdMatchesNone(env: Env, i: nat, url: string, f: FileEntry)
    requires ExtractArkId(url).None? && f in env.world(i).folder(0) && EndsWith(f.name, "None.pdf")
    ensures ItemOutcome(env, i, url) == AlreadyExists
  {
    FirstPdfFinds(env.world(i).folder(0), "None");
  }

  /**
   * The guarded block in terms of the verdict the attempt returned. This is
   * an unfolding of `Handle` for `ProcessItem`'s proof, not a property.
   */
  lemma HandleReturned(st: RunState, env: Env, attempt: Verdicts, i: nat, url: string, outcome: Outcome)
    requires attempt(i, url) == outcome
    ensures var counted := if outcome.Succeeded() then st.(successful := st.successful + 1, log := st.log + [Tried(url, outcome)])
                           else st.(failed := st.failed + 1, log := st.log + [Tried(url, outcome)]);
            Handle(st, env, attempt, i, url) ==
              if env.escapes(i) then Relaunch(counted.(failed := counted.failed + 1, log := counted.log + [Raised(url)]), env, false)
              else counted
  {
  }

  /** The call inside the guarded block: `download_gallica_pdf` for item `i`, with its verdict. */
  method TryItem(env: Env, i: nat, url: string) returns (success: bool, outcome: Outcome)
    ensures outcome == Attempts(env)(i, url)
    ensures success == outcome.Succeeded()
  {
    var report;
    success, report := DownloadPdf(env.world(i), url, IdText(ExtractArkId(url)));
    outcome := report.outcome;
  }

  /**
   * One pass of the loop body: the cadence restart, the guarded block and the
   * delay, on the loop's counters, driver count and log. A failing driver
   * creation stops the pass and marks the run aborted.
   */
  method ProcessItem(st: RunState, env: Env, i: nat, total: nat, url: string) returns (next: RunState)
    requires !st.aborted
    ensures next == Step(st, env, Attempts(env), i, total, url)
  {
    var successful, failed, drivers, log := st.successful, st.failed, st.drivers, st.log;
    if RestartDue(i) {
      log := log + [Restart(true)];
      if env.setupFails(drivers) {
        return RunState(successful, failed, drivers, log, true);
      }
      drivers := drivers + 1;
    }
    ghost var restarted := RunState(successful, failed, drivers, log, false);
    assert restarted == Cadence(st, env, i);
    var success, outcome := TryItem(env, i, url);
    HandleReturned(restarted, env, Attempts(env), i, url, outcome);
    if success {
      successful := successful + 1;
    } else {
      failed := failed + 1;
    }
    log := log + [Tried(url, outcome)];
    if env.escapes(i) {
      failed := failed + 1;
      log := log + [Raised(url)] + [Restart(false)];
      if env.setupFails(drivers) {
        return RunState(successful, failed, drivers, log, true);
      }
      drivers := drivers + 1;
    }
    if i < total {
      log := log + [Pause];
    }
    return RunState(successful, failed, drivers, log, false);
  }

  /**
   * `download_from_csv` with the CSV already read (`None` when the file does
   * not exist): the loop of the source over the URLs, keeping the counters,
   * the driver count and the log, and returning `None` when creating a
   * driver fails.
   */
  method DownloadFromCsv(csv: Option<seq<Row>>, env: Env) returns (summary: Option<Summary>, log: seq<Event>)
    ensures csv.None? ==> summary == None && log == []
    ensures csv.Some? ==>
              var urls := Urls(csv.value);
              var st := Run(urls, env, Attempts(env), |urls|);
              log == st.log &&
              summary == if st.aborted then None else Some(Summary(|urls|, st.successful, st.failed))
  {
    if csv.None? {
      return None, [];
    }
    var urls := Urls(csv.value);
    var total := |urls|;
    if env.setupFails(0) {
      AbortedStays(urls, env, Attempts(env), 0, total);
      return None, [];
    }
    var st := RunState(0, 0, 1, [], false);
    var i := 0;
    while i < total && !st.aborted
      invariant i <= total && st == Run(urls, env, Attempts(env), i)
    {
      st := ProcessItem(st, env, i + 1, total, urls[i]);
      i := i + 1;
    }
    if st.aborted {
      AbortedStays(urls, env, Attempts(env), i, total);
      return None, st.log;
    }
    return Some(Summary(total, st.successful, st.failed)), st.log;
  }
}
