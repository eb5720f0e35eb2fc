/**
 * One download attempt (`download_gallica_pdf`): skip when the PDF is already
 * in the folder, navigate to the landing page and then to the direct PDF URL,
 * give up on a page that looks like an error or login wall, wait up to 15 s
 * for the download to start, then up to 600 s for the finished PDF to stop
 * growing. The browser and the folder are an oracle (`World`); time is whole
 * seconds since the attempt began, advanced by the source's sleeps.
 */
module Attempt {
  import opened Wrappers
  import opened Directory
  import opened BlockCheck

  /** What `driver.title` and `driver.page_source` return after the PDF URL. */
  datatype Page = Page(title: string, source: string)

  /** Everything the attempt observes and cannot control. */
  datatype World = World(
    folder: int -> Listing,              // the download folder at each second
    navError: string -> Option<string>,  // the exception `driver.get(url)` raises, if any
    page: Option<Page>,                  // None when reading the title or the source raises
    settle: nat)                         // the randomized 3-5 s pause after the landing page

  /** The exceptions that reach the attempt's catch-all handler. */
  datatype Fault =
    | NavigationFailed(url: string, text: string)
    | FileVanished(name: string)         // `stat` on a PDF that was deleted or renamed

  /** The terminal outcomes of one attempt. */
  datatype Outcome =
    | AlreadyExists
    | NotDownloadable
    | DidNotStart
    | Completed(size: nat)
    | TimedOut
    | Failed(fault: Fault)
  {
    /** The boolean half of the `(success, message)` pair. */
    predicate Succeeded() {
      AlreadyExists? || Completed?
    }

    /** The message half of the `(success, message)` pair. */
    function Message(): string {
      match this
      case AlreadyExists => "Already exists"
      case NotDownloadable => "Link not directly downloadable (authentication/payment required)"
      case DidNotStart => "Download did not start (link not directly downloadable)"
      case Completed(_) => "Download complete"
      case TimedOut => "Download timeout or failed"
      case Failed(NavigationFailed(_, text)) => "Error: " + text
      case Failed(FileVanished(name)) => "Error: " + "[Errno 2] No such file or directory: '" + name + "'"
    }
  }

  /** Every error message starts with "E". */
  lemma ErrorMessageInitial(f: Fault)
    ensures |Failed(f).Message()| > 0 && Failed(f).Message()[0] == 'E'
  {
    match f
    case NavigationFailed(_, text) =>
      assert Failed(f).Message() == "Error: " + text;
    case FileVanished(name) =>
      assert Failed(f).Message() == "Error: " + "[Errno 2] No such file or directory: '" + name + "'";
  }

  /**
   * The two halves of the returned pair agree: the flag is `True` exactly
   * for the messages "Already exists" and "Download complete".
   */
  lemma SuccessIffMessage(o: Outcome)
    ensures o.Succeeded() <==> o.Message() == "Already exists" || o.Message() == "Download complete"
  {
    // a failure message differs from both success messages in its length or its first character
    match o
    case NotDownloadable => assert |o.Message()| == 64;
    case DidNotStart => assert |o.Message()| == 55;
    case TimedOut => assert |o.Message()| == 26;
    case Failed(f) => ErrorMessageInitial(f);
    case _ =>
  }



  /**
   * The result of an attempt together with what it did: the URLs it sent the
   * browser to, whether it reached the start poll, and when it ended.
   */
  datatype Attempt = Attempt(outcome: Outcome, visited: seq<string>, polled: bool, elapsed: int)

  const PageSettle: nat := 3               // `time.sleep(3)` after the PDF URL
  const StartWindow: nat := 15             // `initial_wait`
  const StartInterval: nat := 1
  const CompletionWindow: nat := 600       // `max_wait`
  const Recheck: nat := 5                  // each of the two size re-checks
  const CompletionInterval: nat := 3
  const MinSize: nat := 1000               // bytes a finished PDF must exceed

  /** The direct download URL built from the identifier text. */
  function PdfUrl(id: string): string {
    "https://gallica.bnf.fr/ark:/12148/" + id + ".pdf"
  }

  /** A probe of the start window sees a partial or a finished file for `id`. */
  predicate StartSeen(l: Listing, id: string) {
    HasPartialOf(l, id) || FirstPdf(l, id).Some?
  }

  predicate SeenAt(w: World, id: string, t: int) {
    StartSeen(w.folder(t), id)
  }

  /**
   * The start window opened at `begin`, from its `k`-th probe on: the time of
   * the first probe that sees the download, or None when none does.
   */
  function StartPoll(w: World, id: string, begin: int, k: nat): Option<int>
    decreases StartWindow - k
  {
    if k >= StartWindow then None
    else if SeenAt(w, id, begin + k) then Some(begin + k)
    else StartPoll(w, id, begin, k + StartInterval)
  }

  /** How the completion window ends. */
  datatype Poll = Stable(size: nat, at: int) | Vanished(name: string, at: int) | Expired(at: int) {
    function At(): int {
      match this
      case Stable(_, at) => at
      case Vanished(_, at) => at
      case Expired(at) => at
    }
  }

  /** How one pass of the completion loop ends. */
  datatype Pass =
    | Again(wait: nat)                 // no PDF yet, or its size moved or is too small: sleep and go round
    | Gone(name: string, at: int)      // the PDF vanished before a re-check
    | Done(size: nat, at: int)         // three equal readings over 1000 bytes

  /**
   * One pass starting at `t`: read the first finished PDF's size, read it
   * again 5 s later and, when it is unchanged and over 1000 bytes, once more
   * 5 s after that. A pass that goes round has slept 3, 8 or 13 s in all.
   */
  function PassAt(w: World, id: string, t: int): (r: Pass)
    ensures r.Again? ==> r.wait == CompletionInterval || r.wait == Recheck + CompletionInterval || r.wait == Overrun
    ensures r.Gone? ==> r.at == t + Recheck || r.at == t + 2 * Recheck
    ensures r.Done? ==> r.at == t + 2 * Recheck
  {
    match FirstPdf(w.folder(t), id)
    case None => Again(CompletionInterval)
    case Some(f) =>
      match SizeOf(w.folder(t + Recheck), f.name)
      case None => Gone(f.name, t + Recheck)
      case Some(newSize) =>
        if newSize == f.size && f.size > MinSize then
          match SizeOf(w.folder(t + 2 * Recheck), f.name)
          case None => Gone(f.name, t + 2 * Recheck)
          case Some(finalSize) =>
            if finalSize == newSize then Done(f.size, t + 2 * Recheck)
            else Again(2 * Recheck + CompletionInterval)
        else Again(Recheck + CompletionInterval)
  }

  /**
   * The completion window opened at `begin`, from `e` seconds in: passes run
   * while fewer than 600 s have passed; the first that does not go round
   * ends the window.
   */
  function CompletionPoll(w: World, id: string, begin: int, e: nat): Poll
    decreases CompletionWindow - e
  {
    if e >= CompletionWindow then Expired(begin + e)
    else
      match PassAt(w, id, begin + e)
      case Again(wait) => CompletionPoll(w, id, begin, e + wait)
      case Gone(name, at) => Vanished(name, at)
      case Done(size, at) => Stable(size, at)
  }

  /** The attempt gets past the existence check, both navigations and the block test. */
  predicate ReachesPolling(w: World, url: string, id: string) {
    FirstPdf(w.folder(0), id).None? &&
    w.navError(url).None? &&
    w.navError(PdfUrl(id)).None? &&
    !(w.page.Some? && Blocked(w.page.value.title, w.page.value.source))
  }

  /** When the start window opens: after the settle pause and the 3 s page wait. */
  function PollStart(w: World): int {
    w.settle + PageSettle
  }

  /** The whole attempt, as a function of what it observes. */
  function AttemptSpec(w: World, url: string, id: string): Attempt {
    var pdfUrl := PdfUrl(id);
    if FirstPdf(w.folder(0), id).Some? then
      Attempt(AlreadyExists, [], false, 0)
    else if w.navError(url).Some? then
      Attempt(Failed(NavigationFailed(url, w.navError(url).value)), [url], false, 0)
    else if w.navError(pdfUrl).Some? then
      Attempt(Failed(NavigationFailed(pdfUrl, w.navError(pdfUrl).value)), [url, pdfUrl], false, w.settle)
    else if w.page.Some? && Blocked(w.page.value.title, w.page.value.source) then
      Attempt(NotDownloadable, [url, pdfUrl], false, PollStart(w))
    else
      var (outcome, at) := Polled(w, id, PollStart(w));
      Attempt(outcome, [url, pdfUrl], true, at)
  }

  /** The start window, then the completion window, from `begin`: how the attempt ends, and when. */
  function Polled(w: World, id: string, begin: int): (Outcome, int) {
    match StartPoll(w, id, begin, 0)
    case None => (DidNotStart, begin + StartWindow)
    case Some(started) =>
      match CompletionPoll(w, id, started, 0)
      case Stable(size, at) => (Completed(size), at)
      case Vanished(name, at) => (Failed(FileVanished(name)), at)
      case Expired(at) => (TimedOut, at)
  }

  /** `download_gallica_pdf`, step by step with the source's two polling loops. */
  method DownloadPdf(w: World, url: string, id: string) returns (success: bool, report: Attempt)
    ensures report == AttemptSpec(w, url, id)
    ensures success == report.outcome.Succeeded()
  {
    var t := 0;
    if FirstPdf(w.folder(t), id).Some? {
      return true, Attempt(AlreadyExists, [], false, t);
    }
    var visited := [url];
    var error := w.navError(url);
    if error.Some? {
      return false, Attempt(Failed(NavigationFailed(url, error.value)), visited, false, t);
    }
    t := t + w.settle;
    var pdfUrl := PdfUrl(id);
    visited := visited + [pdfUrl];
    error := w.navError(pdfUrl);
    if error.Some? {
      return false, Attempt(Failed(NavigationFailed(pdfUrl, error.value)), visited, false, t);
    }
    t := t + PageSettle;
    if w.page.Some? {
      var blocked := FindIndicator(w.page.value.title, w.page.value.source);
      if blocked {
        return false, Attempt(NotDownloadable, visited, false, t);
      }
    }

    var outcome, at := AwaitDownload(w, id, t);
    return outcome.Succeeded(), Attempt(outcome, visited, true, at);
  }

  /** The start loop, then the completion loop, from `begin`: how the attempt ends, and when. */
  method AwaitDownload(w: World, id: string, begin: int) returns (outcome: Outcome, at: int)
    ensures (outcome, at) == Polled(w, id, begin)
  {
    var downloadStarted, t := AwaitStart(w, id, begin);
    if !downloadStarted {
      return DidNotStart, t;
    }
    var poll := AwaitCompletion(w, id, t);
    match poll
    case Stable(size, end) => return Completed(size), end;
    case Vanished(name, end) => return Failed(FileVanished(name)), end;
    case Expired(end) => return TimedOut, end;
  }

  /**
   * The start loop: one probe a second while fewer than 15 s have passed
   * since `begin`; stops at the first probe that sees the download.
   */
  method AwaitStart(w: World, id: string, begin: int) returns (downloadStarted: bool, t: int)
    ensures StartPoll(w, id, begin, 0) == if downloadStarted then Some(t) else None
    ensures !downloadStarted ==> t == begin + StartWindow
  {
    downloadStarted := false;
    t := begin;
    while t - begin < StartWindow
      invariant begin <= t <= begin + StartWindow
      invariant StartPoll(w, id, begin, 0) == StartPoll(w, id, begin, t - begin)
    {
      if StartSeen(w.folder(t), id) {
        downloadStarted := true;
        return;
      }
      t := t + StartInterval;
    }
  }

  /**
   * The completion loop, from `begin`: how it ends, and when. A file that
   * disappears between two size readings makes `stat` raise.
   */
  method AwaitCompletion(w: World, id: string, begin: int) returns (poll: Poll)
    ensures poll == CompletionPoll(w, id, begin, 0)
  {
    var t := begin;
    while t - begin < CompletionWindow
      invariant begin <= t
      invariant CompletionPoll(w, id, begin, 0) == CompletionPoll(w, id, begin, t - begin)
    {
      var existing := FirstPdf(w.folder(t), id);
      if existing.Some? {
        var file := existing.value;
        var fileSize := file.size;
        t := t + Recheck;
        var newSize := SizeOf(w.folder(t), file.name);
        if newSize.None? {
          return Vanished(file.name, t);
        }
        if newSize.value == fileSize && fileSize > MinSize {
          t := t + Recheck;
          var finalSize := SizeOf(w.folder(t), file.name);
          if finalSize.None? {
            return Vanished(file.name, t);
          }
          if finalSize.value == newSize.value {
            return Stable(fileSize, t);
          }
        }
      }
      t := t + CompletionInterval;
    }
    return Expired(t);
  }

  /**
   * The start window reports the first second at which a partial or finished
   * file is seen, and nothing exactly when no probe in the window sees one.
   */
  lemma {:induction false} StartPollFirst(w: World, id: string, begin: int, k: nat)
    ensures StartPoll(w, id, begin, k).None? <==>
              forall t :: begin + k <= t < begin + StartWindow ==> !SeenAt(w, id, t)
    ensures StartPoll(w, id, begin, k).Some? ==>
              var t := StartPoll(w, id, begin, k).value;
              begin + k <= t < begin + StartWindow && SeenAt(w, id, t) &&
              forall u :: begin + k <= u < t ==> !SeenAt(w, id, u)
    decreases StartWindow - k
  {
    if k < StartWindow && !SeenAt(w, id, begin + k) {
      StartPollFirst(w, id, begin, k + StartInterval);
    }
  }

  /** A download seen by the start window is seen inside it. */
  lemma {:induction false} StartPollWithin(w: World, id: string, begin: int, k: nat)
    ensures StartPoll(w, id, begin, k).Some? ==> begin + k <= StartPoll(w, id, begin, k).value < begin + StartWindow
    decreases StartWindow - k
  {
    if k < StartWindow && !SeenAt(w, id, begin + k) {
      StartPollWithin(w, id, begin, k + StartInterval);
    }
  }

  /**
   * The first finished PDF at `t` read the same size, over 1000 bytes, at `t`,
   * `t + 5` and `t + 10`.
   */
  predicate SteadyAt(w: World, id: string, t: int, size: nat) {
    match FirstPdf(w.folder(t), id)
    case None => false
    case Some(f) =>
      f.size == size && size > MinSize &&
      SizeOf(w.folder(t + Recheck), f.name) == Some(size) &&
      SizeOf(w.folder(t + 2 * Recheck), f.name) == Some(size)
  }

  /** A pass ends `Done` only on three equal readings over 1000 bytes of the first PDF. */
  lemma DoneIsSteady(w: World, id: string, t: int)
    ensures PassAt(w, id, t).Done? ==> PassAt(w, id, t).size > MinSize && SteadyAt(w, id, t, PassAt(w, id, t).size)
  {
  }

  /**
   * The completion window ends `Stable` only through a pass that began inside
   * it, 10 s before, and ended `Done`.
   */
  lemma {:induction false} StableFromPass(w: World, id: string, begin: int, e: nat)
    ensures var p := CompletionPoll(w, id, begin, e);
            p.Stable? ==>
              begin + e <= p.at - 2 * Recheck < begin + CompletionWindow &&
              PassAt(w, id, p.at - 2 * Recheck) == Done(p.size, p.at)
    decreases CompletionWindow - e
  {
    if e < CompletionWindow && PassAt(w, id, begin + e).Again? {
      StableFromPass(w, id, begin, e + PassAt(w, id, begin + e).wait);
    }
  }

  /** The longest pass: two re-checks and a sleep. */
  const Overrun: nat := 2 * Recheck + CompletionInterval

  /** The latest end of a completion window, from its opening: a longest pass begun at 599 s. */
  const LastPassEnd: nat := CompletionWindow - 1 + Overrun

  /**
   * The completion window ends no earlier than it started and at most 612 s
   * after it opened, and it expires only once 600 s have passed.
   */
  lemma {:induction false} CompletionBounded(w: World, id: string, begin: int, e: nat)
    requires e <= LastPassEnd
    ensures begin + e <= CompletionPoll(w, id, begin, e).At() <= begin + LastPassEnd
    ensures CompletionPoll(w, id, begin, e).Expired? ==>
              CompletionPoll(w, id, begin, e).At() >= begin + CompletionWindow
    decreases CompletionWindow - e
  {
    if e < CompletionWindow && PassAt(w, id, begin + e).Again? {
      CompletionBounded(w, id, begin, e + PassAt(w, id, begin + e).wait);
    }
  }

  /** With no finished PDF anywhere in the window, it runs out. */
  lemma {:induction false} NoPdfExpires(w: World, id: string, begin: int, e: nat)
    requires forall t :: begin + e <= t < begin + CompletionWindow ==> FirstPdf(w.folder(t), id).None?
    ensures CompletionPoll(w, id, begin, e).Expired?
    decreases CompletionWindow - e
  {
    if e < CompletionWindow {
      NoPdfExpires(w, id, begin, e + CompletionInterval);
    }
  }

  /**
   * A finished PDF already in the folder is reported as existing, with the
   * browser never sent anywhere; no other situation gives that outcome.
   */
  lemma ExistingPdfSkips(w: World, url: string, id: string)
    ensures var a := AttemptSpec(w, url, id);
            (a.outcome == AlreadyExists <==> FirstPdf(w.folder(0), id).Some?) &&
            (a.outcome == AlreadyExists ==> a.visited == [] && !a.polled && a.outcome.Succeeded())
  {
  }

  /**
   * The block test short-circuits: the attempt ends `NotDownloadable` exactly
   * when both navigations succeed and the readable page shows an indicator,
   * and then no polling happens. A page that cannot be read never blocks.
   */
  lemma BlockShortCircuits(w: World, url: string, id: string)
    ensures var a := AttemptSpec(w, url, id);
            (a.outcome == NotDownloadable <==>
               FirstPdf(w.folder(0), id).None? && w.navError(url).None? && w.navError(PdfUrl(id)).None? &&
               w.page.Some? && Blocked(w.page.value.title, w.page.value.source)) &&
            (a.outcome == NotDownloadable ==> !a.polled && a.visited == [url, PdfUrl(id)] && !a.outcome.Succeeded())
  {
  }

  /**
   * Once polling is reached, the attempt reports that the download did not
   * start exactly when no probe of the 15 s window sees a partial or finished file.
   */
  lemma NoStartIffSilent(w: World, url: string, id: string)
    requires ReachesPolling(w, url, id)
    ensures AttemptSpec(w, url, id).outcome == DidNotStart <==>
              forall t :: PollStart(w) <= t < PollStart(w) + StartWindow ==> !SeenAt(w, id, t)
  {
    StartPollFirst(w, id, PollStart(w), 0);
  }

  /**
   * Polling from `begin` ends `Stable` only on three equal readings, over
   * 1000 bytes, of a file that neither grew nor was small, taken no earlier
   * than `begin`.
   */
  lemma PollingStableIsSteady(w: World, id: string, begin: int)
    ensures var started := StartPoll(w, id, begin, 0);
            started.Some? && CompletionPoll(w, id, started.value, 0).Stable? ==>
              var p := CompletionPoll(w, id, started.value, 0);
              p.size > MinSize &&
              exists t :: begin <= t && SteadyAt(w, id, t, p.size) && !GrowsAt(w, id, t) && !SmallAt(w, id, t)
  {
    var started := StartPoll(w, id, begin, 0);
    if started.Some? {
      var p := CompletionPoll(w, id, started.value, 0);
      if p.Stable? {
        StartPollWithin(w, id, begin, 0);
        StableFromPass(w, id, started.value, 0);
        var t := p.at - 2 * Recheck;
        DoneIsSteady(w, id, t);
        SteadyIsNeither(w, id, t, p.size);
        assert begin <= t && SteadyAt(w, id, t, p.size);
      }
    }
  }

  /** Success by completion needs three equal readings, over 1000 bytes, after polling began. */
  lemma CompletedIsSteady(w: World, url: string, id: string)
    ensures var a := AttemptSpec(w, url, id);
            a.outcome.Completed? ==>
              a.outcome.size > MinSize && a.polled &&
              exists t :: PollStart(w) <= t && SteadyAt(w, id, t, a.outcome.size) &&
                          !GrowsAt(w, id, t) && !SmallAt(w, id, t)
  {
    PollingStableIsSteady(w, id, PollStart(w));
  }

  /** The first finished PDF at `t` changed size, or vanished, by the first re-check. */
  predicate GrowsAt(w: World, id: string, t: int) {
    match FirstPdf(w.folder(t), id)
    case None => true
    case Some(f) => SizeOf(w.folder(t + Recheck), f.name) != Some(f.size)
  }

  /** Three equal readings over 1000 bytes mean the file neither grew nor was small. */
  lemma SteadyIsNeither(w: World, id: string, t: int, size: nat)
    requires SteadyAt(w, id, t, size)
    ensures !GrowsAt(w, id, t) && !SmallAt(w, id, t)
  {
  }

  /** A file that keeps growing is never reported complete. */
  lemma GrowingNeverCompletes(w: World, url: string, id: string)
    requires forall t :: GrowsAt(w, id, t)
    ensures !AttemptSpec(w, url, id).outcome.Completed?
  {
    CompletedIsSteady(w, url, id);
  }

  /** Every finished PDF ever seen is at most 1000 bytes (or there is none). */
  predicate SmallAt(w: World, id: string, t: int) {
    match FirstPdf(w.folder(t), id)
    case None => true
    case Some(f) => f.size <= MinSize
  }

  /** A PDF of at most 1000 bytes is never reported complete. */
  lemma SmallNeverCompletes(w: World, url: string, id: string)
    requires forall t :: SmallAt(w, id, t)
    ensures !AttemptSpec(w, url, id).outcome.Completed?
  {
    CompletedIsSteady(w, url, id);
  }

  /** A timeout is reported only after the whole 600 s completion window. */
  lemma TimeoutAfterWindow(w: World, url: string, id: string)
    ensures var a := AttemptSpec(w, url, id);
            a.outcome == TimedOut ==> a.polled && a.elapsed >= PollStart(w) + CompletionWindow
  {
    if ReachesPolling(w, url, id) {
      StartPollWithin(w, id, PollStart(w), 0);
      var started := StartPoll(w, id, PollStart(w), 0);
      if started.Some? {
        CompletionBounded(w, id, started.value, 0);
      }
    }
  }

  /** Polling that sees the download start but never sees a finished PDF runs out the window. */
  lemma PollingStalls(w: World, id: string, begin: int, seen: int)
    requires begin <= seen < begin + StartWindow && SeenAt(w, id, seen)
    requires forall t :: FirstPdf(w.folder(t), id).None?
    ensures StartPoll(w, id, begin, 0).Some? && CompletionPoll(w, id, StartPoll(w, id, begin, 0).value, 0).Expired?
  {
    StartPollFirst(w, id, begin, 0);
    NoPdfExpires(w, id, StartPoll(w, id, begin, 0).value, 0);
  }

  /** A download that starts as a partial file but never turns into a PDF times out. */
  lemma StalledPartialTimesOut(w: World, url: string, id: string, seen: int)
    requires ReachesPolling(w, url, id)
    requires PollStart(w) <= seen < PollStart(w) + StartWindow && SeenAt(w, id, seen)
    requires forall t :: FirstPdf(w.folder(t), id).None?
    ensures AttemptSpec(w, url, id).outcome == TimedOut
  {
    PollingStalls(w, id, PollStart(w), seen);
  }

  /**
   * Every wait is bounded: an attempt ends at most 629 s after the settle
   * pause (3 s page wait, 14 s of start probes, 612 s of completion polling).
   */
  lemma AttemptIsBounded(w: World, url: string, id: string)
    ensures 0 <= AttemptSpec(w, url, id).elapsed <= w.settle + PageSettle + StartWindow - 1 + LastPassEnd
  {
    if ReachesPolling(w, url, id) {
      StartPollWithin(w, id, PollStart(w), 0);
      var started := StartPoll(w, id, PollStart(w), 0);
      if started.Some? {
        CompletionBounded(w, id, started.value, 0);
      }
    }
  }
}
