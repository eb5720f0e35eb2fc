/**
 * The download folder as the downloader sees it: a listing of file names and
 * sizes, searched with the glob patterns `*{id}.pdf` (a finished document),
 * `*{id}*.crdownload` (Chrome's partial file for it) and `*.crdownload` (any
 * partial file), plus the final wait for partial files to disappear.
 */
module Directory {
  import opened Wrappers
  import opened Text

  datatype FileEntry = FileEntry(name: string, size: nat)

  /** One reading of the folder, in the order the glob yields the files. */
  type Listing = seq<FileEntry>

  const PdfSuffix := ".pdf"
  const PartialSuffix := ".crdownload"

  /** The name matches `*{id}.pdf`. */
  predicate IsPdfOf(name: string, id: string) {
    EndsWith(name, id + PdfSuffix)
  }

  /** The name matches `*.crdownload`. */
  predicate IsPartial(name: string) {
    EndsWith(name, PartialSuffix)
  }

  /** The name matches `*{id}*.crdownload`: the id occurs before the suffix. */
  predicate IsPartialOf(name: string, id: string) {
    IsPartial(name) && Contains(name[..|name| - |PartialSuffix|], id)
  }

  /** A name matches `*{id}.pdf` exactly when it is some prefix followed by the id and `.pdf`. */
  lemma PdfOfMatchesGlob(name: string, id: string)
    ensures IsPdfOf(name, id) <==> exists p :: name == p + id + PdfSuffix
  {
    if IsPdfOf(name, id) {
      var p := name[..|name| - |id + PdfSuffix|];
      assert name == p + (id + PdfSuffix);
      assert name == p + id + PdfSuffix;
    }
    if exists p :: name == p + id + PdfSuffix {
      var p :| name == p + id + PdfSuffix;
      assert name[|name| - |id + PdfSuffix|..] == id + PdfSuffix;
    }
  }

  /**
   * A name matches `*{id}*.crdownload` exactly when it is some prefix, the
   * id, some infix and `.crdownload`.
   */
  lemma PartialOfMatchesGlob(name: string, id: string)
    ensures IsPartialOf(name, id) <==> exists p, q :: name == p + id + q + PartialSuffix
  {
    if IsPartialOf(name, id) {
      var stem := name[..|name| - |PartialSuffix|];
      var i :| OccursAt(stem, id, i);
      var p, q := stem[..i], stem[i + |id|..];
      assert stem == p + id + q;
      assert name == stem + PartialSuffix;
    }
    if exists p, q :: name == p + id + q + PartialSuffix {
      var p, q :| name == p + id + q + PartialSuffix;
      var stem := name[..|name| - |PartialSuffix|];
      assert stem == p + id + q;
      assert OccursAt(stem, id, |p|);
    }
  }

  /**
   * `existing_files[0]` for `existing_files = list(glob("*{id}.pdf"))`: the
   * first finished document for `id`, or `None` when the glob finds nothing.
   */
  function FirstPdf(l: Listing, id: string): Option<FileEntry> {
    if l == [] then None
    else if IsPdfOf(l[0].name, id) then Some(l[0])
    else FirstPdf(l[1..], id)
  }

  /**
   * `FirstPdf` finds nothing exactly when no name matches, and otherwise the
   * entry at the first matching position.
   */
  lemma {:induction false} FirstPdfFinds(l: Listing, id: string)
    ensures FirstPdf(l, id).None? <==> forall i :: 0 <= i < |l| ==> !IsPdfOf(l[i].name, id)
    ensures FirstPdf(l, id).Some? ==>
              exists i :: 0 <= i < |l| && l[i] == FirstPdf(l, id).value && IsPdfOf(l[i].name, id) &&
                          forall j :: 0 <= j < i ==> !IsPdfOf(l[j].name, id)
  {
    if l != [] && !IsPdfOf(l[0].name, id) {
      FirstPdfFinds(l[1..], id);
      var r := FirstPdf(l[1..], id);
      if r.Some? {
        var i :| 0 <= i < |l[1..]| && l[1..][i] == r.value && IsPdfOf(l[1..][i].name, id) &&
                 forall j :: 0 <= j < i ==> !IsPdfOf(l[1..][j].name, id);
        assert l[i + 1] == r.value;
        forall j | 0 <= j < i + 1 ensures !IsPdfOf(l[j].name, id) {
          if j > 0 { assert l[j] == l[1..][j - 1]; }
        }
      } else {
        forall i | 0 <= i < |l| ensures !IsPdfOf(l[i].name, id) {
          if i > 0 { assert l[i] == l[1..][i - 1]; }
        }
      }
    } else if l != [] {
      assert l[0] == FirstPdf(l, id).value;
    }
  }

  /** `glob("*{id}*.crdownload")` finds something. */
  predicate HasPartialOf(l: Listing, id: string) {
    exists i :: 0 <= i < |l| && IsPartialOf(l[i].name, id)
  }

  /** `glob("*.crdownload")` finds nothing. */
  predicate Settled(l: Listing) {
    forall i :: 0 <= i < |l| ==> !IsPartial(l[i].name)
  }

  /**
   * `path.stat().st_size` for a file found earlier: the size of the entry
   * with that name, or `None` when it is gone (`stat` raises).
   */
  function SizeOf(l: Listing, name: string): Option<nat> {
    if l == [] then None
    else if l[0].name == name then Some(l[0].size)
    else SizeOf(l[1..], name)
  }

  /** `SizeOf` fails exactly when no entry has the name, and otherwise reports a size the listing holds. */
  lemma {:induction false} SizeOfFinds(l: Listing, name: string)
    ensures SizeOf(l, name).None? <==> forall i :: 0 <= i < |l| ==> l[i].name != name
    ensures SizeOf(l, name).Some? ==> FileEntry(name, SizeOf(l, name).value) in l
  {
    if l != [] && l[0].name != name {
      SizeOfFinds(l[1..], name);
      forall i | 0 < i < |l| ensures l[i] == l[1..][i - 1] { }
    }
  }

  /** The probe made after `k` sleeps of 2 s found no partial file. */
  predicate SettledAtProbe(folder: int -> Listing, k: nat) {
    Settled(folder(2 * k))
  }

  /**
   * `wait_for_downloads`: probe the folder every 2 s (time counted in whole
   * seconds from the call) while fewer than `timeout` seconds have passed;
   * succeed at the first probe that finds no `*.crdownload` file.
   */
  method WaitForDownloads(folder: int -> Listing, timeout: int) returns (done: bool, elapsed: nat)
    ensures done <==> exists k: nat :: 2 * k < timeout && SettledAtProbe(folder, k)
    ensures done ==> elapsed < timeout && elapsed % 2 == 0 && Settled(folder(elapsed))
    ensures done ==> forall k: nat :: 2 * k < elapsed ==> !SettledAtProbe(folder, k)
    ensures !done ==> elapsed >= timeout
  {
    elapsed := 0;
    while elapsed < timeout
      invariant elapsed % 2 == 0
      invariant forall k: nat :: 2 * k < elapsed ==> !SettledAtProbe(folder, k)
    {
      if Settled(folder(elapsed)) {
        assert SettledAtProbe(folder, elapsed / 2);
        return true, elapsed;
      }
      assert !SettledAtProbe(folder, elapsed / 2);
      elapsed := elapsed + 2;
    }
    return false, elapsed;
  }
}
