/*
 * The "43 files" check on a folder (F43Check.py): one scan result per
 * required file, the validation verdict built from those results, and
 * the table and CSV rows that show them.  The scan result, the verdict
 * and the rows are shared with the ZIP variant (module F43ZipCheck).
 * The file system is a parameter: `isDir` says whether a path is a
 * folder, `sizeAt` gives a file's size or None when it does not exist.
 */
module F43Check {
  import opened Wrappers
  import opened Seqs
  import opened Text

  /** The basenames checked, in table order (44 of them, although the program calls them 43). */
  const RequiredFiles: seq<string> := [
    "PERSON", "HOME", "VILLAGE", "HOUSE", "DEATH", "SERVICE", "DIAG", "DRUGALLERGY",
    "DRUGIPD", "DRUGOPD", "PROCEDURE_OPD", "PROCEDURE_IPD", "APPOINT", "ACCIDENT", "CHRONIC",
    "CHRONICFU", "DISABILITY", "DENTAL", "EPI", "FP", "LABFU", "ANC", "ANCPOST", "POSTNATAL",
    "NEWBORN", "NEWBORNCARE", "NUTRITION", "PRENATAL", "WELLCHILD", "WOMEN", "CARD",
    "SURVEILLANCE", "VMI", "VDRUG", "ICF", "SMI", "SPECIALPP", "CARE_REDUCE", "ICD10TM",
    "HEALTHSCREEN", "COMMUNITY_SERVICE", "ORALHEALTH", "REHABILITATION", "SENIOR"
  ]

  /** The list holds 44 names. */
  lemma RequiredFilesCount()
    ensures |RequiredFiles| == 44
  {
  }

  /** The error of a file missing from the folder ("file not found"). */
  const NotFound := "ไม่พบไฟล์"
  /** The error of a zero-byte file ("file is empty"). */
  const EmptyFile := "ไฟล์ว่างเปล่า"

  /** One row of `scan_results`; `path` is absent for a ZIP entry. */
  datatype ScanResult = ScanResult(file: string, path: Option<string>, present: bool, size: Option<nat>, errors: seq<string>)

  /** The errors of a file of the given size (None: not found). */
  function Errors(missingError: string, size: Option<nat>): seq<string>
  {
    if size.None? then [missingError] else if size.value == 0 then [EmptyFile] else []
  }

  /** The result for one file, as the scan loop builds it. */
  function ResultFor(file: string, path: Option<string>, size: Option<nat>, missingError: string): ScanResult
  {
    ScanResult(file, path, size.Some?, size, Errors(missingError, size))
  }

  /** A result whose existence flag and errors agree with its size. */
  predicate Classified(r: ScanResult, missingError: string)
  {
    r.present == r.size.Some? &&
    (!r.present ==> r.errors == [missingError]) &&
    (r.present && r.size.value == 0 ==> r.errors == [EmptyFile]) &&
    (r.present && r.size.value > 0 ==> r.errors == [])
  }

  /** Every result the scan builds is classified by its size. */
  lemma ResultClassified(file: string, path: Option<string>, size: Option<nat>, missingError: string)
    ensures Classified(ResultFor(file, path, size, missingError), missingError)
    ensures ResultFor(file, path, size, missingError).size == size
  {
  }

  // ---------------------------------------------------------------------
  // Validation (`on_validate`)
  // ---------------------------------------------------------------------

  predicate IsMissing(r: ScanResult) { !r.present }

  /**
   * `r` is the result for the file `name` of the folder `dir`: its path is
   * the two joined, its size the one `sizeAt` reports for that path, and its
   * flag and errors agree with that size.
   */
  predicate ScannedIn(r: ScanResult, dir: string, name: string, sizeAt: string -> Option<nat>)
  {
    var path := PathJoin(dir, name);
    r.file == name && r.path == Some(path) && r.size == sizeAt(path) && Classified(r, NotFound)
  }

  /** `r['exists'] and (r['size'] or 0) == 0`. */
  predicate IsEmpty(r: ScanResult) { r.present && (r.size.None? || r.size.value == 0) }

  predicate HasErrors(r: ScanResult) { r.errors != [] }

  /** The outcome of a validation: passed, or the messages counting missing and empty files. */
  datatype Verdict = Passed | Failed(messages: seq<string>)

  function VerdictOf(results: seq<ScanResult>): (v: Verdict)
    ensures v.Failed? ==> 1 <= |v.messages| <= 2
  {
    var missing := Count(results, IsMissing);
    var empty := Count(results, IsEmpty);
    var msgs :=
      (if missing > 0 then ["ขาดไฟล์ " + NatToDecimal(missing) + " รายการ"] else []) +
      (if empty > 0 then ["ไฟล์ว่าง " + NatToDecimal(empty) + " รายการ"] else []);
    if msgs == [] then Passed else Failed(msgs)
  }

  /** No element counted is the same as no element satisfying the test. */
  lemma {:induction false} CountZero(s: seq<ScanResult>, p: ScanResult -> bool)
    ensures Count(s, p) == 0 <==> forall i :: 0 <= i < |s| ==> !p(s[i])
  {
    if |s| > 0 {
      CountZero(s[..|s| - 1], p);
      assert forall i :: 0 <= i < |s| - 1 ==> s[..|s| - 1][i] == s[i];
    }
  }

  /**
   * For classified results no file is both missing and empty, and every
   * file with an error is one of the two: the two counts add up to the
   * number of files with errors.
   */
  lemma {:induction false} MissingEmptyPartition(results: seq<ScanResult>, missingError: string)
    requires forall i :: 0 <= i < |results| ==> Classified(results[i], missingError)
    ensures Count(results, IsMissing) + Count(results, IsEmpty) == Count(results, HasErrors)
    ensures forall i :: 0 <= i < |results| ==> !(IsMissing(results[i]) && IsEmpty(results[i]))
  {
    if |results| > 0 {
      MissingEmptyPartition(results[..|results| - 1], missingError);
      var r := results[|results| - 1];
      assert Classified(r, missingError);
    }
  }

  /** Validation passes exactly when no classified result carries an error. */
  lemma VerdictPassIff(results: seq<ScanResult>, missingError: string)
    requires forall i :: 0 <= i < |results| ==> Classified(results[i], missingError)
    ensures VerdictOf(results) == Passed <==> forall i :: 0 <= i < |results| ==> results[i].errors == []
    ensures VerdictOf(results) == Passed <==>
      forall i :: 0 <= i < |results| ==> results[i].size.Some? && results[i].size.value > 0
  {
    MissingEmptyPartition(results, missingError);
    CountZero(results, IsMissing);
    CountZero(results, IsEmpty);
    CountZero(results, HasErrors);
    assert VerdictOf(results) == Passed <==> Count(results, IsMissing) == 0 && Count(results, IsEmpty) == 0;
  }

  // ---------------------------------------------------------------------
  // Rows shown and exported (`_append_row`, `on_export`)
  // ---------------------------------------------------------------------

  const Header: seq<string> := ["file", "exists", "size_bytes", "errors"]

  /** A result's cells, with the errors joined by `sep`. */
  function Cells(r: ScanResult, sep: string): seq<string>
  {
    [r.file, if r.present then "YES" else "NO",
     if r.size.Some? then NatToDecimal(r.size.value) else "",
     if r.errors != [] then Join(sep, r.errors) else ""]
  }

  /** The table row: errors joined by "; ". */
  function TableRow(r: ScanResult): seq<string> { Cells(r, "; ") }

  /** The CSV row: errors joined by ", ". */
  function ExportRow(r: ScanResult): seq<string> { Cells(r, ", ") }

  /**
   * A row gives its result back: the name, YES exactly for an existing
   * file, the size parsed from its digits (blank exactly when there is
   * none), and the single error of a classified result.
   */
  lemma CellsReadBack(r: ScanResult, sep: string, missingError: string)
    requires Classified(r, missingError) && missingError != ""
    ensures var row := Cells(r, sep);
      |row| == 4 && row[0] == r.file && (row[1] == "YES" <==> r.present) &&
      (row[2] == "" <==> r.size.None?) &&
      (r.size.Some? ==> AllDigits(row[2]) && ParseNat(row[2]) == r.size.value) &&
      (row[3] == "" <==> r.errors == []) &&
      (r.errors != [] ==> row[3] == r.errors[0])
  {
    if r.size.Some? {
      ParseNatToDecimal(r.size.value);
    }
  }

  /** The CSV lines: the header, then one row per result; nothing when no scan was made. */
  method ExportLines(results: seq<ScanResult>) returns (lines: Option<seq<seq<string>>>)
    ensures lines.None? <==> results == []
    ensures lines.Some? ==>
      |lines.value| == |results| + 1 && lines.value[0] == Header &&
      forall i :: 0 <= i < |results| ==> lines.value[i + 1] == ExportRow(results[i])
  {
    if results == [] {
      return None;
    }
    var out := [Header];
    for i := 0 to |results|
      invariant |out| == i + 1 && out[0] == Header
      invariant forall j :: 0 <= j < i ==> out[j + 1] == ExportRow(results[j])
    {
      out := out + [ExportRow(results[i])];
    }
    return Some(out);
  }

  // ---------------------------------------------------------------------
  // The folder scan (`on_scan`)
  // ---------------------------------------------------------------------

  /** The file name looked up for a required basename. */
  function FileName(base: string): string { base + ".txt" }

  /** The window's state: the scan results and the table rows that show them. */
  class FolderCheck {
    var requiredFiles: seq<string>
    var scanResults: seq<ScanResult>
    var rows: seq<seq<string>>

    /** The table shows exactly the scan results. */
    ghost predicate Valid()
      reads this
    {
      |rows| == |scanResults| && forall i :: 0 <= i < |rows| ==> rows[i] == TableRow(scanResults[i])
    }

    constructor()
      ensures Valid() && requiredFiles == RequiredFiles && scanResults == [] && rows == []
    {
      requiredFiles := RequiredFiles;
      scanResults := [];
      rows := [];
    }

    /**
     * Scans `folder`.  A blank or non-folder path changes nothing;
     * otherwise the results are replaced by one result per required
     * file, in order, classified by the size `sizeAt` reports.
     */
    method Scan(folder: string, isDir: string -> bool, sizeAt: string -> Option<nat>)
      requires Valid()
      modifies this
      ensures Valid() && requiredFiles == old(requiredFiles)
      ensures Strip(folder) == "" || !isDir(Strip(folder)) ==> scanResults == old(scanResults)
      ensures Strip(folder) != "" && isDir(Strip(folder)) ==>
        |scanResults| == |requiredFiles| &&
        forall i :: 0 <= i < |requiredFiles| ==>
          ScannedIn(scanResults[i], Strip(folder), FileName(requiredFiles[i]), sizeAt)
    {
      var dir := Strip(folder);
      if dir == "" || !isDir(dir) {
        return;
      }
      var files := requiredFiles;
      var results: seq<ScanResult> := [];
      var table: seq<seq<string>> := [];
      for i := 0 to |files|
        invariant |results| == |table| == i && requiredFiles == files
        invariant forall j :: 0 <= j < i ==> table[j] == TableRow(results[j])
        invariant forall j :: 0 <= j < i ==> ScannedIn(results[j], dir, FileName(files[j]), sizeAt)
      {
        var fname := FileName(files[i]);
        var fpath := PathJoin(dir, fname);
        var r := ResultFor(fname, Some(fpath), sizeAt(fpath), NotFound);
        ResultClassified(fname, Some(fpath), sizeAt(fpath), NotFound);
        assert ScannedIn(r, dir, fname, sizeAt);
        results := results + [r];
        table := table + [TableRow(r)];
      }
      scanResults := results;
      rows := table;
    }

    /**
     * Validates the last scan, scanning first when there is none; None
     * when there is still nothing to validate.
     */
    method Validate(folder: string, isDir: string -> bool, sizeAt: string -> Option<nat>)
      returns (v: Option<Verdict>)
      requires Valid()
      modifies this
      ensures Valid() && requiredFiles == old(requiredFiles)
      ensures old(scanResults) != [] ==> scanResults == old(scanResults) && rows == old(rows)
      ensures v.None? <==> scanResults == []
      ensures v.Some? ==> v.value == VerdictOf(scanResults)
    {
      if scanResults == [] {
        Scan(folder, isDir, sizeAt);
        if scanResults == [] {
          return None;
        }
      }
      return Some(VerdictOf(scanResults));
    }
  }

  /**
   * A validation after a scan of a real folder passes exactly when every
   * required file is present and non-empty.
   */
  lemma ScanVerdict(results: seq<ScanResult>, sizes: seq<Option<nat>>)
    requires |results| == |sizes|
    requires forall i :: 0 <= i < |results| ==> results[i].size == sizes[i] && Classified(results[i], NotFound)
    ensures VerdictOf(results) == Passed <==> forall i :: 0 <= i < |sizes| ==> sizes[i].Some? && sizes[i].value > 0
  {
    VerdictPassIff(results, NotFound);
  }
}
