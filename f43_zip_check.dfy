/*
 * The "43 files" check on a ZIP archive (F43ZipCheck.py): archive
 * entries are indexed by their upper-cased basename, each required file
 * is looked up as `BASE.TXT`, and the results, verdict and rows are
 * those of module F43Check.  The archive is a parameter: None stands
 * for a file that cannot be opened as a ZIP archive.
 */
module F43ZipCheck {
  import opened Wrappers
  import opened Seqs
  import opened Text
  import opened F43Check

  /** The error of a file missing from the archive ("file not found in ZIP"). */
  const NotInZip := "ไม่พบไฟล์ใน ZIP"

  /** The entry names of an archive (`namelist()`) and each name's uncompressed size. */
  datatype Archive = Archive(names: seq<string>, sizes: map<string, nat>)

  /** Every listed name has an entry record, as in any archive `zipfile` opens. */
  predicate Listed(a: Archive)
  {
    forall i :: 0 <= i < |a.names| ==> a.names[i] in a.sizes
  }

  predicate IsSep(c: char) { c == '/' || c == '\\' }

  /** `os.path.basename` with Windows separators: what follows the last separator. */
  function Basename(n: string): (b: string)
    ensures forall k :: 0 <= k < |b| ==> !IsSep(b[k])
    ensures EndsWith(n, b)
    ensures |n| > 0 && IsSep(n[|n| - 1]) ==> b == ""
  {
    if |n| == 0 then ""
    else if IsSep(n[|n| - 1]) then ""
    else
      var init := n[..|n| - 1];
      var b := Basename(init);
      assert init[|init| - |b|..] + [n[|n| - 1]] == n[|n| - |b| - 1..];
      b + [n[|n| - 1]]
  }

  /** The key a name is filed under; directory entries (empty basename) have none. */
  predicate HasKey(n: string, k: string)
  {
    Basename(n) != "" && Upper(Basename(n)) == k
  }

  /** `by_name`: upper-cased basename to size, a later entry overwriting an earlier one. */
  function ByName(names: seq<string>, sizes: map<string, nat>): map<string, nat>
    requires forall i :: 0 <= i < |names| ==> names[i] in sizes
  {
    if |names| == 0 then map[]
    else
      var n := names[|names| - 1];
      var m := ByName(names[..|names| - 1], sizes);
      if Basename(n) == "" then m else m[Upper(Basename(n)) := sizes[n]]
  }

  /** A key that is present was filed by some entry. */
  lemma {:induction false} ByNameFiledBy(names: seq<string>, sizes: map<string, nat>, k: string) returns (j: nat)
    requires forall i :: 0 <= i < |names| ==> names[i] in sizes
    requires k in ByName(names, sizes)
    ensures j < |names| && HasKey(names[j], k)
  {
    var n := names[|names| - 1];
    if HasKey(n, k) {
      j := |names| - 1;
    } else {
      var init := names[..|names| - 1];
      j := ByNameFiledBy(init, sizes, k);
      assert init[j] == names[j];
    }
  }

  /** The key of every entry with a basename is present. */
  lemma {:induction false} ByNameFiles(names: seq<string>, sizes: map<string, nat>, j: nat)
    requires forall i :: 0 <= i < |names| ==> names[i] in sizes
    requires j < |names| && Basename(names[j]) != ""
    ensures Upper(Basename(names[j])) in ByName(names, sizes)
  {
    if j < |names| - 1 {
      var init := names[..|names| - 1];
      assert init[j] == names[j];
      ByNameFiles(init, sizes, j);
    }
  }

  /** A key is present exactly when some entry is filed under it. */
  lemma ByNameKeys(names: seq<string>, sizes: map<string, nat>, k: string)
    requires forall i :: 0 <= i < |names| ==> names[i] in sizes
    ensures k in ByName(names, sizes) <==> exists j :: 0 <= j < |names| && HasKey(names[j], k)
  {
    if k in ByName(names, sizes) {
      var j := ByNameFiledBy(names, sizes, k);
    }
    if exists j :: 0 <= j < |names| && HasKey(names[j], k) {
      var j :| 0 <= j < |names| && HasKey(names[j], k);
      ByNameFiles(names, sizes, j);
    }
  }

  /** The size filed under a key is that of the last entry filed under it. */
  lemma {:induction false} ByNameLastWins(names: seq<string>, sizes: map<string, nat>, j: nat)
    requires forall i :: 0 <= i < |names| ==> names[i] in sizes
    requires j < |names| && Basename(names[j]) != ""
    requires forall i :: j < i < |names| ==> !HasKey(names[i], Upper(Basename(names[j])))
    ensures Upper(Basename(names[j])) in ByName(names, sizes)
    ensures ByName(names, sizes)[Upper(Basename(names[j]))] == sizes[names[j]]
  {
    var init := names[..|names| - 1];
    if j < |init| {
      assert init[j] == names[j];
      assert forall i :: j < i < |init| ==> init[i] == names[i];
      ByNameLastWins(init, sizes, j);
    }
  }

  /** Keys are upper-cased: none holds a lower-case ASCII letter. */
  lemma {:induction false} ByNameKeysUpper(names: seq<string>, sizes: map<string, nat>)
    requires forall i :: 0 <= i < |names| ==> names[i] in sizes
    ensures forall k :: k in ByName(names, sizes) ==> forall c :: 0 <= c < |k| ==> !IsLowerAscii(k[c])
  {
    if |names| > 0 {
      ByNameKeysUpper(names[..|names| - 1], sizes);
    }
  }

  /** `by_name.get(BASE.TXT) or by_name.get(BASE.txt)`: the size found for a required basename. */
  function Lookup(byName: map<string, nat>, base: string): Option<nat>
  {
    if base + ".TXT" in byName then Some(byName[base + ".TXT"])
    else if base + ".txt" in byName then Some(byName[base + ".txt"])
    else None
  }

  /**
   * The lower-case alternative never matches, so the lookup is exactly
   * a search for the upper-cased `BASE.TXT`: an entry is found whatever
   * the case of its name and whatever folder of the archive holds it.
   */
  lemma LookupUpperOnly(names: seq<string>, sizes: map<string, nat>, base: string)
    requires forall i :: 0 <= i < |names| ==> names[i] in sizes
    ensures base + ".txt" !in ByName(names, sizes)
    ensures Lookup(ByName(names, sizes), base).Some? <==>
      exists j :: 0 <= j < |names| && HasKey(names[j], base + ".TXT")
  {
    ByNameKeysUpper(names, sizes);
    var alt := base + ".txt";
    assert IsLowerAscii(alt[|base| + 1]);
    ByNameKeys(names, sizes, base + ".TXT");
  }

  /** Builds `by_name` entry by entry. */
  method BuildIndex(a: Archive) returns (byName: map<string, nat>)
    requires Listed(a)
    ensures byName == ByName(a.names, a.sizes)
  {
    byName := map[];
    for i := 0 to |a.names|
      invariant byName == ByName(a.names[..i], a.sizes)
    {
      assert a.names[..i + 1][..i] == a.names[..i];
      var base := Basename(a.names[i]);
      if base != "" {
        byName := byName[Upper(base) := a.sizes[a.names[i]]];
      }
    }
    assert a.names[..|a.names|] == a.names;
  }

  /** The file name reported for a required basename. */
  function EntryName(base: string): string { base + ".TXT" }

  /**
   * The loop of `scan_zip` over the required files: one result per file,
   * in order, holding the size the index gives for it, and the table row
   * that shows it.
   */
  method ScanRequired(required: seq<string>, byName: map<string, nat>)
    returns (results: seq<ScanResult>, shown: seq<seq<string>>)
    ensures |results| == |required| && |shown| == |required|
    ensures forall j :: 0 <= j < |required| ==> shown[j] == TableRow(results[j])
    ensures forall j :: 0 <= j < |required| ==>
      results[j].file == EntryName(required[j]) && results[j].path.None? &&
      results[j].size == Lookup(byName, required[j]) &&
      Classified(results[j], NotInZip)
  {
    results := [];
    shown := [];
    for i := 0 to |required|
      invariant |results| == i && |shown| == i
      invariant forall j :: 0 <= j < i ==> shown[j] == TableRow(results[j])
      invariant forall j :: 0 <= j < i ==>
        results[j].file == EntryName(required[j]) && results[j].path.None? &&
        results[j].size == Lookup(byName, required[j]) &&
        Classified(results[j], NotInZip)
    {
      var fname := EntryName(required[i]);
      var size := Lookup(byName, required[i]);
      var r := ResultFor(fname, None, size, NotInZip);
      ResultClassified(fname, None, size, NotInZip);
      results := results + [r];
      shown := shown + [TableRow(r)];
    }
  }

  /** The window's state: the scan results and the table rows that show them. */
  class ZipCheck {
    var requiredFiles: seq<string>
    var scanResults: seq<ScanResult>
    var rows: seq<seq<string>>

    ghost predicate Valid()
      reads this
    {
      |rows| == |scanResults| && forall i :: 0 <= i < |rows| ==> rows[i] == TableRow(scanResults[i])
    }

    constructor()
      ensures Valid() && requiredFiles == RequiredFiles && scanResults == [] && rows == []
    {
      requiredFiles := RequiredFiles;
      scanResults := [];
      rows := [];
    }

    /**
     * Scans the archive at `zipPath`.  A blank path, a path that is not
     * a file, or an archive that cannot be read changes nothing;
     * otherwise the results are replaced by one result per required file,
     * in order, with the size the index gives for `BASE.TXT`.
     */
    method Scan(zipPath: string, isFile: string -> bool, archive: Option<Archive>)
      requires Valid()
      requires archive.Some? ==> Listed(archive.value)
      modifies this
      ensures Valid() && requiredFiles == old(requiredFiles)
      ensures Strip(zipPath) == "" || !isFile(Strip(zipPath)) || archive.None? ==>
        scanResults == old(scanResults) && rows == old(rows)
      ensures Strip(zipPath) != "" && isFile(Strip(zipPath)) && archive.Some? ==>
        |scanResults| == |requiredFiles| &&
        forall i :: 0 <= i < |requiredFiles| ==>
          scanResults[i].file == EntryName(requiredFiles[i]) && scanResults[i].path.None? &&
          scanResults[i].size == Lookup(ByName(archive.value.names, archive.value.sizes), requiredFiles[i]) &&
          Classified(scanResults[i], NotInZip)
    {
      var path := Strip(zipPath);
      if path == "" || !isFile(path) || archive.None? {
        return;
      }
      var byName := BuildIndex(archive.value);
      var results, shown := ScanRequired(requiredFiles, byName);
      scanResults, rows := results, shown;
      assert byName == ByName(archive.value.names, archive.value.sizes);
    }

    /** Validates the last scan, scanning first when there is none; None when there is still nothing. */
    method Validate(zipPath: string, isFile: string -> bool, archive: Option<Archive>)
      returns (v: Option<Verdict>)
      requires Valid()
      requires archive.Some? ==> Listed(archive.value)
      modifies this
      ensures Valid() && requiredFiles == old(requiredFiles)
      ensures old(scanResults) != [] ==> scanResults == old(scanResults) && rows == old(rows)
      ensures v.None? <==> scanResults == []
      ensures v.Some? ==> v.value == VerdictOf(scanResults)
    {
      if scanResults == [] {
        Scan(zipPath, isFile, archive);
        if scanResults == [] {
          return None;
        }
      }
      return Some(VerdictOf(scanResults));
    }
  }

  /**
   * A validation after a scan of a readable archive passes exactly when
   * every required `BASE.TXT` is in the archive and non-empty.
   */
  lemma ZipScanVerdict(results: seq<ScanResult>, a: Archive, required: seq<string>)
    requires Listed(a) && |results| == |required|
    requires forall i :: 0 <= i < |results| ==>
      results[i].size == Lookup(ByName(a.names, a.sizes), required[i]) && Classified(results[i], NotInZip)
    ensures VerdictOf(results) == Passed <==>
      forall i :: 0 <= i < |required| ==>
        EntryName(required[i]) in ByName(a.names, a.sizes) &&
        ByName(a.names, a.sizes)[EntryName(required[i])] > 0
  {
    VerdictPassIff(results, NotInZip);
    forall i | 0 <= i < |required|
      ensures results[i].size.Some? <==> EntryName(required[i]) in ByName(a.names, a.sizes)
    {
      LookupUpperOnly(a.names, a.sizes, required[i]);
    }
  }
}
