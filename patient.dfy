/*
 * The bookkeeping of the patient-rights window (Patient.py): the layout
 * of the result table, the (row, cid) list a rights check walks, the
 * extraction of the new right type and card number from an API answer,
 * the batched lookup that ticks the rows already checked today, the
 * death UPDATE statement, the once-only retry after a token refresh and
 * the truncated debug preview.  Qt items are modelled by the `Item`
 * datatype; the database and the HTTP service are parameters.
 */
module Patient {
  import opened Wrappers
  import opened Seqs
  import opened Text

  // ---------------------------------------------------------------------
  // Table layout (`_populate_table`)
  // ---------------------------------------------------------------------

  /** Python `list.index(x)`, with -1 standing for the ValueError the source turns into -1. */
  function IndexOf<T(==)>(s: seq<T>, x: T): (r: int)
    ensures -1 <= r < |s|
    ensures r == -1 <==> x !in s
    ensures r >= 0 ==> s[r] == x && x !in s[..r]
  {
    if |s| == 0 then -1
    else if s[0] == x then 0
    else
      var k := IndexOf(s[1..], x);
      if k == -1 then -1
      else
        assert s[..k + 1] == [s[0]] + s[1..][..k];
        k + 1
  }

  /** An index holding `x` with no `x` before it is the one `IndexOf` finds. */
  lemma IndexOfFirst<T>(s: seq<T>, x: T, i: nat)
    requires i < |s| && s[i] == x && x !in s[..i]
    ensures IndexOf(s, x) == i
  {
  }

  const CheckHeader := "check"
  const NewTypeHeader := "pttype_new"
  const NewNoHeader := "pttype_no_new"

  /** The header row: a checkbox column, the query's columns, then the two columns the check fills. */
  function TableHeaders(headers: seq<string>): seq<string>
  {
    [CheckHeader] + headers + [NewTypeHeader, NewNoHeader]
  }

  /** The remembered column indices (`cid_col`, `pttype_new_col`, `pttype_no_new_col`). */
  datatype Layout = Layout(cidCol: int, newTypeCol: int, newNoCol: int)

  /**
   * The columns of the table built for `headers`.  The cid column is -1
   * exactly when the query has no `cid` column, and otherwise sits one
   * to the right of the query's first `cid`; the two new columns are
   * found at the end unless the query already has a column of that name,
   * in which case its first occurrence is used.
   */
  function LayoutOf(headers: seq<string>): (l: Layout)
    ensures l.cidCol == -1 <==> "cid" !in headers
    ensures l.cidCol != -1 ==>
      1 <= l.cidCol <= |headers| && headers[l.cidCol - 1] == "cid" && "cid" !in headers[..l.cidCol - 1]
    ensures 1 <= l.newTypeCol <= |headers| + 1
    ensures l.newTypeCol == |headers| + 1 <==> NewTypeHeader !in headers
    ensures 1 <= l.newNoCol <= |headers| + 2
    ensures l.newNoCol == |headers| + 2 <==> NewNoHeader !in headers
  {
    var h := TableHeaders(headers);
    HeaderColumn(headers, "cid");
    HeaderColumn(headers, NewTypeHeader);
    HeaderColumn(headers, NewNoHeader);
    Layout(IndexOf(h, "cid"), IndexOf(h, NewTypeHeader), IndexOf(h, NewNoHeader))
  }

  /** Where a name other than `check` lands in the header row. */
  lemma HeaderColumn(headers: seq<string>, name: string)
    requires name != CheckHeader
    ensures var h := TableHeaders(headers); var r := IndexOf(h, name);
      (r == -1 <==> name !in headers + [NewTypeHeader, NewNoHeader]) &&
      (name in headers ==> 1 <= r <= |headers| && headers[r - 1] == name && name !in headers[..r - 1]) &&
      (name !in headers && name == NewTypeHeader ==> r == |headers| + 1) &&
      (name !in headers && name == NewNoHeader ==> r == |headers| + 2)
  {
    var h := TableHeaders(headers);
    assert h[0] == CheckHeader;
    if name in headers {
      var j := IndexOf(headers, name);
      assert h[j + 1] == headers[j];
      assert h[..j + 1] == [CheckHeader] + headers[..j];
      IndexOfFirst(h, name, j + 1);
    } else if name == NewTypeHeader {
      assert h[|headers| + 1] == NewTypeHeader;
      assert h[..|headers| + 1] == [CheckHeader] + headers;
      IndexOfFirst(h, name, |headers| + 1);
    } else if name == NewNoHeader {
      assert h[|headers| + 2] == NewNoHeader;
      assert h[..|headers| + 2] == [CheckHeader] + headers + [NewTypeHeader];
      IndexOfFirst(h, name, |headers| + 2);
    } else {
      assert name !in h;
    }
  }

  /** A table cell: the unchecked checkbox of column 0, or a text item. */
  datatype Item = CheckBox(checked: bool) | Cell(text: string)

  /** The text shown for a query value: nothing for SQL NULL, otherwise its `str()`. */
  function CellText(v: Option<string>): string
  {
    if v.None? then "" else v.value
  }

  /** `items` is the table row shown for the query row `r`. */
  predicate ShowsRow(r: seq<Option<string>>, items: seq<Item>)
  {
    |items| == |r| + 3 && items[0] == CheckBox(false) &&
    (forall i :: 0 <= i < |r| ==> items[i + 1] == Cell(CellText(r[i]))) &&
    items[|r| + 1] == Cell("") && items[|r| + 2] == Cell("")
  }

  /** One table row: an unchecked box, one cell per value, two empty cells for the new right. */
  method BuildRow(r: seq<Option<string>>) returns (items: seq<Item>)
    ensures ShowsRow(r, items)
  {
    items := [CheckBox(false)];
    for i := 0 to |r|
      invariant |items| == i + 1 && items[0] == CheckBox(false)
      invariant forall j :: 0 <= j < i ==> items[j + 1] == Cell(CellText(r[j]))
    {
      items := items + [Cell(CellText(r[i]))];
    }
    items := items + [Cell(""), Cell("")];
  }

  /** The whole table: the layout of the header row and one shown row per query row. */
  method PopulateTable(headers: seq<string>, rows: seq<seq<Option<string>>>)
    returns (layout: Layout, table: seq<seq<Item>>)
    ensures layout == LayoutOf(headers)
    ensures |table| == |rows|
    ensures forall k :: 0 <= k < |rows| ==> ShowsRow(rows[k], table[k])
  {
    layout := LayoutOf(headers);
    table := [];
    for k := 0 to |rows|
      invariant |table| == k
      invariant forall j :: 0 <= j < k ==> ShowsRow(rows[j], table[j])
    {
      var items := BuildRow(rows[k]);
      table := table + [items];
    }
  }

  // ---------------------------------------------------------------------
  // The rows a rights check walks (`check_rights`)
  // ---------------------------------------------------------------------

  /** Row numbers strictly increase along the list. */
  predicate Ascending(rows: seq<(nat, string)>)
  {
    forall i, j :: 0 <= i < j < |rows| ==> rows[i].0 < rows[j].0
  }

  lemma {:induction false} FilterAscending(s: seq<(nat, string)>, keep: ((nat, string)) -> bool)
    requires Ascending(s)
    ensures Ascending(Filter(s, keep))
  {
    if |s| > 0 {
      var init := s[..|s| - 1];
      assert Ascending(init);
      FilterAscending(init, keep);
      var f := Filter(init, keep);
      forall x | x in f ensures x.0 < s[|s| - 1].0 {
        var k :| 0 <= k < |init| && init[k] == x;
        assert s[k] == x;
      }
    }
  }

  /** The resume filter: with a positive start only rows at or after it are kept, in order. */
  function ResumeFrom(rows: seq<(nat, string)>, start: int): (r: seq<(nat, string)>)
    ensures forall p :: p in r <==> p in rows && (start > 0 ==> p.0 >= start)
    ensures Ascending(rows) ==> Ascending(r)
  {
    if start > 0 then
      var r := Filter(rows, (p: (nat, string)) => p.0 >= start);
      if Ascending(rows) then FilterAscending(rows, (p: (nat, string)) => p.0 >= start); r
      else r
    else rows
  }

  /**
   * The (proxy row, cid) pairs to check, given the cid cell of every
   * proxy row: rows with an empty cid are skipped, rows before a positive
   * resume position are dropped, and row order is kept.
   */
  method CollectRows(cells: seq<string>, resumeFrom: int) returns (rows: seq<(nat, string)>)
    ensures Ascending(rows)
    ensures forall p :: p in rows ==>
      p.0 < |cells| && cells[p.0] == p.1 && p.1 != "" && (resumeFrom > 0 ==> p.0 >= resumeFrom)
    ensures forall i :: 0 <= i < |cells| && cells[i] != "" && (resumeFrom > 0 ==> i >= resumeFrom) ==>
      (i, cells[i]) in rows
  {
    rows := [];
    for i := 0 to |cells|
      invariant Ascending(rows)
      invariant forall p :: p in rows ==> p.0 < i && cells[p.0] == p.1 && p.1 != ""
      invariant forall j :: 0 <= j < i && cells[j] != "" ==> (j, cells[j]) in rows
    {
      if cells[i] != "" {
        rows := rows + [(i, cells[i])];
      }
    }
    rows := ResumeFrom(rows, resumeFrom);
  }

  // ---------------------------------------------------------------------
  // The new right from an API answer (`RightsWorker.run`)
  // ---------------------------------------------------------------------

  /**
   * A decoded JSON value.  Every value carries the text Python's `str()`
   * gives for it; numbers and booleans are `Other`, with their truth value.
   */
  datatype Json =
    | Null
    | Str(s: string)
    | Obj(fields: map<string, Json>, repr: string)
    | List(items: seq<Json>, repr: string)
    | Other(repr: string, truthy: bool)

  predicate Truthy(v: Json)
  {
    match v
    case Null => false
    case Str(s) => s != ""
    case Obj(m, _) => |m| > 0
    case List(items, _) => |items| > 0
    case Other(_, t) => t
  }

  /** Python `str(v)`. */
  function StrOf(v: Json): string
  {
    match v
    case Null => "None"
    case Str(s) => s
    case Obj(_, r) => r
    case List(_, r) => r
    case Other(r, _) => r
  }

  /** Python `d.get(k)` on a dictionary. */
  function Get(d: map<string, Json>, k: string): Json
  {
    if k in d then d[k] else Null
  }

  /** Python `a or b`. */
  function Or(a: Json, b: Json): Json
  {
    if Truthy(a) then a else b
  }

  /** `str(sub.get('id') or sub.get('name') or "")`. */
  function IdOrName(sub: map<string, Json>): string
  {
    StrOf(Or(Or(Get(sub, "id"), Get(sub, "name")), Str("")))
  }

  /** The type given at the top level, or "" when there is none. */
  function TopType(data: map<string, Json>): string
  {
    var top := Or(Get(data, "subinscl"), Get(data, "subInscl"));
    if !Truthy(top) then ""
    else if top.Obj? then IdOrName(top.fields)
    else StrOf(top)
  }

  /** The card number given at the top level, or "". */
  function TopNo(data: map<string, Json>): string
  {
    var card := Or(Get(data, "cardId"), Get(data, "cardID"));
    if Truthy(card) then StrOf(card) else ""
  }

  /** `funds[0]` when `funds` is a non-empty list: itself if a dictionary, else an empty one. */
  function FirstFund(data: map<string, Json>): Option<map<string, Json>>
  {
    var funds := if "funds" in data then data["funds"] else List([], "[]");
    if funds.List? && |funds.items| > 0 then
      Some(if funds.items[0].Obj? then funds.items[0].fields else map[])
    else None
  }

  /** The type taken from the first fund: its `subInscl` dictionary's id or name. */
  function FundType(f0: map<string, Json>): string
  {
    var sub := Get(f0, "subInscl");
    if sub.Obj? && Truthy(sub) then IdOrName(sub.fields) else ""
  }

  /** The card number taken from the first fund. */
  function FundNo(f0: map<string, Json>): string
  {
    StrOf(Or(Or(Get(f0, "cardId"), Get(f0, "cardID")), Str("")))
  }

  /** The (new type, new number) pair written to the two new columns. */
  function Rights(data: map<string, Json>): (r: (string, string))
  {
    var t := TopType(data);
    var n := TopNo(data);
    var f := FirstFund(data);
    if (t == "" || n == "") && f.Some? then
      (if t == "" then FundType(f.value) else t, if n == "" then FundNo(f.value) else n)
    else (t, n)
  }

  /**
   * Top-level values win: a non-empty top-level type or number is the one
   * reported, whatever the funds say, and the first fund is consulted for
   * a field only when the top level leaves it empty.
   */
  lemma RightsPreferTopLevel(data: map<string, Json>)
    ensures TopType(data) != "" ==> Rights(data).0 == TopType(data)
    ensures TopNo(data) != "" ==> Rights(data).1 == TopNo(data)
    ensures TopType(data) == "" ==>
      Rights(data).0 == (if FirstFund(data).Some? then FundType(FirstFund(data).value) else "")
    ensures TopNo(data) == "" ==>
      Rights(data).1 == (if FirstFund(data).Some? then FundNo(FirstFund(data).value) else "")
  {
  }

  /** Replacing the funds never changes a top-level answer. */
  lemma RightsFundsIrrelevant(data: map<string, Json>, funds: Json)
    requires TopType(data) != "" && TopNo(data) != ""
    ensures Rights(data["funds" := funds]) == Rights(data)
  {
    var d := data["funds" := funds];
    assert "funds" !in ["subinscl", "subInscl", "cardId", "cardID"];
    assert Get(d, "subinscl") == Get(data, "subinscl");
    assert Get(d, "subInscl") == Get(data, "subInscl");
    assert Get(d, "cardId") == Get(data, "cardId");
    assert Get(d, "cardID") == Get(data, "cardID");
  }

  /** A dictionary `subinscl` reports its id in preference to its name. */
  lemma TopTypePrefersId(data: map<string, Json>, sub: map<string, Json>)
    requires Get(data, "subinscl").Obj? && Get(data, "subinscl").fields == sub && |sub| > 0
    ensures Truthy(Get(sub, "id")) ==> TopType(data) == StrOf(sub["id"])
    ensures !Truthy(Get(sub, "id")) && Truthy(Get(sub, "name")) ==> TopType(data) == StrOf(sub["name"])
    ensures !Truthy(Get(sub, "id")) && !Truthy(Get(sub, "name")) ==> TopType(data) == ""
  {
  }

  // ---------------------------------------------------------------------
  // Ticking the rows checked today (`_mark_checked_today_in_view`)
  // ---------------------------------------------------------------------

  /**
   * `cids` lists the distinct non-empty cids of the first `i` proxy rows
   * in order of first appearance (the keys of `cid_rows` so far).
   */
  ghost predicate SeenCids(cells: seq<string>, i: nat, cids: seq<string>)
  {
    (forall j :: 0 <= j < i && j < |cells| && cells[j] != "" ==> cells[j] in cids) &&
    (forall a :: 0 <= a < |cids| ==> cids[a] != "" && 0 <= IndexOf(cells, cids[a]) < i) &&
    (forall a, b :: 0 <= a < b < |cids| ==> IndexOf(cells, cids[a]) < IndexOf(cells, cids[b]))
  }

  /** `rowsOf` maps each cid of the first `i` rows to the rows that show it. */
  ghost predicate RowsOfCids(cells: seq<string>, i: nat, rowsOf: map<string, seq<nat>>)
  {
    (forall c, r: nat :: c in rowsOf ==> (r in rowsOf[c] <==> r < i && r < |cells| && cells[r] == c)) &&
    (forall c, r :: c in rowsOf && r in rowsOf[c] ==> r < i && r < |cells|)
  }

  lemma SeenSkip(cells: seq<string>, i: nat, cids: seq<string>)
    requires i < |cells| && (cells[i] == "" || cells[i] in cids) && SeenCids(cells, i, cids)
    ensures SeenCids(cells, i + 1, cids)
  {
  }

  lemma SeenNew(cells: seq<string>, i: nat, cids: seq<string>)
    requires i < |cells| && cells[i] != "" && cells[i] !in cids && SeenCids(cells, i, cids)
    ensures SeenCids(cells, i + 1, cids + [cells[i]])
  {
    var c := cells[i];
    var after := cids + [c];
    assert c !in cells[..i] by {
      forall j | 0 <= j < i ensures cells[..i][j] != c {
        if cells[j] != "" {
          assert cells[j] in cids;
        }
      }
    }
    IndexOfFirst(cells, c, i);
    assert forall a :: 0 <= a < |cids| ==> after[a] == cids[a];
  }

  lemma RowsAdd(cells: seq<string>, i: nat, rowsOf: map<string, seq<nat>>, rs: seq<nat>)
    requires i < |cells| && RowsOfCids(cells, i, rowsOf)
    requires cells[i] in rowsOf ==> rs == rowsOf[cells[i]]
    requires cells[i] !in rowsOf ==> rs == [] && forall r :: 0 <= r < i ==> cells[r] != cells[i]
    ensures RowsOfCids(cells, i + 1, rowsOf[cells[i] := rs + [i]])
  {
  }

  /** One pass of the `cid_rows` loop: `cid_rows.setdefault(cid, []).append(i)` for a non-empty cid. */
  method AddRow(cells: seq<string>, i: nat, cids: seq<string>, rowsOf: map<string, seq<nat>>)
    returns (cids': seq<string>, rowsOf': map<string, seq<nat>>)
    requires i < |cells|
    requires forall c :: c in rowsOf <==> c in cids
    requires SeenCids(cells, i, cids) && RowsOfCids(cells, i, rowsOf)
    ensures forall c :: c in rowsOf' <==> c in cids'
    ensures SeenCids(cells, i + 1, cids') && RowsOfCids(cells, i + 1, rowsOf')
  {
    var c := cells[i];
    if c == "" {
      SeenSkip(cells, i, cids);
      return cids, rowsOf;
    }
    var rs := if c in rowsOf then rowsOf[c] else [];
    if c in rowsOf {
      SeenSkip(cells, i, cids);
      cids' := cids;
    } else {
      forall r | 0 <= r < i ensures cells[r] != c {
        if cells[r] != "" {
          assert cells[r] in cids;
        }
      }
      SeenNew(cells, i, cids);
      cids' := cids + [c];
    }
    RowsAdd(cells, i, rowsOf, rs);
    rowsOf' := rowsOf[c := rs + [i]];
  }

  /**
   * `cid_rows`: the distinct non-empty cids in order of first appearance,
   * each with the proxy rows that show it.
   */
  method GroupRows(cells: seq<string>) returns (cids: seq<string>, rowsOf: map<string, seq<nat>>)
    ensures forall c :: c in rowsOf <==> c in cids
    ensures forall c :: c in cids <==> c in cells && c != ""
    ensures forall a, b :: 0 <= a < b < |cids| ==> IndexOf(cells, cids[a]) < IndexOf(cells, cids[b])
    ensures forall c, r: nat :: c in rowsOf ==> (r in rowsOf[c] <==> r < |cells| && cells[r] == c)
  {
    cids := [];
    rowsOf := map[];
    for i := 0 to |cells|
      invariant forall c :: c in rowsOf <==> c in cids
      invariant SeenCids(cells, i, cids) && RowsOfCids(cells, i, rowsOf)
    {
      cids, rowsOf := AddRow(cells, i, cids, rowsOf);
    }
    forall c | c in cids ensures c in cells && c != "" {
      var a :| 0 <= a < |cids| && cids[a] == c;
    }
  }

  /** The batch size of the `srm_check` lookup. */
  const ChunkSize := 500

  /** `cids[i:i+500]` for `i` in `range(0, len(cids), 500)`. */
  method Chunks(cids: seq<string>) returns (chunks: seq<seq<string>>)
    ensures Flatten(chunks) == cids
    ensures forall k :: 0 <= k < |chunks| ==> 0 < |chunks[k]| <= ChunkSize
    ensures forall k :: 0 <= k < |chunks| - 1 ==> |chunks[k]| == ChunkSize
  {
    chunks := [];
    var i := 0;
    while i < |cids|
      invariant i == ChunkSize * |chunks|
      invariant Flatten(chunks) == cids[..if i < |cids| then i else |cids|]
      invariant forall k :: 0 <= k < |chunks| ==> 0 < |chunks[k]| <= ChunkSize
      invariant forall k :: 0 <= k < |chunks| - 1 ==> |chunks[k]| == ChunkSize
      invariant i < |cids| && |chunks| > 0 ==> |chunks[|chunks| - 1]| == ChunkSize
    {
      var end := if i + ChunkSize < |cids| then i + ChunkSize else |cids|;
      var chunk := cids[i..end];
      FlattenSnoc(chunks, chunk);
      assert cids[..i] + cids[i..end] == cids[..end];
      chunks := chunks + [chunk];
      i := i + ChunkSize;
    }
    assert cids[..|cids|] == cids;
  }

  /**
   * The cids the chunked queries report as checked today, for a table
   * `checkedOn` saying which cids have an `srm_check` row dated today.
   */
  method CheckedToday(chunks: seq<seq<string>>, checkedOn: string -> bool) returns (checked: set<string>)
    ensures forall c :: c in checked <==> c in Flatten(chunks) && checkedOn(c)
  {
    checked := {};
    for k := 0 to |chunks|
      invariant forall c :: c in checked <==> c in Flatten(chunks[..k]) && checkedOn(c)
    {
      assert chunks[..k + 1] == chunks[..k] + [chunks[k]];
      FlattenSnoc(chunks[..k], chunks[k]);
      var answered := set c | c in chunks[k] && checkedOn(c);
      checked := checked + answered;
    }
    assert chunks[..|chunks|] == chunks;
  }

  /** Ticking every row of `rows`. */
  method TickEach(ticked: set<nat>, rows: seq<nat>) returns (t: set<nat>)
    ensures forall r: nat :: r in t <==> r in ticked || r in rows
  {
    t := ticked;
    for j := 0 to |rows|
      invariant forall r: nat :: r in t <==> r in ticked || r in rows[..j]
    {
      assert rows[..j + 1] == rows[..j] + [rows[j]];
      t := t + {rows[j]};
    }
    assert rows[..|rows|] == rows;
  }

  /** The tick loop over `cid_rows`: the rows of every cid found in `checked`. */
  method TickChecked(cells: seq<string>, cids: seq<string>, rowsOf: map<string, seq<nat>>, checked: set<string>)
    returns (ticked: set<nat>)
    requires forall c :: c in rowsOf <==> c in cids
    requires forall c, r: nat :: c in rowsOf ==> (r in rowsOf[c] <==> r < |cells| && cells[r] == c)
    ensures forall r: nat :: r in ticked <==> r < |cells| && cells[r] in cids && cells[r] in checked
  {
    ticked := {};
    for k := 0 to |cids|
      invariant forall r: nat :: r in ticked <==> r < |cells| && cells[r] in cids[..k] && cells[r] in checked
    {
      var c := cids[k];
      assert cids[..k + 1] == cids[..k] + [c];
      if c in checked {
        ticked := TickEach(ticked, rowsOf[c]);
      }
    }
    assert cids[..|cids|] == cids;
  }

  /**
   * The rows whose checkbox ends up ticked: exactly the rows with a
   * non-empty cid that the table records as checked today.
   */
  method MarkCheckedToday(cells: seq<string>, checkedOn: string -> bool) returns (ticked: set<nat>)
    ensures forall r: nat :: r in ticked <==> r < |cells| && cells[r] != "" && checkedOn(cells[r])
  {
    ticked := {};
    if |cells| == 0 {
      return;
    }
    var cids, rowsOf := GroupRows(cells);
    assert forall r :: 0 <= r < |cells| ==> cells[r] in cells;
    if |rowsOf| == 0 {
      return;
    }
    var chunks := Chunks(cids);
    var checked := CheckedToday(chunks, checkedOn);
    if checked == {} {
      return;
    }
    ticked := TickChecked(cells, cids, rowsOf, checked);
  }

  // ---------------------------------------------------------------------
  // Recording a death (`_update_patient_death_from_api`)
  // ---------------------------------------------------------------------

  /** A parameterised statement and its parameters. */
  datatype Update = Update(sql: string, params: seq<string>)

  /** The SET clauses, the last two only when the table has those columns. */
  function SetClauses(hasLastupdate: bool, hasLastUnderscoreUpdate: bool): (sets: seq<string>)
    ensures |sets| >= 2 && sets[0] == "death='Y'" && sets[1] == "deathday=%s"
    ensures "lastupdate=NOW()" in sets <==> hasLastupdate
    ensures "last_update=NOW()" in sets <==> hasLastUnderscoreUpdate
    ensures |sets| == 2 + (if hasLastupdate then 1 else 0) + (if hasLastUnderscoreUpdate then 1 else 0)
  {
    ["death='Y'", "deathday=%s"]
      + (if hasLastupdate then ["lastupdate=NOW()"] else [])
      + (if hasLastUnderscoreUpdate then ["last_update=NOW()"] else [])
  }

  /** The date as stored: the stripped text, cut to its first 10 characters. */
  function DeathDay(date: string): (dd: string)
    ensures |dd| == if |Strip(date)| > 10 then 10 else |Strip(date)|
    ensures dd <= Strip(date)
  {
    var s := Strip(date);
    if |s| > 10 then s[..10] else s
  }

  /**
   * The death update for `cid`; `deathDate` is None when the answer's
   * value is not a string.  Nothing is written for a blank date.
   */
  function DeathUpdate(cid: string, deathDate: Option<string>, hasLastupdate: bool, hasLastUnderscoreUpdate: bool)
    : (u: Option<Update>)
    ensures u.None? <==> deathDate.None? || Strip(deathDate.value) == ""
    ensures u.Some? ==> u.value.params == [DeathDay(deathDate.value), cid]
  {
    if deathDate.None? || Strip(deathDate.value) == "" then None
    else
      var sets := SetClauses(hasLastupdate, hasLastUnderscoreUpdate);
      Some(Update("UPDATE patient SET " + Join(", ", sets) + " WHERE cid=%s", [DeathDay(deathDate.value), cid]))
  }

  predicate IsPercent(c: char) { c == '%' }

  lemma {:induction false} CountAppend(a: string, b: string)
    ensures Count(a + b, IsPercent) == Count(a, IsPercent) + Count(b, IsPercent)
  {
    if |b| > 0 {
      assert (a + b)[..|a + b| - 1] == a + b[..|b| - 1];
      CountAppend(a, b[..|b| - 1]);
    } else {
      assert a + b == a;
    }
  }

  lemma {:induction false} JoinCount(parts: seq<string>)
    ensures Count(Join(", ", parts), IsPercent) ==
      if |parts| == 0 then 0 else Count(Flatten(parts), IsPercent)
  {
    if |parts| > 1 {
      var init := parts[..|parts| - 1];
      JoinCount(init);
      CountAppend(Join(", ", init) + ", ", parts[|parts| - 1]);
      CountAppend(Join(", ", init), ", ");
      CountAppend(Flatten(init), parts[|parts| - 1]);
      CountNone(", ");
    } else if |parts| == 1 {
      assert parts[..0] == [];
      assert Join(", ", parts) == parts[0];
      var none: seq<string> := [];
      assert Flatten(none) == [];
      assert Flatten(parts) == Flatten(none) + parts[0];
      assert Flatten(parts) == parts[0];
    }
  }

  /** A text without `%` has no `%` to count. */
  lemma {:induction false} CountNone(s: string)
    requires '%' !in s
    ensures Count(s, IsPercent) == 0
  {
    if |s| > 0 {
      assert s[|s| - 1] in s;
      CountNone(s[..|s| - 1]);
    }
  }

  /** The one `%` of a `%s` marker at the end of a text. */
  lemma CountMarker(s: string)
    requires '%' !in s
    ensures Count(s + "%s", IsPercent) == 1
  {
    CountNone(s);
    CountAppend(s, "%s");
    assert "%s"[..1] == "%" && "%"[..0] == "";
  }

  lemma FixedClausesPercent()
    ensures Count(Flatten(["death='Y'", "deathday=%s"]), IsPercent) == 1
  {
    var none: seq<string> := [];
    FlattenSnoc(none, "death='Y'");
    assert none + ["death='Y'"] == ["death='Y'"];
    FlattenSnoc(["death='Y'"], "deathday=%s");
    assert ["death='Y'"] + ["deathday=%s"] == ["death='Y'", "deathday=%s"];
    assert Flatten(["death='Y'", "deathday=%s"]) == "death='Y'deathday=" + "%s";
    CountMarker("death='Y'deathday=");
  }

  lemma SetClausesPercent(hasLastupdate: bool, hasLastUnderscoreUpdate: bool)
    ensures Count(Flatten(SetClauses(hasLastupdate, hasLastUnderscoreUpdate)), IsPercent) == 1
  {
    var sets := SetClauses(hasLastupdate, hasLastUnderscoreUpdate);
    var fixed := ["death='Y'", "deathday=%s"];
    FixedClausesPercent();
    var mid := fixed + (if hasLastupdate then ["lastupdate=NOW()"] else []);
    if hasLastupdate {
      FlattenSnoc(fixed, "lastupdate=NOW()");
      CountAppend(Flatten(fixed), "lastupdate=NOW()");
      CountNone("lastupdate=NOW()");
    } else {
      assert mid == fixed;
    }
    if hasLastUnderscoreUpdate {
      FlattenSnoc(mid, "last_update=NOW()");
      CountAppend(Flatten(mid), "last_update=NOW()");
      CountNone("last_update=NOW()");
    } else {
      assert sets == mid;
    }
  }

  /** The statement has exactly as many `%s` markers as parameters. */
  lemma DeathUpdatePlaceholders(cid: string, deathDate: Option<string>, hasLastupdate: bool, hasLastUnderscoreUpdate: bool)
    requires DeathUpdate(cid, deathDate, hasLastupdate, hasLastUnderscoreUpdate).Some?
    ensures var u := DeathUpdate(cid, deathDate, hasLastupdate, hasLastUnderscoreUpdate).value;
      Count(u.sql, IsPercent) == |u.params| == 2
  {
    var sets := SetClauses(hasLastupdate, hasLastUnderscoreUpdate);
    var head := "UPDATE patient SET ";
    var tail := " WHERE cid=%s";
    JoinCount(sets);
    SetClausesPercent(hasLastupdate, hasLastUnderscoreUpdate);
    CountAppend(head, Join(", ", sets));
    CountAppend(head + Join(", ", sets), tail);
    CountNone(head);
    assert tail == " WHERE cid=" + "%s";
    CountMarker(" WHERE cid=");
  }

  // ---------------------------------------------------------------------
  // The retry after a token refresh (`on_finished_summary`)
  // ---------------------------------------------------------------------

  /** The two fields the rights check keeps between runs. */
  datatype Guard = Guard(retryAfterRefresh: bool, resumeFrom: int)

  /**
   * The end of a run: whether a restart is scheduled, and the new guard.
   * `refreshOk` is false when `refresh_token()` raised.
   */
  function Finished(g: Guard, tokenExpired: bool, refreshOk: bool): (bool, Guard)
  {
    if tokenExpired then
      if g.retryAfterRefresh then (false, g)
      else (refreshOk, g.(retryAfterRefresh := true))
    else (false, Guard(false, 0))
  }

  /** What happens to the guard between runs. */
  datatype Event =
    | RunFinished(tokenExpired: bool, refreshOk: bool)
    | ResumeAt(row: int)

  /** The number of restarts a series of events schedules, and the guard afterwards. */
  function Replay(g: Guard, es: seq<Event>): (int, Guard)
  {
    if |es| == 0 then (0, g)
    else
      var (n, h) := Replay(g, es[..|es| - 1]);
      match es[|es| - 1]
      case RunFinished(expired, ok) =>
        var (restart, h') := Finished(h, expired, ok);
        (n + if restart then 1 else 0, h')
      case ResumeAt(row) => (n, h.(resumeFrom := row))
  }

  /** Every run in `es` ended with an expired token. */
  predicate AllExpired(es: seq<Event>)
  {
    forall i :: 0 <= i < |es| && es[i].RunFinished? ==> es[i].tokenExpired
  }

  /**
   * Until a run finishes with a valid token, at most one restart is
   * scheduled, none at all once a retry has been spent, and the guard
   * stays spent after the first expired finish.
   */
  lemma {:induction false} RestartAtMostOnce(g: Guard, es: seq<Event>)
    requires AllExpired(es)
    ensures 0 <= Replay(g, es).0 <= 1
    ensures g.retryAfterRefresh ==> Replay(g, es).0 == 0 && Replay(g, es).1.retryAfterRefresh
    ensures Replay(g, es).0 == 1 ==> Replay(g, es).1.retryAfterRefresh
  {
    if |es| > 0 {
      var init := es[..|es| - 1];
      assert AllExpired(init) by {
        forall i | 0 <= i < |init| && init[i].RunFinished? ensures init[i].tokenExpired {
          assert init[i] == es[i];
        }
      }
      RestartAtMostOnce(g, init);
      var (n, h) := Replay(g, init);
      var e := es[|es| - 1];
      if e.RunFinished? {
        assert e.tokenExpired;
        if n == 1 || g.retryAfterRefresh {
          assert h.retryAfterRefresh;
        }
      }
    }
  }

  /** A run that finishes with a valid token clears the guard and the resume position. */
  lemma FinishedCleanResets(g: Guard, refreshOk: bool)
    ensures Finished(g, false, refreshOk) == (false, Guard(false, 0))
    ensures Finished(Finished(g, false, refreshOk).1, true, true).0
  {
  }

  /** The window's state for rights checking. */
  class RightsCheck {
    var retryAfterRefresh: bool
    var resumeFrom: int

    /** A fresh window: no retry spent, nothing to resume (the source's attribute defaults). */
    constructor()
      ensures retryAfterRefresh == false && resumeFrom == 0
    {
      retryAfterRefresh := false;
      resumeFrom := 0;
    }

    /** The worker stopped at `row` on an expired token. */
    method NeedResumeFrom(row: int)
      modifies this
      ensures resumeFrom == row && retryAfterRefresh == old(retryAfterRefresh)
    {
      resumeFrom := row;
    }

    /** The user stopped the check while `current` (if known) was being processed. */
    method StopRights(current: Option<int>)
      modifies this
      ensures resumeFrom == (if current.Some? then current.value else old(resumeFrom))
      ensures retryAfterRefresh == old(retryAfterRefresh)
    {
      if current.Some? {
        resumeFrom := current.value;
      }
    }

    /** The end of a run; `restart` says whether a new run is scheduled after the refresh. */
    method FinishedSummary(tokenExpired: bool, refreshOk: bool) returns (restart: bool)
      modifies this
      ensures (restart, Guard(retryAfterRefresh, resumeFrom))
        == Finished(Guard(old(retryAfterRefresh), old(resumeFrom)), tokenExpired, refreshOk)
    {
      restart := false;
      if tokenExpired {
        if !retryAfterRefresh {
          retryAfterRefresh := true;
          if refreshOk {
            restart := true;
          }
        }
      } else {
        resumeFrom := 0;
        retryAfterRefresh := false;
      }
    }
  }

  // ---------------------------------------------------------------------
  // The debug dialog (`on_debug_output`)
  // ---------------------------------------------------------------------

  const PreviewLimit := 4000
  const TruncatedMark := "... [truncated]"

  /** The text shown for an API answer: long answers are cut and marked. */
  function Preview(text: string): (r: string)
    ensures |text| <= PreviewLimit ==> r == text
    ensures |r| <= PreviewLimit + |TruncatedMark|
    ensures |text| > PreviewLimit ==> |r| == PreviewLimit + |TruncatedMark| && r[..PreviewLimit] == text[..PreviewLimit] && EndsWith(r, TruncatedMark)
  {
    if |text| <= PreviewLimit then text else text[..PreviewLimit] + TruncatedMark
  }

  /** Previewing a preview changes nothing. */
  lemma PreviewIdempotent(text: string)
    ensures Preview(Preview(text)) == Preview(text)
  {
    if |text| > PreviewLimit {
      var r := Preview(text);
      assert r[..PreviewLimit] + TruncatedMark == r;
    }
  }
}
