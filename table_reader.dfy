/** Turning decoded files into canonical rows (Dashboard.jsx, lines 76-87, 461-485 and
    617-662): header detection, header/cell pairing, blank-row removal and the choice of
    reader by file extension. The decoders themselves (Papa.parse for CSV, the XLSX reader)
    are not modelled: a file is given by what they return. */
module TableReader {
  import opened Options
  import opened JsText
  import opened Normalise
  import opened Records
  import opened Canonicalise

  /** One row of a sheet as the XLSX reader returns it with `header: 1, defval: ""`. */
  type Cells = seq<string>

  /** `String(col).trim() !== ""`. */
  predicate NonBlank(c: string) {
    !IsBlank(c)
  }

  /** The number of non-blank cells of a row. */
  function NonBlankCount(r: Cells): (n: nat)
    ensures n <= |r|
  {
    if r == [] then 0
    else (if NonBlank(r[0]) then 1 else 0) + NonBlankCount(r[1..])
  }

  /** A row has no non-blank cell exactly when its count is zero. */
  lemma {:induction false} NonBlankCountZero(r: Cells)
    ensures NonBlankCount(r) == 0 <==> forall i :: 0 <= i < |r| ==> !NonBlank(r[i])
  {
    if r != [] {
      NonBlankCountZero(r[1..]);
      assert forall i :: 1 <= i < |r| ==> r[i] == r[1..][i - 1];
    }
  }

  /** A row that can serve as the header: at least two non-blank cells. */
  predicate IsHeaderRow(r: Cells) {
    NonBlankCount(r) >= 2
  }

  /** `rows.findIndex(row => row.filter(non-blank).length >= 2)`. */
  function HeaderIndex(rows: seq<Cells>): (r: Option<nat>)
    ensures r.Some? ==> r.value < |rows| && IsHeaderRow(rows[r.value])
    ensures r.Some? ==> forall j :: 0 <= j < r.value ==> !IsHeaderRow(rows[j])
    ensures r.None? <==> forall j :: 0 <= j < |rows| ==> !IsHeaderRow(rows[j])
  {
    if rows == [] then None
    else if IsHeaderRow(rows[0]) then Some(0)
    else
      var r := HeaderIndex(rows[1..]);
      assert forall j :: 1 <= j < |rows| ==> rows[j] == rows[1..][j - 1];
      match r
      case None => None
      case Some(i) => Some(i + 1)
  }

  /** Rows in front of the header that have fewer than two non-blank cells (titles, dates,
      empty lines) do not change which row is the header. */
  lemma {:induction false} LeadingRowsSkipped(junk: seq<Cells>, rows: seq<Cells>)
    requires forall j :: 0 <= j < |junk| ==> !IsHeaderRow(junk[j])
    ensures HeaderIndex(junk + rows) ==
      match HeaderIndex(rows) case None => None case Some(i) => Some(|junk| + i)
  {
    if junk != [] {
      assert (junk + rows)[1..] == junk[1..] + rows;
      assert (junk + rows)[0] == junk[0];
      LeadingRowsSkipped(junk[1..], rows);
    } else {
      assert junk + rows == rows;
    }
  }

  /** `findRealHeaderRowIndex` (lines 78-87), which the upload does not call: the same test
      on the keys of each row, over the first ten rows only, with 0 when none passes. */
  method FindRealHeaderRowIndex(rowKeys: seq<Cells>) returns (index: nat)
    ensures index == match HeaderIndex(rowKeys[..if |rowKeys| < 10 then |rowKeys| else 10])
      case Some(i) => i case None => 0
    ensures index < 10
    ensures |rowKeys| > 0 ==> index < |rowKeys|
  {
    var limit := if |rowKeys| < 10 then |rowKeys| else 10;
    ghost var scanned := rowKeys[..limit];
    for i := 0 to limit
      invariant forall j :: 0 <= j < i ==> !IsHeaderRow(scanned[j])
    {
      var nonEmpty := NonBlankCount(rowKeys[i]);
      if nonEmpty >= 2 {
        assert scanned[i] == rowKeys[i];
        return i;
      }
      assert scanned[i] == rowKeys[i];
    }
    return 0;
  }

  /** `r[i] || ""`: the cell under column `i`, or "" past the end of a short row. */
  function Cell(r: Cells, i: nat): string {
    if i < |r| then r[i] else ""
  }

  /** No label occurs twice: what a JavaScript object's keys are. */
  predicate DistinctLabels(obj: RawRow) {
    forall i, j :: 0 <= i < j < |obj| ==> obj[i].0 != obj[j].0
  }

  /** Where the key `k` sits in the object, if it is there. */
  function LabelIndex(obj: RawRow, k: string): (r: Option<nat>)
    ensures r.Some? ==> r.value < |obj| && obj[r.value].0 == k
    ensures r.None? ==> forall i :: 0 <= i < |obj| ==> obj[i].0 != k
  {
    if obj == [] then None
    else if obj[|obj| - 1].0 == k then Some(|obj| - 1)
    else LabelIndex(obj[..|obj| - 1], k)
  }

  /** `obj[k] = v`: a key already there keeps its position and takes the new value; a new
      key goes to the end. */
  function ObjSet(obj: RawRow, k: string, v: string): RawRow {
    match LabelIndex(obj, k)
    case Some(j) => obj[j := (k, v)]
    case None => obj + [(k, v)]
  }

  /** After `obj[k] = v` the object holds `k` with `v`, every other entry is untouched, no
      label is doubled, and a new key is appended. */
  lemma ObjSetFacts(obj: RawRow, k: string, v: string)
    ensures var r := ObjSet(obj, k, v);
      && |obj| <= |r| <= |obj| + 1
      && (k, v) in r
      && (forall i :: 0 <= i < |obj| && obj[i].0 != k ==> r[i] == obj[i])
      && (forall i :: 0 <= i < |r| ==> r[i] == (k, v) || (i < |obj| && r[i] == obj[i]))
      && (DistinctLabels(obj) ==> DistinctLabels(r))
      && ((forall i :: 0 <= i < |obj| ==> obj[i].0 != k) ==> r == obj + [(k, v)])
  {
    var r := ObjSet(obj, k, v);
    match LabelIndex(obj, k)
    case Some(j) =>
      assert r[j] == (k, v);
    case None =>
      assert r[|obj|] == (k, v);
  }

  /** The object `headerRow.forEach((colName, i) => obj[colName] = r[i] || "")` builds. */
  function ObjectOf(header: Cells, r: Cells): RawRow
    decreases |header|
  {
    if header == [] then []
    else
      var n := |header| - 1;
      ObjSet(ObjectOf(header[..n], r), header[n], Cell(r, n))
  }

  /** The object has each label at most once, and only labels of the header. */
  lemma {:induction false} ObjectOfShape(header: Cells, r: Cells)
    ensures var obj := ObjectOf(header, r);
      && DistinctLabels(obj) && |obj| <= |header|
      && forall j :: 0 <= j < |obj| ==> obj[j].0 in header
    decreases |header|
  {
    if header != [] {
      var n := |header| - 1;
      ObjectOfShape(header[..n], r);
      var init := ObjectOf(header[..n], r);
      ObjSetFacts(init, header[n], Cell(r, n));
      var obj := ObjectOf(header, r);
      forall j | 0 <= j < |obj| ensures obj[j].0 in header {
        if obj[j] != (header[n], Cell(r, n)) {
          assert obj[j] == init[j];
          assert init[j].0 in header[..n];
        }
      }
    }
  }

  /** `obj[k] = v` stores `v` under `k` and keeps every entry with another label. */
  lemma ObjSetStores(obj: RawRow, k: string, v: string, e: (string, string))
    ensures (k, v) in ObjSet(obj, k, v)
    ensures e in obj && e.0 != k ==> e in ObjSet(obj, k, v)
  {
    ObjSetFacts(obj, k, v);
    if e in obj && e.0 != k {
      var j :| 0 <= j < |obj| && obj[j] == e;
      assert ObjSet(obj, k, v)[j] == e;
    }
  }

  /** Each label of the header carries the cell of the LAST column with that label. */
  lemma {:induction false} ObjectHoldsLastColumn(header: Cells, r: Cells, i: nat)
    requires i < |header|
    requires forall j :: i < j < |header| ==> header[j] != header[i]
    ensures (header[i], Cell(r, i)) in ObjectOf(header, r)
    decreases |header|
  {
    var n := |header| - 1;
    var prefix := header[..n];
    var e := (header[i], Cell(r, i));
    if i < n {
      forall j | i < j < |prefix| ensures prefix[j] != prefix[i] {
        assert prefix[j] == header[j] && prefix[i] == header[i];
      }
      ObjectHoldsLastColumn(prefix, r, i);
      assert prefix[i] == header[i];
    }
    ObjSetStores(ObjectOf(prefix, r), header[n], Cell(r, n), e);
  }

  /** Each label paired with the cell under it. */
  function Zip(header: Cells, r: Cells): (z: RawRow)
    ensures |z| == |header|
  {
    seq(|header|, i requires 0 <= i < |header| => (header[i], Cell(r, i)))
  }

  lemma ZipSnoc(header: Cells, r: Cells)
    requires header != []
    ensures Zip(header, r) == Zip(header[..|header| - 1], r) + [(header[|header| - 1], Cell(r, |header| - 1))]
  {
    var n := |header| - 1;
    var z, z' := Zip(header, r), Zip(header[..n], r) + [(header[n], Cell(r, n))];
    forall i | 0 <= i < |header| ensures z[i] == z'[i] {
      if i < n {
        assert header[..n][i] == header[i];
      }
    }
  }

  /** A label not seen before goes to the end of the object. */
  lemma ObjectOfNewLabel(header: Cells, r: Cells)
    requires header != []
    requires header[|header| - 1] !in header[..|header| - 1]
    ensures ObjectOf(header, r) == ObjectOf(header[..|header| - 1], r) + [(header[|header| - 1], Cell(r, |header| - 1))]
  {
    var n := |header| - 1;
    var init := ObjectOf(header[..n], r);
    ObjectOfShape(header[..n], r);
    assert forall i :: 0 <= i < |init| ==> init[i].0 != header[n];
    ObjSetFacts(init, header[n], Cell(r, n));
  }

  /** No label occurs twice in the header. */
  predicate DistinctCells(header: Cells) {
    forall i, j :: 0 <= i < j < |header| ==> header[i] != header[j]
  }

  lemma DistinctCellsSnoc(header: Cells)
    requires header != [] && DistinctCells(header)
    ensures DistinctCells(header[..|header| - 1])
    ensures header[|header| - 1] !in header[..|header| - 1]
  {
    var n := |header| - 1;
    var prefix := header[..n];
    forall i, j | 0 <= i < j < |prefix| ensures prefix[i] != prefix[j] {
      assert prefix[i] == header[i] && prefix[j] == header[j];
    }
    forall i | 0 <= i < n ensures prefix[i] != header[n] {
      assert prefix[i] == header[i];
    }
  }

  /** With distinct header labels the object is the header zipped with the cells. */
  lemma {:induction false} ObjectOfDistinctHeader(header: Cells, r: Cells)
    requires DistinctCells(header)
    ensures ObjectOf(header, r) == Zip(header, r)
    decreases |header|
  {
    if header != [] {
      DistinctCellsSnoc(header);
      ObjectOfDistinctHeader(header[..|header| - 1], r);
      ObjectOfNewLabel(header, r);
      ZipSnoc(header, r);
    }
  }

  /** The header/cell pairing, one column at a time. */
  method RowObject(header: Cells, r: Cells) returns (obj: RawRow)
    ensures obj == ObjectOf(header, r)
  {
    obj := [];
    for i := 0 to |header|
      invariant obj == ObjectOf(header[..i], r)
    {
      assert header[..i + 1][..i] == header[..i];
      obj := ObjSet(obj, header[i], Cell(r, i));
    }
    assert header[..|header|] == header;
  }

  /** `r.some(cell => String(cell).trim() !== "")`. */
  predicate HasContent(r: Cells) {
    NonBlankCount(r) > 0
  }

  /** The body rows kept: those with a non-blank cell, in order. */
  function ContentRows(rows: seq<Cells>): (kept: seq<Cells>)
    ensures |kept| <= |rows|
    ensures forall i :: 0 <= i < |kept| ==> HasContent(kept[i])
    ensures forall r :: r in kept <==> r in rows && HasContent(r)
    decreases |rows|
  {
    if rows == [] then []
    else
      var n := |rows| - 1;
      assert rows == rows[..n] + [rows[n]];
      ContentRows(rows[..n]) + (if HasContent(rows[n]) then [rows[n]] else [])
  }

  /** The filter works row by row, so it keeps the order of the sheet. */
  lemma {:induction false} ContentRowsAppend(a: seq<Cells>, b: seq<Cells>)
    ensures ContentRows(a + b) == ContentRows(a) + ContentRows(b)
    decreases |b|
  {
    if b == [] {
      assert a + b == a;
    } else {
      var n := |b| - 1;
      assert (a + b)[..|a + b| - 1] == a + b[..n];
      assert (a + b)[|a + b| - 1] == b[n];
      ContentRowsAppend(a, b[..n]);
    }
  }

  /** The objects built from the body rows that have content. */
  function BodyObjects(header: Cells, rows: seq<Cells>): (objs: seq<RawRow>)
    ensures |objs| == |ContentRows(rows)|
    ensures forall i :: 0 <= i < |objs| ==> objs[i] == ObjectOf(header, ContentRows(rows)[i])
    decreases |rows|
  {
    if rows == [] then []
    else
      var n := |rows| - 1;
      BodyObjects(header, rows[..n])
        + (if HasContent(rows[n]) then [ObjectOf(header, rows[n])] else [])
  }

  /** A decoded file: its name, its canonical rows and the columns it had. */
  datatype ParsedFile = ParsedFile(fileName: string, rows: seq<Row>, columnsPresent: seq<string>)

  /** The error thrown at line 646. */
  const NO_HEADER := "Could not find a valid header row in Excel file."

  /** The objects built from a sheet: header row and body objects, or the error the upload
      raises when no row has two non-blank cells. */
  function SheetObjects(rows: seq<Cells>): (r: Result<(Cells, seq<RawRow>)>)
    ensures r.Err? <==> forall j :: 0 <= j < |rows| ==> !IsHeaderRow(rows[j])
    ensures r.Ok? ==> IsHeaderRow(r.value.0) && r.value.0 in rows
    ensures r.Ok? ==> |r.value.1| < |rows|
  {
    SplitAtHeader(rows, HeaderIndex(rows))
  }

  /** The header row found at `hi` and the objects of the rows after it; no header row is
      the upload's error. */
  function SplitAtHeader(rows: seq<Cells>, hi: Option<nat>): (r: Result<(Cells, seq<RawRow>)>)
    requires hi.Some? ==> hi.value < |rows|
    ensures r.Err? <==> hi.None?
  {
    match hi
    case None => Err(NO_HEADER)
    case Some(h) => Ok((rows[h], BodyObjects(rows[h], rows[h + 1..])))
  }

  /** `rawRows.findIndex(...)`, as a loop. */
  method FindHeaderRow(rows: seq<Cells>) returns (h: Option<nat>)
    ensures h == HeaderIndex(rows)
  {
    var i := 0;
    while i < |rows|
      invariant i <= |rows|
      invariant forall j :: 0 <= j < i ==> !IsHeaderRow(rows[j])
    {
      if NonBlankCount(rows[i]) >= 2 {
        HeaderIndexIsFirst(rows, i);
        return Some(i);
      }
      i := i + 1;
    }
    return None;
  }

  lemma HeaderIndexIsFirst(rows: seq<Cells>, h: nat)
    requires h < |rows| && IsHeaderRow(rows[h])
    requires forall j :: 0 <= j < h ==> !IsHeaderRow(rows[j])
    ensures HeaderIndex(rows) == Some(h)
  {
  }

  /** `bodyRows.filter(...).map(...)`: the blank rows dropped, the others paired with the
      header, in order. */
  method PairBody(header: Cells, body: seq<Cells>) returns (objs: seq<RawRow>)
    ensures objs == BodyObjects(header, body)
  {
    objs := [];
    for k := 0 to |body|
      invariant objs == BodyObjects(header, body[..k])
    {
      assert body[..k + 1][..k] == body[..k];
      if NonBlankCount(body[k]) > 0 {
        var obj := RowObject(header, body[k]);
        objs := objs + [obj];
      }
    }
    assert body[..|body|] == body;
  }

  /** Lines 641-662: find the header, drop blank body rows, pair each remaining row with the
      header. */
  method BuildSheetRows(rows: seq<Cells>) returns (r: Result<(Cells, seq<RawRow>)>)
    ensures r == SheetObjects(rows)
  {
    var h := FindHeaderRow(rows);
    if h.None? {
      return Err(NO_HEADER);
    }
    var header := rows[h.value];
    var objs := PairBody(header, rows[h.value + 1..]);
    return Ok((header, objs));
  }

  /** The labels of an object, in order. */
  function Labels(obj: RawRow): (ks: seq<string>)
    ensures |ks| == |obj|
    ensures forall i :: 0 <= i < |obj| ==> ks[i] == obj[i].0
  {
    seq(|obj|, i requires 0 <= i < |obj| => obj[i].0)
  }

  /** `Object.keys(rawRows[0] || {}).map(normKey)`. */
  function CsvColumns(rawRows: seq<RawRow>): (cols: seq<string>)
    ensures rawRows == [] ==> cols == []
    ensures rawRows != [] ==> cols == NormKeys(Labels(rawRows[0]))
  {
    if rawRows == [] then [] else NormKeys(Labels(rawRows[0]))
  }

  /** `xs.map(f)`. */
  function MapSeq<A, B>(f: A -> B, xs: seq<A>): (ys: seq<B>)
    ensures |ys| == |xs|
    decreases |xs|
  {
    if xs == [] then [] else MapSeq(f, xs[..|xs| - 1]) + [f(xs[|xs| - 1])]
  }

  /** Each element is mapped on its own: element `i` of the result is `f(xs[i])`. */
  lemma {:induction false} MapSeqPointwise<A, B>(f: A -> B, xs: seq<A>, i: nat)
    requires i < |xs|
    ensures MapSeq(f, xs)[i] == f(xs[i])
    decreases |xs|
  {
    var n := |xs| - 1;
    if i < n {
      assert xs[..n][i] == xs[i];
      MapSeqPointwise(f, xs[..n], i);
    }
  }

  lemma MapSeqSnoc<A, B>(f: A -> B, xs: seq<A>, x: A)
    ensures MapSeq(f, xs + [x]) == MapSeq(f, xs) + [f(x)]
  {
    assert (xs + [x])[..|xs|] == xs;
  }

  /** The row canonicaliser the readers apply to every decoded row. The upload passes
      `Canonical` with its date parser, which `MapRowToCanonical` computes. */
  type RowMapper = RawRow -> Row

  /** `parseCsvFile`: every decoded row canonicalised, in order, and the normalised labels
      of the first row as the columns present. */
  function CsvFile(name: string, rawRows: seq<RawRow>, canon: RowMapper): (pf: ParsedFile)
    ensures pf.fileName == name && |pf.rows| == |rawRows|
    ensures forall j :: 0 <= j < |pf.columnsPresent| ==> AllLowerAlnum(pf.columnsPresent[j])
  {
    ParsedFile(name, MapSeq(canon, rawRows), CsvColumns(rawRows))
  }

  /** `rawRows.map(mapRowToCanonical)`. */
  method CanonicaliseAll(rawRows: seq<RawRow>, canon: RowMapper) returns (rows: seq<Row>)
    ensures rows == MapSeq(canon, rawRows)
  {
    rows := [];
    for i := 0 to |rawRows|
      invariant rows == MapSeq(canon, rawRows[..i])
    {
      assert rawRows[..i + 1] == rawRows[..i] + [rawRows[i]];
      MapSeqSnoc(canon, rawRows[..i], rawRows[i]);
      rows := rows + [canon(rawRows[i])];
    }
    assert rawRows[..|rawRows|] == rawRows;
  }

  method ParseCsvFile(name: string, rawRows: seq<RawRow>, canon: RowMapper) returns (pf: ParsedFile)
    ensures pf == CsvFile(name, rawRows, canon)
  {
    var rows := CanonicaliseAll(rawRows, canon);
    pf := ParsedFile(name, rows, CsvColumns(rawRows));
  }

  /** The sheet branch of `handleUploadSmart`: canonical rows of the body objects, and the
      raw header row as the columns present; an error when there is no header. */
  function SheetFile(name: string, rows: seq<Cells>, canon: RowMapper): (r: Result<ParsedFile>)
    ensures r.Err? <==> HeaderIndex(rows).None?
    ensures r.Ok? ==> r.value.fileName == name && |r.value.rows| < |rows|
    ensures r.Ok? ==> IsHeaderRow(r.value.columnsPresent)
  {
    match SheetObjects(rows)
    case Err(e) => Err(e)
    case Ok((header, objs)) => Ok(ParsedFile(name, MapSeq(canon, objs), header))
  }

  /** Title, date and blank lines above the header leave the sheet's objects, and so the
      parsed file, exactly as they would be without them. */
  lemma JunkRowsIgnored(junk: seq<Cells>, rows: seq<Cells>, name: string, canon: RowMapper)
    requires forall j :: 0 <= j < |junk| ==> !IsHeaderRow(junk[j])
    ensures SheetObjects(junk + rows) == SheetObjects(rows)
    ensures SheetFile(name, junk + rows, canon) == SheetFile(name, rows, canon)
  {
    LeadingRowsSkipped(junk, rows);
    match HeaderIndex(rows)
    case None =>
    case Some(h) => ShiftedSheetObjects(junk, rows, h);
  }

  lemma ShiftedSheetObjects(junk: seq<Cells>, rows: seq<Cells>, h: nat)
    requires HeaderIndex(rows) == Some(h) && HeaderIndex(junk + rows) == Some(|junk| + h)
    ensures SheetObjects(junk + rows) == SheetObjects(rows)
  {
    calc {
      SheetObjects(junk + rows);
      { SheetObjectsAt(junk + rows, |junk| + h); }
      SplitAtHeader(junk + rows, Some(|junk| + h));
      { ShiftedRows(junk, rows, h); }
      SplitAtHeader(rows, Some(h));
      { SheetObjectsAt(rows, h); }
      SheetObjects(rows);
    }
  }

  /** The objects of a sheet whose header is at `h`. */
  lemma SheetObjectsAt(rows: seq<Cells>, h: nat)
    requires HeaderIndex(rows) == Some(h)
    ensures h < |rows| && SheetObjects(rows) == SplitAtHeader(rows, Some(h))
  {
  }

  /** Rows put in front shift the header and the rows after it by their number. */
  lemma ShiftedRows(junk: seq<Cells>, rows: seq<Cells>, h: nat)
    requires h < |rows|
    ensures SplitAtHeader(junk + rows, Some(|junk| + h)) == SplitAtHeader(rows, Some(h))
  {
    var all := junk + rows;
    assert all[|junk| + h] == rows[h] && all[|junk| + h + 1..] == rows[h + 1..];
  }

  method ParseSheetFile(name: string, rows: seq<Cells>, canon: RowMapper) returns (r: Result<ParsedFile>)
    ensures r == SheetFile(name, rows, canon)
  {
    var built := BuildSheetRows(rows);
    if built.Err? {
      return Err(built.message);
    }
    var canonical := CanonicaliseAll(built.value.1, canon);
    return Ok(ParsedFile(name, canonical, built.value.0));
  }

  /** `name.toLowerCase().split('.').pop()`. */
  function Extension(name: string): (ext: string)
    ensures '.' !in ext
  {
    var parts := Split(Lower(name), '.');
    SplitShape(Lower(name), '.');
    parts[|parts| - 1]
  }

  /** The extension is the lower-cased text after the last dot. */
  lemma ExtensionIsLastPart(stem: string, ext: string)
    requires '.' !in ext
    ensures Extension(stem + "." + ext) == Lower(ext)
  {
    var low := Lower(ext);
    var whole := Lower(stem + "." + ext);
    assert whole == Lower(stem) + ['.'] + low by {
      LowerAppend(stem + ".", ext);
      LowerAppend(stem, ".");
    }
    assert Split(low, '.') == [low] by {
      forall i | 0 <= i < |ext| ensures low[i] != '.' {
        assert ext[i] != '.';
      }
      SplitShape(low, '.');
    }
    var parts := Split(whole, '.');
    assert parts == Split(Lower(stem), '.') + [low] by {
      SplitConcat(Lower(stem), '.', low);
    }
    assert parts[|parts| - 1] == low;
  }

  /** A name without a dot is its own extension, lower-cased: `pop` returns the only
      part. */
  lemma ExtensionWithoutDot(name: string)
    requires '.' !in name
    ensures Extension(name) == Lower(name)
  {
    var low := Lower(name);
    forall i | 0 <= i < |name| ensures low[i] != '.' {
      assert name[i] != '.';
    }
    SplitShape(low, '.');
  }

  /** How `handleUploadSmart` treats a file, by its extension. */
  datatype FileKind = CsvKind | SheetKind | Skipped

  function KindOf(name: string): (k: FileKind)
    ensures k == CsvKind <==> Extension(name) == "csv"
    ensures k == SheetKind <==> Extension(name) in {"xlsx", "xls"}
  {
    var ext := Extension(name);
    if ext == "csv" then CsvKind
    else if ext == "xlsx" || ext == "xls" then SheetKind
    else Skipped
  }

  /** A chosen file, given by what the two decoders return for it. `decoded` is false when
      the decoder its extension selects gives up on it: Papa.parse calls its `error`
      callback (line 483) or the XLSX reader throws (line 628). */
  datatype UploadFile = UploadFile(name: string, decoded: bool, csvRows: seq<RawRow>, sheetRows: seq<Cells>)

  /** What the catch of lines 680-682 reports, whatever the failure was. */
  const UPLOAD_ERROR := "Error processing file. Make sure it's a valid CSV or Excel file."

  /** A file that makes the whole batch fail: a CSV or sheet file its decoder cannot read,
      or a sheet without a header row. Files of another kind are never read. */
  predicate Rejected(f: UploadFile) {
    match KindOf(f.name)
    case CsvKind => !f.decoded
    case SheetKind => !f.decoded || HeaderIndex(f.sheetRows).None?
    case Skipped => false
  }

  /** The batch of `handleUploadSmart`: files read in order, files of another kind skipped,
      and the whole batch failing on the first file that is rejected. */
  function ParseBatch(files: seq<UploadFile>, canon: RowMapper): Result<seq<ParsedFile>>
    decreases |files|
  {
    if files == [] then Ok([])
    else
      var n := |files| - 1;
      var f := files[n];
      match ParseBatch(files[..n], canon)
      case Err(e) => Err(e)
      case Ok(done) =>
        match KindOf(f.name)
        case CsvKind =>
          if !f.decoded then Err(UPLOAD_ERROR)
          else Ok(done + [CsvFile(f.name, f.csvRows, canon)])
        case SheetKind =>
          if !f.decoded then Err(UPLOAD_ERROR)
          else
            (match SheetFile(f.name, f.sheetRows, canon)
             case Err(e) => Err(e)
             case Ok(pf) => Ok(done + [pf]))
        case Skipped => Ok(done)
  }

  /** A batch yields at most one parsed file per file, and it fails exactly when one of its
      files is rejected. */
  lemma {:induction false} ParseBatchOutcome(files: seq<UploadFile>, canon: RowMapper)
    ensures var r := ParseBatch(files, canon);
      && (r.Ok? ==> |r.value| <= |files|)
      && (r.Err? <==> exists i :: 0 <= i < |files| && Rejected(files[i]))
    decreases |files|
  {
    if files != [] {
      var n := |files| - 1;
      ParseBatchOutcome(files[..n], canon);
      PrefixRejected(files, n);
      if !Rejected(files[n]) && ParseBatch(files[..n], canon).Ok? {
        assert ParseBatch(files, canon).Ok?;
      }
    }
  }

  /** A file of the batch is rejected exactly when it is a rejected file of the prefix
      without the last file, or the last file itself. */
  lemma PrefixRejected(files: seq<UploadFile>, n: nat)
    requires n + 1 == |files|
    ensures (exists i :: 0 <= i < |files| && Rejected(files[i])) <==>
      (exists i :: 0 <= i < n && Rejected(files[..n][i])) || Rejected(files[n])
  {
    if exists i :: 0 <= i < |files| && Rejected(files[i]) {
      var i :| 0 <= i < |files| && Rejected(files[i]);
      if i < n {
        assert files[..n][i] == files[i];
      }
    }
    if exists i :: 0 <= i < n && Rejected(files[..n][i]) {
      var i :| 0 <= i < n && Rejected(files[..n][i]);
      assert files[..n][i] == files[i];
    }
  }

  /** A batch of CSV files that Papa.parse reads always succeeds, with one parsed file per
      file. */
  lemma {:induction false} CsvBatchSucceeds(files: seq<UploadFile>, canon: RowMapper)
    requires forall i :: 0 <= i < |files| ==> KindOf(files[i].name) == CsvKind && files[i].decoded
    ensures ParseBatch(files, canon).Ok? && |ParseBatch(files, canon).value| == |files|
    decreases |files|
  {
    if files != [] {
      var n := |files| - 1;
      assert forall i :: 0 <= i < n ==> files[..n][i] == files[i];
      CsvBatchSucceeds(files[..n], canon);
      var done := ParseBatch(files[..n], canon).value;
      assert ParseBatch(files, canon) == Ok(done + [CsvFile(files[n].name, files[n].csvRows, canon)]);
    }
  }

  /** The loop over the chosen files. */
  method ReadBatch(files: seq<UploadFile>, canon: RowMapper) returns (r: Result<seq<ParsedFile>>)
    ensures r == ParseBatch(files, canon)
  {
    var batch: seq<ParsedFile> := [];
    for i := 0 to |files|
      invariant ParseBatch(files[..i], canon) == Ok(batch)
    {
      var f := files[i];
      assert files[..i + 1][..i] == files[..i];
      assert files[..i + 1][i] == f;
      var ext := Extension(f.name);
      if ext == "csv" {
        if !f.decoded {
          ErrorIsSticky(files, i + 1, canon);
          return Err(UPLOAD_ERROR);
        }
        var pf := ParseCsvFile(f.name, f.csvRows, canon);
        batch := batch + [pf];
      } else if ext == "xlsx" || ext == "xls" {
        if !f.decoded {
          ErrorIsSticky(files, i + 1, canon);
          return Err(UPLOAD_ERROR);
        }
        var sheet := ParseSheetFile(f.name, f.sheetRows, canon);
        if sheet.Err? {
          ErrorIsSticky(files, i + 1, canon);
          return Err(sheet.message);
        }
        batch := batch + [sheet.value];
      }
    }
    assert files[..|files|] == files;
    return Ok(batch);
  }

  /** Once a prefix of the batch fails, the whole batch fails with the same error. */
  lemma {:induction false} ErrorIsSticky(files: seq<UploadFile>, k: nat, canon: RowMapper)
    requires k <= |files| && ParseBatch(files[..k], canon).Err?
    ensures ParseBatch(files, canon) == ParseBatch(files[..k], canon)
    decreases |files| - k
  {
    if k < |files| {
      assert files[..k + 1][..k] == files[..k];
      ErrorExtends(files[..k + 1], canon);
      ErrorIsSticky(files, k + 1, canon);
    } else {
      assert files[..k] == files;
    }
  }

  lemma ErrorExtends(files: seq<UploadFile>, canon: RowMapper)
    requires files != [] && ParseBatch(files[..|files| - 1], canon).Err?
    ensures ParseBatch(files, canon) == ParseBatch(files[..|files| - 1], canon)
  {
  }
}
