/** The string and row logic of the `result` command group: the parser for output-name
    arguments written as `[a, b]`, the header and data rows of `output-csv`, and the
    routing, normalisation, datetime rows, column names and row writing of
    `output-csv-queryable`. Data collections are taken as the commands see them
    (metadata, unit, values, and the text `str` gives for each datetime and value); the
    functions that match collections to rooms and faces are parameters. */
module CliResult {
  import opened Common
  import opened Text
  import Seqs

  /** Why a command fails (it then logs the exception and exits with status 1). */
  datatype CliError =
    | MissingKey(key: string)   // a `KeyError` reading a header's metadata
    | NoMatch                   // no requested output matched the model
    | ZeroDivision              // a face of zero area is normalised
    | RowIndexOutOfRange        // a collection has more values than there are datetime rows
    | UnboundLocal              // `matched_tup` read before any loop bound it
    | TupleIndexOutOfRange      // `matched_tup[2]` of a tuple with no third element

  /* ---------------------------------------------------------------- output names */

  const Brackets: set<char> := {'[', ']'}

  /** No whitespace at either end. */
  predicate Trimmed(s: string) {
    s == [] || (s[0] !in Whitespace && s[|s| - 1] !in Whitespace)
  }

  /** An output-name argument: passed through unless it starts with `[`; then the
      brackets are stripped from both ends, the rest is split on `,`, and each item loses
      every `"` and its surrounding whitespace. */
  function ParseOutputName(arg: string): (r: OutputName)
    ensures !StartsWith(arg, "[") ==> r == Single(arg)
    ensures StartsWith(arg, "[") ==>
              var pieces := Split(StripChars(arg, Brackets), ',');
              r.Several? && |r.names| == |pieces| == Count(StripChars(arg, Brackets), ',') + 1
              && forall k :: 0 <= k < |pieces| ==>
                   StrippedFrom(r.names[k], RemoveChar(pieces[k], '"'), Whitespace)
                   && '"' !in r.names[k] && ',' !in r.names[k] && Trimmed(r.names[k])
  {
    if !StartsWith(arg, "[") then Single(arg)
    else
      Several(Seqs.Map(Split(StripChars(arg, Brackets), ','), Item))
  }

  /** `outp.replace('"', '').strip()`: the piece without its quotes, less the whitespace
      at both ends. */
  function Item(piece: string): (r: string)
    ensures StrippedFrom(r, RemoveChar(piece, '"'), Whitespace)
    ensures '"' !in r && Trimmed(r)
    ensures ',' !in piece ==> ',' !in r
  {
    var unquoted := RemoveChar(piece, '"');
    assert ',' !in piece ==> multiset(piece)[','] == 0 == multiset(unquoted)[','];
    Strip(unquoted)
  }

  function Quoted(name: string): string {
    "\"" + name + "\""
  }

  /** Nothing but whitespace. */
  predicate Blank(s: string) {
    forall i :: 0 <= i < |s| ==> s[i] in Whitespace
  }

  /** Each name quoted, with whitespace `before[k]` and `after[k]` around it. */
  function PaddedItems(names: seq<string>, before: seq<string>, after: seq<string>): seq<string>
    requires |before| == |names| && |after| == |names|
  {
    seq(|names|, k requires 0 <= k < |names| => before[k] + Quoted(names[k]) + after[k])
  }

  /** A list of quoted names, `[ "a" , "b"]`, parses back into the names whatever the
      whitespace around each quoted name, provided no name holds a comma or a quote or has
      whitespace at its ends. */
  lemma ParsePaddedList(names: seq<string>, before: seq<string>, after: seq<string>)
    requires |names| >= 1 && |before| == |names| && |after| == |names|
    requires forall k :: 0 <= k < |names| ==>
               ',' !in names[k] && '"' !in names[k] && Trimmed(names[k])
               && Blank(before[k]) && Blank(after[k])
    ensures ParseOutputName("[" + Join(PaddedItems(names, before, after), ',') + "]")
              == Several(names)
  {
    var pieces := PaddedItems(names, before, after);
    var arg := "[" + Join(pieces, ',') + "]";
    BracketedStarts(Join(pieces, ','));
    PaddedListBody(names, before, after);
    ParseBracketed(arg, pieces);
    UnquoteAll(names, before, after);
  }

  lemma UnquoteAll(names: seq<string>, before: seq<string>, after: seq<string>)
    requires |before| == |names| && |after| == |names|
    requires forall k :: 0 <= k < |names| ==>
               '"' !in names[k] && Trimmed(names[k]) && Blank(before[k]) && Blank(after[k])
    ensures Seqs.Map(PaddedItems(names, before, after), Item) == names
  {
    var items := Seqs.Map(PaddedItems(names, before, after), Item);
    forall k | 0 <= k < |names|
      ensures items[k] == names[k]
    {
      UnquotePadded(before[k], names[k], after[k]);
    }
  }

  /** `json.dumps` of a list of names: `["a", "b"]`, a space after each comma. */
  function JsonList(names: seq<string>): string {
    var before := seq(|names|, k requires 0 <= k < |names| => if k == 0 then "" else " ");
    var after := seq(|names|, k requires 0 <= k < |names| => "");
    "[" + Join(PaddedItems(names, before, after), ',') + "]"
  }

  /** A JSON list of names parses back into the names. */
  lemma ParseJsonList(names: seq<string>)
    requires |names| >= 1
    requires forall k :: 0 <= k < |names| ==> ',' !in names[k] && '"' !in names[k] && Trimmed(names[k])
    ensures ParseOutputName(JsonList(names)) == Several(names)
  {
    var before := seq(|names|, k requires 0 <= k < |names| => if k == 0 then "" else " ");
    var after := seq(|names|, k requires 0 <= k < |names| => "");
    forall k | 0 <= k < |names|
      ensures Blank(before[k]) && Blank(after[k])
    {
    }
    ParsePaddedList(names, before, after);
  }

  /** A list of quoted names with no whitespace, `["a","b"]`, parses back into the names. */
  lemma ParseQuotedList(names: seq<string>)
    requires |names| >= 1
    requires forall k :: 0 <= k < |names| ==> ',' !in names[k] && '"' !in names[k] && Trimmed(names[k])
    ensures ParseOutputName("[" + Join(Seqs.Map(names, Quoted), ',') + "]") == Several(names)
  {
    var none := seq(|names|, k requires 0 <= k < |names| => "");
    var pieces := PaddedItems(names, none, none);
    forall k | 0 <= k < |names|
      ensures pieces[k] == Quoted(names[k]) && Blank(none[k])
    {
      assert "" + Quoted(names[k]) + "" == Quoted(names[k]);
    }
    assert pieces == Seqs.Map(names, Quoted);
    ParsePaddedList(names, none, none);
  }

  lemma BracketedStarts(j: string)
    ensures StartsWith("[" + j + "]", "[")
  {
    assert ("[" + j + "]")[..1] == "[";
  }

  /** A bracketed argument parses into its pieces, each unquoted and stripped. */
  lemma ParseBracketed(arg: string, pieces: seq<string>)
    requires StartsWith(arg, "[") && Split(StripChars(arg, Brackets), ',') == pieces
    ensures ParseOutputName(arg) == Several(Seqs.Map(pieces, Item))
  {
  }

  /** Whitespace holds no comma, quote or bracket. */
  lemma BlankHolds(s: string)
    requires Blank(s)
    ensures ',' !in s && '"' !in s && '[' !in s && ']' !in s
  {
  }

  /** The text between the brackets of a padded list splits back into its pieces. */
  lemma PaddedListBody(names: seq<string>, before: seq<string>, after: seq<string>)
    requires |names| >= 1 && |before| == |names| && |after| == |names|
    requires forall k :: 0 <= k < |names| ==>
               ',' !in names[k] && Blank(before[k]) && Blank(after[k])
    ensures var pieces := PaddedItems(names, before, after);
            Split(StripChars("[" + Join(pieces, ',') + "]", Brackets), ',') == pieces
  {
    var pieces := PaddedItems(names, before, after);
    forall k | 0 <= k < |pieces|
      ensures ',' !in pieces[k] && pieces[k] != []
              && pieces[k][0] !in Brackets && pieces[k][|pieces[k]| - 1] !in Brackets
    {
      PieceEnds(before[k], names[k], after[k]);
    }
    JoinFirst(pieces, ',');
    JoinLast(pieces, ',');
    StripListBrackets(Join(pieces, ','));
    SplitJoin(pieces, ',');
  }

  lemma PieceEnds(before: string, name: string, after: string)
    requires ',' !in name && Blank(before) && Blank(after)
    ensures var p := before + Quoted(name) + after;
            ',' !in p && p != [] && p[0] !in Brackets && p[|p| - 1] !in Brackets
  {
    var p := before + Quoted(name) + after;
    BlankHolds(before);
    BlankHolds(after);
    assert p == before + ['"'] + name + ['"'] + after;
    assert p[0] == if before == [] then '"' else before[0];
    assert p[|p| - 1] == if after == [] then '"' else after[|after| - 1];
  }

  /** Stripping the brackets of `[j]` gives `j` when `j` neither starts nor ends with one. */
  lemma StripListBrackets(j: string)
    requires j != [] && j[0] !in Brackets && j[|j| - 1] !in Brackets
    ensures StripChars("[" + j + "]", Brackets) == j
  {
    var arg := "[" + j + "]";
    assert arg[..1] == "[";
    assert arg[1..] == j + "]";
    assert TrimLeft(arg, Brackets) == j + "]";
    assert (j + "]")[..|j|] == j;
    assert TrimRight(j + "]", Brackets) == j;
  }

  /** A quoted name with whitespace around it is read back as the name. */
  lemma UnquotePadded(before: string, name: string, after: string)
    requires '"' !in name && Trimmed(name) && Blank(before) && Blank(after)
    ensures Item(before + Quoted(name) + after) == name
  {
    PaddedQuotesRemoved(before, name, after);
    StripPadded(before, name, after);
  }

  lemma PaddedQuotesRemoved(before: string, name: string, after: string)
    requires '"' !in name && Blank(before) && Blank(after)
    ensures RemoveChar(before + Quoted(name) + after, '"') == before + name + after
  {
    BlankHolds(before);
    BlankHolds(after);
    RemoveCharAppend(before + Quoted(name), after, '"');
    RemoveCharAppend(before, Quoted(name), '"');
    QuotesRemoved(name);
  }

  lemma StripPadded(before: string, name: string, after: string)
    requires Trimmed(name) && Blank(before) && Blank(after)
    ensures Strip(before + name + after) == name
  {
    var s := before + name + after;
    var a, b := |before|, |before| + |name|;
    assert s[a..b] == name;
    forall k | 0 <= k < a
      ensures s[k] in Whitespace
    {
      assert s[k] == before[k];
    }
    forall k | b <= k < |s|
      ensures s[k] in Whitespace
    {
      assert s[k] == after[k - b];
    }
    StrippedAt(name, s, Whitespace, a, b);
    StripCharsUnique(s, Whitespace, name);
  }

  lemma QuotesRemoved(name: string)
    requires '"' !in name
    ensures RemoveChar(Quoted(name), '"') == name
  {
    assert Quoted(name) == ("\"" + name) + "\"";
    RemoveCharAppend("\"" + name, "\"", '"');
    RemoveCharAppend("\"", name, '"');
    assert RemoveChar("\"", '"') == "";
  }

  /* ---------------------------------------------------------------- output-csv */

  /** A data collection as `output-csv` sees it: its metadata and unit, and the text `str`
      gives for each of its datetimes and values. */
  datatype CsvColumn = CsvColumn(
    metadata: map<string, string>, unit: string, datetimes: seq<string>, values: seq<string>)

  /** The first of `keys` present in `m` gives the value; none present gives `""`. */
  function FirstPresent(m: map<string, string>, keys: seq<string>): (r: string)
    ensures (forall i :: 0 <= i < |keys| ==> keys[i] !in m) ==> r == ""
    ensures forall i :: 0 <= i < |keys| && keys[i] in m && (forall j :: 0 <= j < i ==> keys[j] !in m)
              ==> r == m[keys[i]]
  {
    if keys == [] then ""
    else if keys[0] in m then m[keys[0]]
    else
      var r := FirstPresent(m, keys[1..]);
      assert forall i :: 1 <= i < |keys| ==> keys[i] == keys[1..][i - 1];
      r
  }

  /** The `obj_row` cell: the zone, else the surface, else the system, else empty. */
  function ObjectCell(metadata: map<string, string>): (r: string)
    ensures "Zone" in metadata ==> r == metadata["Zone"]
    ensures "Zone" !in metadata && "Surface" in metadata ==> r == metadata["Surface"]
    ensures "Zone" !in metadata && "Surface" !in metadata && "System" in metadata ==>
              r == metadata["System"]
    ensures "Zone" !in metadata && "Surface" !in metadata && "System" !in metadata ==> r == ""
  {
    var keys := ["Zone", "Surface", "System"];
    assert keys[0] == "Zone" && keys[1] == "Surface" && keys[2] == "System";
    FirstPresent(metadata, keys)
  }

  predicate HasTypes(colls: seq<CsvColumn>) {
    forall i :: 0 <= i < |colls| ==> "type" in colls[i].metadata
  }

  function TypeRow(colls: seq<CsvColumn>): seq<string>
    requires HasTypes(colls)
  {
    ["DateTime"] + seq(|colls|, i requires 0 <= i < |colls| => colls[i].metadata["type"])
  }

  function UnitsRow(colls: seq<CsvColumn>): seq<string> {
    [""] + seq(|colls|, i requires 0 <= i < |colls| => colls[i].unit)
  }

  function ObjRow(colls: seq<CsvColumn>): seq<string> {
    [""] + seq(|colls|, i requires 0 <= i < |colls| => ObjectCell(colls[i].metadata))
  }

  /** The datetimes of the first collection (when there is one) and then every
      collection's values. */
  function ValueColumns(colls: seq<CsvColumn>): seq<seq<string>> {
    (if colls == [] then [] else [colls[0].datetimes])
    + seq(|colls|, i requires 0 <= i < |colls| => colls[i].values)
  }

  function DataRows(colls: seq<CsvColumn>): seq<seq<string>> {
    Seqs.Zip(ValueColumns(colls))
  }

  /** `write_row`: the cells joined by `,`, ending the line. */
  function WriteRow(cells: seq<string>): string {
    Join(cells, ',') + "\n"
  }

  /** The text of rows written one after the other. */
  function Lines(rows: seq<seq<string>>): string {
    if rows == [] then "" else Lines(rows[..|rows| - 1]) + WriteRow(rows[|rows| - 1])
  }

  function CsvText(colls: seq<CsvColumn>): string
    requires HasTypes(colls)
  {
    Lines([TypeRow(colls), UnitsRow(colls), ObjRow(colls)] + DataRows(colls))
  }

  /** What `output-csv` writes, or the `KeyError` of a collection without a type. */
  function CsvOutput(colls: seq<CsvColumn>): Result<string, CliError> {
    if HasTypes(colls) then Ok(CsvText(colls)) else Err(MissingKey("type"))
  }

  /** The body of `output-csv` after the collections are read. */
  method OutputCsv(colls: seq<CsvColumn>) returns (r: Result<string, CliError>)
    ensures r == CsvOutput(colls)
  {
    if !HasTypes(colls) {
      return Err(MissingKey("type"));
    }
    var typeRow := TypeRow(colls);
    var unitsRow := UnitsRow(colls);
    var objRow := ObjectRow(colls);
    var rows := Seqs.Zip(ValueColumns(colls));
    var header := [typeRow, unitsRow, objRow];
    var out := WriteRow(typeRow) + WriteRow(unitsRow) + WriteRow(objRow);
    assert header[..2] == [typeRow, unitsRow] && header[..2][..1] == [typeRow];
    assert [typeRow][..0] == [];
    assert Lines([typeRow]) == WriteRow(typeRow);
    assert Lines(header[..2]) == WriteRow(typeRow) + WriteRow(unitsRow);
    assert out == Lines(header);
    out := AppendRows(out, header, rows);
    return Ok(out);
  }

  /** The `obj_row` loop. */
  method ObjectRow(colls: seq<CsvColumn>) returns (objRow: seq<string>)
    ensures objRow == ObjRow(colls)
  {
    objRow := [""];
    for i := 0 to |colls|
      invariant |objRow| == i + 1 && objRow[0] == ""
      invariant forall k :: 0 <= k < i ==> objRow[k + 1] == ObjectCell(colls[k].metadata)
    {
      objRow := objRow + [ObjectCell(colls[i].metadata)];
    }
  }

  /** Writing `rows` after the text of the rows `prior`, one `write_row` each. */
  method AppendRows(text: string, prior: seq<seq<string>>, rows: seq<seq<string>>)
    returns (out: string)
    requires text == Lines(prior)
    ensures out == Lines(prior + rows)
  {
    out := text;
    assert prior + rows[..0] == prior;
    for i := 0 to |rows|
      invariant out == Lines(prior + rows[..i])
    {
      assert prior + rows[..i + 1] == (prior + rows[..i]) + [rows[i]];
      LinesSnoc(prior + rows[..i], rows[i]);
      out := out + WriteRow(rows[i]);
    }
    assert rows[..|rows|] == rows;
  }

  lemma LinesSnoc(rows: seq<seq<string>>, row: seq<string>)
    ensures Lines(rows + [row]) == Lines(rows) + WriteRow(row)
  {
    assert (rows + [row])[..|rows|] == rows;
  }

  /** The three header rows have one cell per collection after a leading `DateTime`,
      `''` and `''`. */
  lemma HeaderRows(colls: seq<CsvColumn>)
    requires HasTypes(colls)
    ensures |TypeRow(colls)| == |UnitsRow(colls)| == |ObjRow(colls)| == 1 + |colls|
    ensures TypeRow(colls)[0] == "DateTime" && UnitsRow(colls)[0] == "" && ObjRow(colls)[0] == ""
    ensures forall i :: 0 <= i < |colls| ==>
              TypeRow(colls)[i + 1] == colls[i].metadata["type"]
              && UnitsRow(colls)[i + 1] == colls[i].unit
              && ObjRow(colls)[i + 1] == ObjectCell(colls[i].metadata)
  {
  }

  /** With no collections there is no datetime column and no data row; otherwise there is
      one row per entry of the shortest column, holding that entry's datetime and then
      each collection's value. */
  lemma DataRowsShape(colls: seq<CsvColumn>)
    ensures colls == [] ==> DataRows(colls) == []
    ensures colls != [] ==> |DataRows(colls)| == Seqs.MinLength(ValueColumns(colls))
    ensures colls != [] ==>
              |DataRows(colls)| <= |colls[0].datetimes|
              && (forall c :: 0 <= c < |colls| ==> |DataRows(colls)| <= |colls[c].values|)
              && forall i :: 0 <= i < |DataRows(colls)| ==>
                   |DataRows(colls)[i]| == 1 + |colls|
                   && DataRows(colls)[i][0] == colls[0].datetimes[i]
                   && forall c :: 0 <= c < |colls| ==> DataRows(colls)[i][c + 1] == colls[c].values[i]
  {
    if colls != [] {
      var cols := ValueColumns(colls);
      assert cols[0] == colls[0].datetimes;
      assert forall c :: 0 <= c < |colls| ==> cols[c + 1] == colls[c].values;
    }
  }

  /** When every collection has one value per datetime, there is one data row per
      datetime. */
  lemma DataRowsCount(colls: seq<CsvColumn>)
    requires colls != []
    requires forall c :: 0 <= c < |colls| ==> |colls[c].values| == |colls[0].datetimes|
    ensures |DataRows(colls)| == |colls[0].datetimes|
  {
    var cols := ValueColumns(colls);
    assert cols[0] == colls[0].datetimes;
    assert forall c :: 1 <= c < |cols| ==> cols[c] == colls[c - 1].values;
  }

  predicate NoBreaks(rows: seq<seq<string>>) {
    forall i, k :: 0 <= i < |rows| && 0 <= k < |rows[i]| ==> '\n' !in rows[i][k]
  }

  /** Splitting written rows on line breaks gives one line per row, then the empty text
      after the final break. */
  lemma {:induction false} LinesSplit(rows: seq<seq<string>>)
    requires NoBreaks(rows)
    ensures Split(Lines(rows), '\n')
            == seq(|rows|, i requires 0 <= i < |rows| => Join(rows[i], ',')) + [""]
  {
    if rows != [] {
      var init, row := rows[..|rows| - 1], rows[|rows| - 1];
      LinesSplit(init);
      var prev, j := Lines(init), Join(row, ',');
      JoinWithout(row, ',', '\n');
      assert Lines(rows) == (prev + j) + ['\n'] + "";
      SplitAppend(prev + j, "", '\n');
      SplitExtend(prev, j, '\n');
      var p := Split(prev, '\n');
      assert p[..|p| - 1] == seq(|init|, i requires 0 <= i < |init| => Join(init[i], ','));
      assert p[|p| - 1] + j == j;
    }
  }

  /** Reading the written text back, line by line and cell by cell, gives the rows again
      when no cell holds a comma or a line break. */
  lemma CsvRoundTrip(rows: seq<seq<string>>, i: nat)
    requires NoBreaks(rows) && i < |rows| && |rows[i]| >= 1
    requires forall k :: 0 <= k < |rows[i]| ==> ',' !in rows[i][k]
    ensures |Split(Lines(rows), '\n')| == |rows| + 1
    ensures Split(Split(Lines(rows), '\n')[i], ',') == rows[i]
  {
    LinesSplit(rows);
    SplitJoin(rows[i], ',');
  }

  /* ---------------------------------------------------------------- output-csv-queryable */

  /** A data collection as `output-csv-queryable` sees it. */
  datatype Collection = Collection(
    metadata: map<string, string>, outputType: string, normalizable: bool, values: seq<real>)

  /** A model object that collections are matched to: its identifier, its area (for a
      face) and its floor area (for a room). */
  datatype Host = Host(identifier: string, area: real, floorArea: real)

  /** A matched tuple: the object, the output type of the collection, whether that type
      has a normalised form, the collection's values, the room multiplier (1 for a
      face), and the kind and datetimes of the collection. */
  datatype Matched = Matched(
    host: Host, outputType: string, normalizable: bool, values: seq<real>, multiplier: int,
    series: BaseSeries)

  type Matcher = seq<Collection> -> seq<Matched>
  type Groups = (seq<seq<Matched>>, seq<seq<Matched>>)

  /** One output's collections routed to the room or the face data: surface outputs are
      matched to faces, zone and system outputs to rooms, others are skipped, and so is
      an output that matches nothing. */
  function RouteOne(acc: Groups, colls: seq<Collection>, matchFaces: Matcher, matchRooms: Matcher)
    : Groups
  {
    if |colls| == 0 then acc
    else if "Surface" in colls[0].metadata then
      var m := matchFaces(colls);
      if |m| != 0 then (acc.0, acc.1 + [m]) else acc
    else if "Zone" in colls[0].metadata || "System" in colls[0].metadata then
      var m := matchRooms(colls);
      if |m| != 0 then (acc.0 + [m], acc.1) else acc
    else acc
  }

  /** The room and face data of all outputs, in output order. */
  function Route(dataColls: seq<seq<Collection>>, matchFaces: Matcher, matchRooms: Matcher)
    : Groups
  {
    if dataColls == [] then ([], [])
    else RouteOne(Route(dataColls[..|dataColls| - 1], matchFaces, matchRooms),
                  dataColls[|dataColls| - 1], matchFaces, matchRooms)
  }

  predicate AllNonEmpty(groups: seq<seq<Matched>>) {
    forall g :: 0 <= g < |groups| ==> groups[g] != []
  }

  /** Only non-empty matches are kept, and no output list whose first collection lacks a
      `Surface` key contributes face data. */
  lemma {:induction false} RouteKeepsMatches(dataColls: seq<seq<Collection>>,
                                             matchFaces: Matcher, matchRooms: Matcher)
    ensures AllNonEmpty(Route(dataColls, matchFaces, matchRooms).0)
    ensures AllNonEmpty(Route(dataColls, matchFaces, matchRooms).1)
    ensures (forall o :: 0 <= o < |dataColls| && dataColls[o] != [] ==>
               "Surface" !in dataColls[o][0].metadata)
            ==> Route(dataColls, matchFaces, matchRooms).1 == []
  {
    if dataColls != [] {
      RouteKeepsMatches(dataColls[..|dataColls| - 1], matchFaces, matchRooms);
    }
  }

  /** The matching loop and the assertion that something matched. */
  method MatchToModel(dataColls: seq<seq<Collection>>, matchFaces: Matcher, matchRooms: Matcher)
    returns (r: Result<Groups, CliError>)
    ensures var g := Route(dataColls, matchFaces, matchRooms);
            (r.Err? <==> g.0 == [] && g.1 == []) && (r.Err? ==> r.error == NoMatch)
            && (r.Ok? ==> r.value == g)
  {
    var rooms: seq<seq<Matched>> := [];
    var faces: seq<seq<Matched>> := [];
    for o := 0 to |dataColls|
      invariant (rooms, faces) == Route(dataColls[..o], matchFaces, matchRooms)
    {
      assert dataColls[..o + 1][..o] == dataColls[..o];
      var colls := dataColls[o];
      if |colls| == 0 {
        continue;
      }
      if "Surface" in colls[0].metadata {
        var m := matchFaces(colls);
        if |m| != 0 {
          faces := faces + [m];
        }
      } else if "Zone" in colls[0].metadata || "System" in colls[0].metadata {
        var m := matchRooms(colls);
        if |m| != 0 {
          rooms := rooms + [m];
        }
      }
    }
    assert dataColls[..|dataColls|] == dataColls;
    if |rooms| == 0 && |faces| == 0 {
      return Err(NoMatch);
    }
    return Ok((rooms, faces));
  }

  /** Normalisation applies to a group when it was asked for and the group's first
      collection has a normalised type. */
  predicate Normalizes(normalize: bool, group: seq<Matched>) {
    normalize && group != [] && group[0].normalizable
  }

  /** Room values divided by floor area times multiplier; a zero divisor gives zeros. */
  function NormalizedRoomValues(values: seq<real>, floorArea: real, multiplier: int): (r: seq<real>)
    ensures |r| == |values|
    ensures floorArea * multiplier as real == 0.0 ==> forall k :: 0 <= k < |r| ==> r[k] == 0.0
    ensures floorArea * multiplier as real != 0.0 ==>
              forall k :: 0 <= k < |r| ==> r[k] * (floorArea * multiplier as real) == values[k]
  {
    var d := floorArea * multiplier as real;
    if d == 0.0 then seq(|values|, k => 0.0)
    else
      seq(|values|, k requires 0 <= k < |values| => Quotient(values[k], d))
  }

  /** `v / d`, with the fact that multiplying back gives `v`. */
  function Quotient(v: real, d: real): (q: real)
    requires d != 0.0
    ensures q * d == v
  {
    v / d
  }

  /** `[val / d for val in values]`: each value divided by `d`; a zero `d` fails with a
      division by zero once there is a value. */
  function DividedValues(values: seq<real>, d: real): (r: Result<seq<real>, CliError>)
    ensures r.Err? <==> d == 0.0 && values != []
    ensures r.Err? ==> r.error == ZeroDivision
    ensures r.Ok? ==> |r.value| == |values|
    ensures r.Ok? && d != 0.0 ==> forall k :: 0 <= k < |values| ==> r.value[k] * d == values[k]
  {
    if values == [] then Ok([])
    else if d == 0.0 then Err(ZeroDivision)
    else Ok(seq(|values|, k requires 0 <= k < |values| => Quotient(values[k], d)))
  }

  /** A face is normalised by its area. */
  function FaceArea(m: Matched): real {
    m.host.area
  }

  /** A room's values are divided by its multiplier. */
  function Multiplier(m: Matched): real {
    m.multiplier as real
  }

  predicate DivisionFails(m: Matched, divisor: Matched -> real) {
    DividedValues(m.values, divisor(m)).Err?
  }

  function WithValuesDivided(m: Matched, divisor: Matched -> real): Matched
    requires !DivisionFails(m, divisor)
  {
    m.(values := DividedValues(m.values, divisor(m)).value)
  }

  /** Every tuple of a group with its values divided, or the division by zero of the
      first tuple that fails. */
  function DivideAll(group: seq<Matched>, divisor: Matched -> real): (r: Result<seq<Matched>, CliError>)
    ensures r.Err? <==> exists k :: 0 <= k < |group| && DivisionFails(group[k], divisor)
    ensures r.Err? ==> r.error == ZeroDivision
    ensures r.Ok? ==> |r.value| == |group|
                      && forall k :: 0 <= k < |group| ==>
                           !DivisionFails(group[k], divisor)
                           && r.value[k] == WithValuesDivided(group[k], divisor)
  {
    if exists k :: 0 <= k < |group| && DivisionFails(group[k], divisor) then Err(ZeroDivision)
    else Ok(seq(|group|, k requires 0 <= k < |group| => WithValuesDivided(group[k], divisor)))
  }

  /** After a failed division: the tuples before the first failing one `f` are divided,
      and `f` and the tuples after it are as they were. */
  predicate DividedUpTo(before: seq<Matched>, after: seq<Matched>, divisor: Matched -> real) {
    |after| == |before|
    && exists f :: 0 <= f < |before| && DivisionFails(before[f], divisor)
                   && (forall j :: 0 <= j < f ==>
                         !DivisionFails(before[j], divisor) && after[j] == WithValuesDivided(before[j], divisor))
                   && forall j :: f <= j < |before| ==> after[j] == before[j]
  }

  /** Division of one group, in place, tuple by tuple: the inner loops of face
      normalisation and of the room-multiplier branch. A failing tuple stops the loop. */
  method DivideGroup(group: array<Matched>, divisor: Matched -> real) returns (r: Option<CliError>)
    modifies group
    ensures r.None? <==> DivideAll(old(group[..]), divisor).Ok?
    ensures r.None? ==> group[..] == DivideAll(old(group[..]), divisor).value
    ensures r.Some? ==> r == Some(ZeroDivision) && DividedUpTo(old(group[..]), group[..], divisor)
  {
    for k := 0 to group.Length
      invariant forall j :: 0 <= j < k ==>
                  !DivisionFails(old(group[j]), divisor)
                  && group[j] == WithValuesDivided(old(group[j]), divisor)
      invariant forall j :: k <= j < group.Length ==> group[j] == old(group[j])
    {
      var divided := DividedValues(group[k].values, divisor(group[k]));
      if divided.Err? {
        assert DivisionFails(old(group[..])[k], divisor);
        DividedUpToAt(old(group[..]), group[..], divisor, k);
        return Some(divided.error);
      }
      group[k] := group[k].(values := divided.value);
    }
    assert group[..] == DivideAll(old(group[..]), divisor).value;
    return None;
  }

  lemma DividedUpToAt(before: seq<Matched>, after: seq<Matched>, divisor: Matched -> real, f: nat)
    requires |after| == |before| && f < |before| && DivisionFails(before[f], divisor)
    requires forall j :: 0 <= j < f ==>
               !DivisionFails(before[j], divisor) && after[j] == WithValuesDivided(before[j], divisor)
    requires forall j :: f <= j < |before| ==> after[j] == before[j]
    ensures DividedUpTo(before, after, divisor)
  {
  }

  function WithRoomValuesNormalized(m: Matched): Matched {
    m.(values := NormalizedRoomValues(m.values, m.host.floorArea, m.multiplier))
  }

  /** Room normalisation of one group, in place. */
  method NormalizeRoomGroup(group: array<Matched>)
    modifies group
    ensures forall k :: 0 <= k < group.Length ==> group[k] == WithRoomValuesNormalized(old(group[k]))
  {
    for k := 0 to group.Length
      invariant forall j :: 0 <= j < k ==> group[j] == WithRoomValuesNormalized(old(group[j]))
      invariant forall j :: k <= j < group.Length ==> group[j] == old(group[j])
    {
      group[k] := WithRoomValuesNormalized(group[k]);
    }
  }

  /** The face loop over one group: normalised when `Normalizes` holds, else left as is. */
  method NormalizeFaces(normalize: bool, group: array<Matched>) returns (r: Option<CliError>)
    modifies group
    ensures !Normalizes(normalize, old(group[..])) ==> r.None? && group[..] == old(group[..])
    ensures Normalizes(normalize, old(group[..])) ==>
              (r.None? <==> DivideAll(old(group[..]), FaceArea).Ok?)
              && (r.None? ==> group[..] == DivideAll(old(group[..]), FaceArea).value)
              && (r.Some? ==> r == Some(ZeroDivision) && DividedUpTo(old(group[..]), group[..], FaceArea))
  {
    if normalize && group.Length > 0 && group[0].normalizable {
      r := DivideGroup(group, FaceArea);
    } else {
      r := None;
    }
  }

  /** What one room group becomes, as the comment on the room loop intends: normalised
      when `Normalizes` holds, and otherwise each tuple's values divided by its multiplier. */
  function RoomGroupIntended(normalize: bool, group: seq<Matched>): (r: Result<seq<Matched>, CliError>)
    ensures Normalizes(normalize, group) ==> r == Ok(Seqs.Map(group, WithRoomValuesNormalized))
    ensures !Normalizes(normalize, group) ==> r == DivideAll(group, Multiplier)
  {
    if Normalizes(normalize, group) then Ok(Seqs.Map(group, WithRoomValuesNormalized))
    else DivideAll(group, Multiplier)
  }

  /** A room group that is not normalised still accounts for the room multipliers: with
      no zero multiplier the division succeeds, and each value times its multiplier is the
      value it replaces. */
  lemma MultipliersAccounted(normalize: bool, group: seq<Matched>)
    requires !Normalizes(normalize, group)
    requires forall k :: 0 <= k < |group| ==> group[k].multiplier != 0
    ensures var r := RoomGroupIntended(normalize, group);
            r.Ok? && |r.value| == |group|
            && forall k, j :: 0 <= k < |group| && 0 <= j < |group[k].values| ==>
                 r.value[k].host == group[k].host && |r.value[k].values| == |group[k].values|
                 && r.value[k].values[j] * group[k].multiplier as real == group[k].values[j]
  {
    forall k | 0 <= k < |group|
      ensures !DivisionFails(group[k], Multiplier)
    {
      assert Multiplier(group[k]) != 0.0;
    }
  }

  /** The room loop over one group, as intended: see `RoomGroupIntended`. */
  method NormalizeRooms(normalize: bool, group: array<Matched>) returns (r: Option<CliError>)
    modifies group
    ensures r.None? <==> RoomGroupIntended(normalize, old(group[..])).Ok?
    ensures r.None? ==> group[..] == RoomGroupIntended(normalize, old(group[..])).value
    ensures r.Some? ==> r == Some(ZeroDivision) && DividedUpTo(old(group[..]), group[..], Multiplier)
  {
    if normalize && group.Length > 0 && group[0].normalizable {
      NormalizeRoomGroup(group);
      r := None;
    } else {
      r := DivideGroup(group, Multiplier);
    }
  }

  /* ------------------------------------------------ normalisation as written */

  /** What `matched_tup` is bound to when the room loop reaches a group: nothing yet, a
      tuple of a face group, or a tuple of a room group. */
  datatype Binding = Unbound | FaceTuple(group: nat, index: nat) | RoomTuple(group: nat, index: nat)

  /** The groups as the normalisation loops leave them so far, and the binding of
      `matched_tup`. */
  datatype LoopState = LoopState(rooms: seq<seq<Matched>>, faces: seq<seq<Matched>>, bound: Binding)

  /** The binding points at a tuple that exists, and a room tuple at a group before `g`. */
  predicate BindingValid(st: LoopState, g: nat) {
    match st.bound
    case Unbound => true
    case FaceTuple(fg, fk) => fg < |st.faces| && fk < |st.faces[fg]|
    case RoomTuple(rg, rk) => rg < g && rg < |st.rooms| && rk < |st.rooms[rg]|
  }

  /** The face loop, which runs only when normalisation is asked for: each normalizable
      group divided by the face areas; a division by zero stops the command. */
  function FaceLoop(normalize: bool, faces: seq<seq<Matched>>): (r: Result<seq<seq<Matched>>, CliError>)
    ensures !normalize ==> r == Ok(faces)
    ensures r.Ok? ==> |r.value| == |faces|
                      && forall g :: 0 <= g < |faces| ==> |r.value[g]| == |faces[g]|
  {
    if exists g :: 0 <= g < |faces| && Normalizes(normalize, faces[g]) && DivideAll(faces[g], FaceArea).Err?
    then Err(ZeroDivision)
    else
      var r := seq(|faces|, g requires 0 <= g < |faces| =>
                    if Normalizes(normalize, faces[g]) then DivideAll(faces[g], FaceArea).value else faces[g]);
      assert !normalize ==> r == faces;
      Ok(r)
  }

  /** The inner face loop binds `matched_tup` to each tuple in turn, so after the face loop
      it is the last tuple of the last group normalised, if any. */
  function FaceLoopBinding(normalize: bool, faces: seq<seq<Matched>>): (r: Binding)
    ensures !normalize ==> r == Unbound
    ensures !r.RoomTuple?
    ensures r.FaceTuple? ==> r.group < |faces| && r.index == |faces[r.group]| - 1
                             && Normalizes(normalize, faces[r.group])
  {
    if faces == [] then Unbound
    else if Normalizes(normalize, faces[|faces| - 1]) then
      FaceTuple(|faces| - 1, |faces[|faces| - 1]| - 1)
    else
      var r := FaceLoopBinding(normalize, faces[..|faces| - 1]);
      assert r.FaceTuple? ==> faces[..|faces| - 1][r.group] == faces[r.group];
      r
  }

  /** `matched_tup[1].values = [val / matched_tup[2] ...]` on the tuple the binding points
      at, which is never one of the current group; a face tuple without a third element
      fails on the index. */
  function DivideBound(st: LoopState, g: nat, facesCarryMultiplier: bool): (r: Result<LoopState, CliError>)
    requires BindingValid(st, g)
    ensures st.bound.Unbound? ==> r == Err(UnboundLocal)
    ensures r.Ok? ==> r.value.bound == st.bound && BindingValid(r.value, g)
                      && |r.value.rooms| == |st.rooms| && |r.value.faces| == |st.faces|
                      && forall h :: 0 <= h < |st.rooms| && !(st.bound.RoomTuple? && st.bound.group == h) ==>
                           r.value.rooms[h] == st.rooms[h]
  {
    match st.bound
    case Unbound => Err(UnboundLocal)
    case FaceTuple(fg, fk) =>
      if !facesCarryMultiplier then Err(TupleIndexOutOfRange)
      else
        var m := st.faces[fg][fk];
        var d := DividedValues(m.values, Multiplier(m));
        if d.Err? then Err(d.error)
        else Ok(st.(faces := st.faces[fg := st.faces[fg][fk := m.(values := d.value)]]))
    case RoomTuple(rg, rk) =>
      var m := st.rooms[rg][rk];
      var d := DividedValues(m.values, Multiplier(m));
      if d.Err? then Err(d.error)
      else Ok(st.(rooms := st.rooms[rg := st.rooms[rg][rk := m.(values := d.value)]]))
  }

  /** One step of the room loop as written, on group `g`: a normalised group binds
      `matched_tup` to its last tuple; any other group divides the bound tuple instead of
      its own. Only group `g`, when normalised, and the bound group can change. */
  function RoomStep(normalize: bool, facesCarryMultiplier: bool, st: LoopState, g: nat)
    : (r: Result<LoopState, CliError>)
    requires g < |st.rooms| && BindingValid(st, g)
    ensures r.Ok? ==> |r.value.rooms| == |st.rooms| && BindingValid(r.value, g + 1)
    ensures r.Ok? ==> r.value.bound == st.bound || (Normalizes(normalize, st.rooms[g]) && r.value.bound.RoomTuple? && r.value.bound.group == g)
    ensures r.Ok? ==> forall h :: 0 <= h < |st.rooms| && !(st.bound.RoomTuple? && st.bound.group == h)
                                  && !(h == g && Normalizes(normalize, st.rooms[g])) ==>
                        r.value.rooms[h] == st.rooms[h]
  {
    if Normalizes(normalize, st.rooms[g]) then
      Ok(st.(rooms := st.rooms[g := Seqs.Map(st.rooms[g], WithRoomValuesNormalized)],
             bound := RoomTuple(g, |st.rooms[g]| - 1)))
    else
      DivideBound(st, g, facesCarryMultiplier)
  }

  /** The room loop as written, from group `g` on. */
  function RoomLoopAsWritten(normalize: bool, facesCarryMultiplier: bool, st: LoopState, g: nat)
    : (r: Result<LoopState, CliError>)
    requires g <= |st.rooms| && BindingValid(st, g)
    ensures r.Ok? ==> |r.value.rooms| == |st.rooms|
    decreases |st.rooms| - g
  {
    if g == |st.rooms| then Ok(st)
    else
      var next := RoomStep(normalize, facesCarryMultiplier, st, g);
      if next.Err? then next
      else RoomLoopAsWritten(normalize, facesCarryMultiplier, next.value, g + 1)
  }

  /** Both normalisation loops, as written. */
  function NormalizeAsWritten(normalize: bool, facesCarryMultiplier: bool,
                              rooms: seq<seq<Matched>>, faces: seq<seq<Matched>>)
    : Result<LoopState, CliError>
  {
    var faced := FaceLoop(normalize, faces);
    if faced.Err? then Err(faced.error)
    else
      var bound := FaceLoopBinding(normalize, faces);
      RoomLoopAsWritten(normalize, facesCarryMultiplier, LoopState(rooms, faced.value, bound), 0)
  }

  /** With `--no-normalize` the face loop binds nothing, so the first room group reads an
      unbound `matched_tup`: the command fails whenever room data matched. */
  lemma NoNormalizeFails(facesCarryMultiplier: bool, rooms: seq<seq<Matched>>, faces: seq<seq<Matched>>)
    requires rooms != []
    ensures NormalizeAsWritten(false, facesCarryMultiplier, rooms, faces) == Err(UnboundLocal)
  {
    var st := LoopState(rooms, faces, Unbound);
    assert !Normalizes(false, rooms[0]);
    assert RoomLoopAsWritten(false, facesCarryMultiplier, st, 0) == DivideBound(st, 0, facesCarryMultiplier);
  }

  /** As written, a room group that is not normalised leaves the loop exactly as it came:
      its multipliers are never applied. The same holds for an earlier group that no
      binding points at. */
  lemma {:induction false} UnnormalizedRoomsUntouched(normalize: bool, facesCarryMultiplier: bool,
                                                     st: LoopState, g: nat, h: nat)
    requires g <= |st.rooms| && h < |st.rooms| && BindingValid(st, g)
    requires !(st.bound.RoomTuple? && st.bound.group == h)
    requires h >= g ==> !Normalizes(normalize, st.rooms[h])
    requires RoomLoopAsWritten(normalize, facesCarryMultiplier, st, g).Ok?
    ensures RoomLoopAsWritten(normalize, facesCarryMultiplier, st, g).value.rooms[h] == st.rooms[h]
    decreases |st.rooms| - g
  {
    if g < |st.rooms| {
      var next := UntouchedStep(normalize, facesCarryMultiplier, st, g, h);
      UnnormalizedRoomsUntouched(normalize, facesCarryMultiplier, next, g + 1, h);
    } else {
      assert RoomLoopAsWritten(normalize, facesCarryMultiplier, st, g) == Ok(st);
    }
  }

  /** One step of `UnnormalizedRoomsUntouched`: the state after group `g` still meets its
      requirements and leaves group `h` as it was. */
  lemma UntouchedStep(normalize: bool, facesCarryMultiplier: bool, st: LoopState, g: nat, h: nat)
    returns (next: LoopState)
    requires g < |st.rooms| && h < |st.rooms| && BindingValid(st, g)
    requires !(st.bound.RoomTuple? && st.bound.group == h)
    requires h >= g ==> !Normalizes(normalize, st.rooms[h])
    requires RoomLoopAsWritten(normalize, facesCarryMultiplier, st, g).Ok?
    ensures |next.rooms| == |st.rooms| && BindingValid(next, g + 1)
    ensures RoomLoopAsWritten(normalize, facesCarryMultiplier, next, g + 1)
              == RoomLoopAsWritten(normalize, facesCarryMultiplier, st, g)
    ensures next.rooms[h] == st.rooms[h] && !(next.bound.RoomTuple? && next.bound.group == h)
    ensures h >= g + 1 ==> !Normalizes(normalize, next.rooms[h])
  {
    next := RoomStep(normalize, facesCarryMultiplier, st, g).value;
  }

  lemma DividedSingle(v: real, d: real)
    requires d != 0.0
    ensures DividedValues([v], d) == Ok([v / d])
  {
    var r := DividedValues([v], d);
    assert r.value[0] == Quotient(v, d);
    assert r.value == [v / d];
  }

  /** A normalised room group followed by one that is not: as written the first group's
      last tuple is divided by its multiplier a second time and the second group keeps its
      values; as intended the first group is only normalised and the second is divided by
      its multiplier. */
  lemma DoubleDivision()
    ensures var a := Matched(Host("a", 0.0, 1.0), "Zone Energy", true, [4.0], 2, OtherSeries(false));
            var b := Matched(Host("b", 0.0, 1.0), "Zone Temperature", false, [4.0], 2, OtherSeries(false));
            NormalizeAsWritten(true, true, [[a], [b]], [])
              == Ok(LoopState([[a.(values := [1.0])], [b]], [], RoomTuple(0, 0)))
            && RoomGroupIntended(true, [a]) == Ok([a.(values := [2.0])])
            && RoomGroupIntended(true, [b]) == Ok([b.(values := [2.0])])
  {
    var a := Matched(Host("a", 0.0, 1.0), "Zone Energy", true, [4.0], 2, OtherSeries(false));
    var b := Matched(Host("b", 0.0, 1.0), "Zone Temperature", false, [4.0], 2, OtherSeries(false));
    var a1, a2, b1 := a.(values := [2.0]), a.(values := [1.0]), b.(values := [2.0]);
    assert NormalizedRoomValues([4.0], 1.0, 2) == [2.0];
    assert Seqs.Map([a], WithRoomValuesNormalized) == [a1];
    DividedSingle(2.0, 2.0);
    DividedSingle(4.0, 2.0);
    assert FaceLoop(true, []) == Ok([]);
    var st0 := LoopState([[a], [b]], [], Unbound);
    var st1 := LoopState([[a1], [b]], [], RoomTuple(0, 0));
    var st2 := LoopState([[a2], [b]], [], RoomTuple(0, 0));
    assert st0.rooms[0 := [a1]] == st1.rooms;
    assert RoomLoopAsWritten(true, true, st0, 0) == RoomLoopAsWritten(true, true, st1, 1);
    assert a1.(values := [1.0]) == a2 && [a1][0 := a2] == [a2];
    assert st1.rooms[0 := [a2]] == st2.rooms;
    assert DivideBound(st1, 1, true) == Ok(st2);
    assert RoomLoopAsWritten(true, true, st1, 1) == RoomLoopAsWritten(true, true, st2, 2);
    assert !DivisionFails(b, Multiplier) && WithValuesDivided(b, Multiplier) == b1;
    assert DivideAll([b], Multiplier).value == [b1];
  }

  /* ---------------------------------------------------------------- datetime rows */

  datatype Moment = Moment(month: int, day: int, hour: int, minute: int)

  /** The collection the datetime column is taken from, by kind. */
  datatype BaseSeries =
    | HourlySeries(isLeapYear: bool, moments: seq<Moment>)
    | DailySeries(isLeapYear: bool, doys: seq<int>)
    | MonthlySeries(isLeapYear: bool, months: seq<int>)
    | OtherSeries(isLeapYear: bool)

  function Year(isLeapYear: bool): string {
    if isLeapYear then "2016" else "2017"
  }

  function SeriesLength(base: BaseSeries): nat {
    match base
    case HourlySeries(_, moments) => |moments|
    case DailySeries(_, doys) => |doys|
    case MonthlySeries(_, months) => |months|
    case OtherSeries(_) => 0
  }

  /** The `date_times` table of a base collection: one five-cell row per moment, day or
      month, none for another kind of collection, each starting with the year. */
  predicate DateTimeTable(rows: seq<seq<string>>, base: BaseSeries, fromDoy: int -> (int, int)) {
    && |rows| == SeriesLength(base)
    && (forall i :: 0 <= i < |rows| ==> |rows[i]| == 5 && rows[i][0] == Year(base.isLeapYear))
    && (base.HourlySeries? ==> forall i :: 0 <= i < |rows| ==>
          var m := base.moments[i];
          rows[i][1..] == [IntToString(m.month), IntToString(m.day), IntToString(m.hour),
                           IntToString(m.minute)])
    && (base.DailySeries? ==> forall i :: 0 <= i < |rows| ==>
          var date := fromDoy(base.doys[i]);
          rows[i][1..] == [IntToString(date.0), IntToString(date.1), "0", "0"])
    && (base.MonthlySeries? ==> forall i :: 0 <= i < |rows| ==>
          rows[i][1..] == [IntToString(base.months[i]), "1", "0", "0"])
  }

  /** The table determines the rows: any two tables of the same base are equal. */
  lemma DateTimeTableUnique(rows1: seq<seq<string>>, rows2: seq<seq<string>>, base: BaseSeries,
                            fromDoy: int -> (int, int))
    requires DateTimeTable(rows1, base, fromDoy) && DateTimeTable(rows2, base, fromDoy)
    ensures rows1 == rows2
  {
    forall i | 0 <= i < |rows1|
      ensures rows1[i] == rows2[i]
    {
      assert rows1[i] == [rows1[i][0]] + rows1[i][1..];
      assert rows2[i] == [rows2[i][0]] + rows2[i][1..];
    }
  }

  /** The `date_times` rows: `[year, month, day, hour, minute]` for hourly data, the date
      of each day of the year with `0, 0` for daily data, `[year, month, 1, 0, 0]` for
      monthly data. `fromDoy` gives the (month, day) of a day of the year. */
  method DateTimeRows(base: BaseSeries, fromDoy: int -> (int, int)) returns (rows: seq<seq<string>>)
    ensures DateTimeTable(rows, base, fromDoy)
  {
    var year := Year(base.isLeapYear);
    rows := [];
    match base
    case HourlySeries(_, moments) =>
      for i := 0 to |moments|
        invariant |rows| == i
        invariant forall j :: 0 <= j < i ==>
                    rows[j] == [year, IntToString(moments[j].month), IntToString(moments[j].day),
                                IntToString(moments[j].hour), IntToString(moments[j].minute)]
      {
        var m := moments[i];
        rows := rows + [[year, IntToString(m.month), IntToString(m.day), IntToString(m.hour),
                         IntToString(m.minute)]];
      }
    case DailySeries(_, doys) =>
      for i := 0 to |doys|
        invariant |rows| == i
        invariant forall j :: 0 <= j < i ==>
                    rows[j] == [year, IntToString(fromDoy(doys[j]).0), IntToString(fromDoy(doys[j]).1),
                                "0", "0"]
      {
        var date := fromDoy(doys[i]);
        rows := rows + [[year, IntToString(date.0), IntToString(date.1), "0", "0"]];
      }
    case MonthlySeries(_, months) =>
      for i := 0 to |months|
        invariant |rows| == i
        invariant forall j :: 0 <= j < i ==> rows[j] == [year, IntToString(months[j]), "1", "0", "0"]
      {
        rows := rows + [[year, IntToString(months[i]), "1", "0", "0"]];
      }
    case OtherSeries(_) =>
  }

  /* ---------------------------------------------------------------- column names */

  /** An output type as a column name: spaces become underscores, letters lowercase. */
  function ColumnName(outputType: string): (r: string)
    ensures |r| == |outputType|
    ensures forall k :: 0 <= k < |r| ==>
              r[k] != ' ' && !IsUpperAscii(r[k])
              && (outputType[k] == ' ' ==> r[k] == '_')
              && (outputType[k] != ' ' ==> r[k] == LowerChar(outputType[k]))
  {
    LowerAscii(ReplaceChar(outputType, ' ', '_'))
  }

  /** Normalising a column name twice changes nothing more. */
  lemma ColumnNameIdempotent(outputType: string)
    ensures ColumnName(ColumnName(outputType)) == ColumnName(outputType)
  {
    var once := ColumnName(outputType);
    assert forall k :: 0 <= k < |once| ==> LowerChar(once[k]) == once[k];
  }

  const DateTimeColumns: seq<string> := ["year", "month", "day", "hour", "minute", "identifier"]

  /** The columns of a queryable CSV: the datetime columns and the identifier, then one
      column per output. */
  function ColumnNames(outputTypes: seq<string>): (r: seq<string>)
    ensures |r| == 6 + |outputTypes| && r[..6] == DateTimeColumns
    ensures forall i :: 0 <= i < |outputTypes| ==> r[6 + i] == ColumnName(outputTypes[i])
  {
    DateTimeColumns + Seqs.Map(outputTypes, ColumnName)
  }

  /* ---------------------------------------------------------------- write_rows */

  /** The cells row `i` receives, one per collection long enough to reach it, in order. */
  function CellsAt(datas: seq<seq<string>>, i: int): seq<string> {
    if datas == [] then []
    else
      var last := datas[|datas| - 1];
      CellsAt(datas[..|datas| - 1], i) + (if 0 <= i < |last| then [last[i]] else [])
  }

  /** With every collection as long as the datetime rows, each row gets one cell per
      collection, in order. */
  lemma {:induction false} CellsAtFull(datas: seq<seq<string>>, i: int)
    requires forall d :: 0 <= d < |datas| ==> 0 <= i < |datas[d]|
    ensures |CellsAt(datas, i)| == |datas|
    ensures forall d :: 0 <= d < |CellsAt(datas, i)| && d < |datas| && 0 <= i < |datas[d]| ==>
              CellsAt(datas, i)[d] == datas[d][i]
    decreases |datas|
  {
    if datas != [] {
      var init, last := datas[..|datas| - 1], datas[|datas| - 1];
      forall d | 0 <= d < |init|
        ensures 0 <= i < |init[d]|
      {
        assert init[d] == datas[d];
      }
      CellsAtFull(init, i);
      assert CellsAt(datas, i) == CellsAt(init, i) + [last[i]];
    }
  }

  /** The rows `write_rows` builds: a copy of each datetime row, the identifier, then the
      values. */
  function QueryRows(dateTimes: seq<seq<string>>, datas: seq<seq<string>>, identifier: string)
    : (r: seq<seq<string>>)
    ensures |r| == |dateTimes|
  {
    seq(|dateTimes|, i requires 0 <= i < |dateTimes| =>
      dateTimes[i] + [identifier] + CellsAt(datas, i))
  }

  predicate FitsRows(dateTimes: seq<seq<string>>, datas: seq<seq<string>>) {
    forall d :: 0 <= d < |datas| ==> |datas[d]| <= |dateTimes|
  }

  /** `write_rows`: fails with an `IndexError` when a collection has more values than there
      are datetime rows, and otherwise writes the rows of `QueryRows`. */
  method WriteRows(dateTimes: seq<seq<string>>, datas: seq<seq<string>>, identifier: string)
    returns (r: Result<string, CliError>)
    ensures !FitsRows(dateTimes, datas) ==> r == Err(RowIndexOutOfRange)
    ensures FitsRows(dateTimes, datas) ==> r == Ok(Lines(QueryRows(dateTimes, datas, identifier)))
  {
    var dataRows := new seq<string>[|dateTimes|];
    for i := 0 to |dateTimes|
      invariant forall j :: 0 <= j < i ==> dataRows[j] == dateTimes[j] + [identifier]
    {
      dataRows[i] := dateTimes[i] + [identifier];
    }
    for d := 0 to |datas|
      invariant forall e :: 0 <= e < d ==> |datas[e]| <= |dateTimes|
      invariant forall j :: 0 <= j < dataRows.Length ==>
                  dataRows[j] == dateTimes[j] + [identifier] + CellsAt(datas[..d], j)
    {
      var fits := AppendColumn(dataRows, datas[d]);
      if !fits {
        return Err(RowIndexOutOfRange);
      }
      forall j | 0 <= j < dataRows.Length
        ensures CellsAt(datas[..d + 1], j)
                == CellsAt(datas[..d], j) + (if j < |datas[d]| then [datas[d][j]] else [])
      {
        assert datas[..d + 1][..d] == datas[..d];
      }
    }
    assert datas[..|datas|] == datas;
    assert dataRows[..] == QueryRows(dateTimes, datas, identifier);
    var out := AppendRows("", [], dataRows[..]);
    assert [] + dataRows[..] == dataRows[..];
    return Ok(out);
  }

  /** Appends the `j`-th value of `column` to row `j`; a column longer than the rows fails
      (`data_rows[i]` past the end). */
  method AppendColumn(rows: array<seq<string>>, column: seq<string>) returns (fits: bool)
    modifies rows
    ensures fits <==> |column| <= rows.Length
    ensures fits ==> forall j :: 0 <= j < rows.Length ==>
              rows[j] == old(rows[j]) + (if j < |column| then [column[j]] else [])
  {
    for i := 0 to |column|
      invariant i <= rows.Length
      invariant forall j :: 0 <= j < i ==> rows[j] == old(rows[j]) + [column[j]]
      invariant forall j :: i <= j < rows.Length ==> rows[j] == old(rows[j])
    {
      if i == rows.Length {
        return false;
      }
      rows[i] := rows[i] + [column[i]];
    }
    return true;
  }

  /** Each written row is its datetime row unchanged, then the identifier, then one value
      per collection in collection order. */
  lemma QueryRowsShape(dateTimes: seq<seq<string>>, datas: seq<seq<string>>, identifier: string,
                       i: nat)
    requires i < |dateTimes|
    requires forall d :: 0 <= d < |datas| ==> |datas[d]| == |dateTimes|
    ensures var row := QueryRows(dateTimes, datas, identifier)[i];
            |row| == |dateTimes[i]| + 1 + |datas|
            && row[..|dateTimes[i]|] == dateTimes[i]
            && row[|dateTimes[i]|] == identifier
            && forall d :: 0 <= d < |datas| ==> row[|dateTimes[i]| + 1 + d] == datas[d][i]
  {
    CellsAtFull(datas, i);
    var row := QueryRows(dateTimes, datas, identifier)[i];
    assert row == dateTimes[i] + [identifier] + CellsAt(datas, i);
  }

  /* ---------------------------------------------------------------- queryable CSV files */

  /** The output types of the groups, which name the value columns. The source reads each
      from the first collection's `metadata['type']`; the `outputType` field stands for that
      entry, which `SqlResult.MetadataKeys` shows every collection read from the results
      file carries, so the lookup never raises. */
  function GroupTypes(groups: seq<seq<Matched>>): (r: seq<string>)
    requires AllNonEmpty(groups)
    ensures |r| == |groups| && forall g :: 0 <= g < |groups| ==> r[g] == groups[g][0].outputType
  {
    seq(|groups|, g requires 0 <= g < |groups| => groups[g][0].outputType)
  }

  /** The values of one object across all outputs, as the text `render` gives them. */
  function TupleDatas(tuple: seq<Matched>, render: real -> string): (r: seq<seq<string>>)
    ensures |r| == |tuple|
  {
    seq(|tuple|, d requires 0 <= d < |tuple| => Seqs.Map(tuple[d].values, render))
  }

  /** The rows of every object, one `write_rows` per tuple of `zip(*groups)`. */
  function TuplesText(dateTimes: seq<seq<string>>, tuples: seq<seq<Matched>>, render: real -> string)
    : Result<string, CliError>
    requires forall t :: 0 <= t < |tuples| ==> tuples[t] != []
  {
    if tuples == [] then Ok("")
    else
      var prev :- TuplesText(dateTimes, tuples[..|tuples| - 1], render);
      var tuple := tuples[|tuples| - 1];
      var datas := TupleDatas(tuple, render);
      if !FitsRows(dateTimes, datas) then Err(RowIndexOutOfRange)
      else Ok(prev + Lines(QueryRows(dateTimes, datas, tuple[0].host.identifier)))
  }

  /** A queryable CSV file: none without data; otherwise the column-name line and the rows
      of every object matched by all the outputs. */
  function QueryableCsv(dateTimes: seq<seq<string>>, groups: seq<seq<Matched>>, render: real -> string)
    : Result<Option<string>, CliError>
    requires AllNonEmpty(groups)
  {
    if groups == [] then Ok(None)
    else
      var tuples := Seqs.Zip(groups);
      assert forall t :: 0 <= t < |tuples| ==> |tuples[t]| == |groups|;
      var body :- TuplesText(dateTimes, tuples, render);
      Ok(Some(Join(ColumnNames(GroupTypes(groups)), ',') + "\n" + body))
  }

  /** Writing the room or the face CSV of `output-csv-queryable`. */
  method WriteQueryableCsv(dateTimes: seq<seq<string>>, groups: seq<seq<Matched>>,
                           render: real -> string)
    returns (r: Result<Option<string>, CliError>)
    requires AllNonEmpty(groups)
    ensures r == QueryableCsv(dateTimes, groups, render)
  {
    if |groups| == 0 {
      return Ok(None);
    }
    var tuples := Seqs.Zip(groups);
    assert forall t :: 0 <= t < |tuples| ==> |tuples[t]| == |groups|;
    var body := WriteTuples(dateTimes, tuples, render);
    if body.Err? {
      return Err(body.error);
    }
    return Ok(Some(Join(ColumnNames(GroupTypes(groups)), ',') + "\n" + body.value));
  }

  /** `base_coll`: the first room collection when any room data matched, else the first
      face collection. Both files take their datetime rows from it. */
  function BaseSeriesOf(rooms: seq<seq<Matched>>, faces: seq<seq<Matched>>): (r: BaseSeries)
    requires AllNonEmpty(rooms) && AllNonEmpty(faces) && (rooms != [] || faces != [])
    ensures rooms != [] ==> r == rooms[0][0].series
    ensures rooms == [] ==> r == faces[0][0].series
  {
    if rooms != [] then rooms[0][0].series else faces[0][0].series
  }

  /** The room file and then the face file of `output-csv-queryable`, both over the same
      datetime rows; a failure in either fails the command. */
  function QueryableFiles(dateTimes: seq<seq<string>>, rooms: seq<seq<Matched>>,
                          faces: seq<seq<Matched>>, render: real -> string)
    : Result<(Option<string>, Option<string>), CliError>
    requires AllNonEmpty(rooms) && AllNonEmpty(faces)
  {
    var roomFile :- QueryableCsv(dateTimes, rooms, render);
    var faceFile :- QueryableCsv(dateTimes, faces, render);
    Ok((roomFile, faceFile))
  }

  /** Building the datetime rows from the base collection, then writing the room file and
      the face file with them. */
  method WriteQueryableFiles(rooms: seq<seq<Matched>>, faces: seq<seq<Matched>>,
                             fromDoy: int -> (int, int), render: real -> string)
    returns (dateTimes: seq<seq<string>>, r: Result<(Option<string>, Option<string>), CliError>)
    requires AllNonEmpty(rooms) && AllNonEmpty(faces) && (rooms != [] || faces != [])
    ensures DateTimeTable(dateTimes, BaseSeriesOf(rooms, faces), fromDoy)
    ensures r == QueryableFiles(dateTimes, rooms, faces, render)
  {
    dateTimes := DateTimeRows(BaseSeriesOf(rooms, faces), fromDoy);
    var roomFile := WriteQueryableCsv(dateTimes, rooms, render);
    if roomFile.Err? {
      return dateTimes, Err(roomFile.error);
    }
    var faceFile := WriteQueryableCsv(dateTimes, faces, render);
    if faceFile.Err? {
      return dateTimes, Err(faceFile.error);
    }
    return dateTimes, Ok((roomFile.value, faceFile.value));
  }

  /** A matched collection with more values than there are datetime rows makes its file
      fail with a row-index error, provided `zip` reaches its tuple. */
  lemma OverrunFails(dateTimes: seq<seq<string>>, groups: seq<seq<Matched>>, render: real -> string,
                     g: nat, t: nat)
    requires AllNonEmpty(groups)
    requires g < |groups| && t < Seqs.MinLength(groups)
    requires |groups[g][t].values| > |dateTimes|
    ensures QueryableCsv(dateTimes, groups, render) == Err(RowIndexOutOfRange)
  {
    var tuples := Seqs.Zip(groups);
    assert forall u :: 0 <= u < |tuples| ==> |tuples[u]| == |groups|;
    var prefix := tuples[..t + 1];
    assert prefix[..|prefix| - 1] == tuples[..t];
    assert prefix[|prefix| - 1][g] == groups[g][t];
    assert |TupleDatas(tuples[t], render)[g]| == |groups[g][t].values|;
    assert !FitsRows(dateTimes, TupleDatas(prefix[|prefix| - 1], render));
    assert TuplesText(dateTimes, prefix, render).Err?;
    assert prefix + tuples[t + 1..] == tuples;
    TuplesTextFailureStays(dateTimes, prefix, tuples[t + 1..], render);
  }

  /** When room data matched, a face collection with more values than the room base has
      datetimes fails the command, although its own datetimes may be enough. */
  lemma FaceOverrunFails(rooms: seq<seq<Matched>>, faces: seq<seq<Matched>>,
                         fromDoy: int -> (int, int), render: real -> string,
                         dateTimes: seq<seq<string>>, g: nat, t: nat)
    requires AllNonEmpty(rooms) && AllNonEmpty(faces) && rooms != []
    requires DateTimeTable(dateTimes, BaseSeriesOf(rooms, faces), fromDoy)
    requires g < |faces| && t < Seqs.MinLength(faces)
    requires |faces[g][t].values| > SeriesLength(rooms[0][0].series)
    ensures QueryableFiles(dateTimes, rooms, faces, render) == Err(RowIndexOutOfRange)
  {
    OverrunFails(dateTimes, faces, render, g, t);
    if QueryableCsv(dateTimes, rooms, render).Err? {
      TuplesTextError(dateTimes, Seqs.Zip(rooms), render);
    }
  }

  /** The loop over `zip(*groups)`, one `write_rows` per object. */
  method WriteTuples(dateTimes: seq<seq<string>>, tuples: seq<seq<Matched>>, render: real -> string)
    returns (r: Result<string, CliError>)
    requires forall t :: 0 <= t < |tuples| ==> tuples[t] != []
    ensures r == TuplesText(dateTimes, tuples, render)
  {
    var out := "";
    for t := 0 to |tuples|
      invariant TuplesText(dateTimes, tuples[..t], render) == Ok(out)
    {
      assert tuples[..t + 1][..t] == tuples[..t];
      var tuple := tuples[t];
      var written := WriteRows(dateTimes, TupleDatas(tuple, render), tuple[0].host.identifier);
      if written.Err? {
        assert TuplesText(dateTimes, tuples[..t + 1], render).Err?;
        assert tuples[..t + 1] + tuples[t + 1..] == tuples;
        TuplesTextFailureStays(dateTimes, tuples[..t + 1], tuples[t + 1..], render);
        return Err(written.error);
      }
      out := out + written.value;
    }
    assert tuples[..|tuples|] == tuples;
    return Ok(out);
  }

  /** Once a tuple fails, the whole file fails. */
  lemma {:induction false} TuplesTextFailureStays(dateTimes: seq<seq<string>>, prefix: seq<seq<Matched>>,
                                                  rest: seq<seq<Matched>>, render: real -> string)
    requires forall t :: 0 <= t < |prefix| ==> prefix[t] != []
    requires forall t :: 0 <= t < |rest| ==> rest[t] != []
    requires TuplesText(dateTimes, prefix, render).Err?
    ensures TuplesText(dateTimes, prefix + rest, render) == Err(RowIndexOutOfRange)
    decreases |rest|
  {
    if rest == [] {
      assert prefix + rest == prefix;
      TuplesTextError(dateTimes, prefix, render);
    } else {
      var all := prefix + rest;
      assert all[..|all| - 1] == prefix + rest[..|rest| - 1];
      TuplesTextFailureStays(dateTimes, prefix, rest[..|rest| - 1], render);
    }
  }

  lemma {:induction false} TuplesTextError(dateTimes: seq<seq<string>>, tuples: seq<seq<Matched>>,
                                           render: real -> string)
    requires forall t :: 0 <= t < |tuples| ==> tuples[t] != []
    requires TuplesText(dateTimes, tuples, render).Err?
    ensures TuplesText(dateTimes, tuples, render) == Err(RowIndexOutOfRange)
  {
    if tuples != [] && TuplesText(dateTimes, tuples[..|tuples| - 1], render).Err? {
      TuplesTextError(dateTimes, tuples[..|tuples| - 1], render);
    }
  }

  /** The column-name line of a queryable CSV reads back as its column names when no
      output type holds a comma. */
  lemma QueryableHeaderSplits(groups: seq<seq<Matched>>)
    requires AllNonEmpty(groups)
    requires forall g :: 0 <= g < |groups| ==> ',' !in groups[g][0].outputType
    ensures var names := ColumnNames(GroupTypes(groups));
            Split(Join(names, ','), ',') == names
  {
    var types := GroupTypes(groups);
    var names := ColumnNames(types);
    forall k | 0 <= k < |names|
      ensures ',' !in names[k]
    {
      if k >= 6 {
        ColumnNameNoComma(types[k - 6]);
      } else {
        DateTimeColumnsNoComma(k);
      }
    }
    SplitJoin(names, ',');
  }

  lemma ColumnNameNoComma(t: string)
    requires ',' !in t
    ensures ',' !in ColumnName(t)
  {
    assert forall c :: 0 <= c < |t| ==> ColumnName(t)[c] != ',';
  }

  lemma DateTimeColumnsNoComma(k: nat)
    requires k < 6
    ensures ',' !in DateTimeColumns[k]
  {
  }
}
