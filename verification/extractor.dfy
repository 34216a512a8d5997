/**
 * `parse_data` (scraper/scraper.py): one boxer page to the `data` record and
 * the bout matrix. The infobox rows, the wikitables and the tables' rows are
 * walked by loops that fill the record step by step, each proved against a
 * specification function of its input.
 */
module Extractor {
  import opened Wrappers
  import opened Text
  import opened Schema
  import opened Page
  import opened Patterns
  import opened Normalizer

  const DefaultBoxerImage := "https://www.nicepng.com/png/detail/272-2725101_silhouette-fighter.png"

  /** The `data` dictionary; a key that was never assigned is None. */
  datatype Profile = Profile(
    name: Option<string>,
    photo: Option<string>,
    alias: Option<string>,
    birthDate: Option<string>,
    stance: Option<string>,
    heightCm: Option<nat>,
    reachCm: Option<nat>,
    activeFrom: Option<Date>,
    activeUntil: Option<Date>,
    era: Option<seq<string>>,
    numOfFights: Option<int>,
    wins: Option<int>,
    losses: Option<int>,
    winsByKo: Option<int>,
    winsByDecision: Option<int>,
    winsByDq: Option<int>,
    lossesByKo: Option<int>,
    lossesByDecision: Option<int>,
    lossesByDq: Option<int>,
    koRatio: Option<real>,
    winRatio: Option<real>)

  /** The record before anything is read, except the name. */
  function NamedProfile(name: Option<string>): Profile {
    Profile(name, None, None, None, None, None, None, None, None, None, None, None, None,
            None, None, None, None, None, None, None, None)
  }

  /** The exceptions `parse_data` does not catch. */
  datatype Fault =
    | ConcatNone        // TypeError: "https:" + None
    | NotAnInteger      // ValueError from int(...)
    | UnboundHeaderRow  // UnboundLocalError: record_header_row never assigned
    | IterateNone       // TypeError: iterating over None

  datatype Result<T> = Ok(value: T) | Crash(fault: Fault)

  // ---------------------------------------------------------------------------
  // Infobox
  // ---------------------------------------------------------------------------

  /**
   * The photo URL for an infobox image as the source writes it: the `src`
   * is appended to "https:" before it is tested, so an image without `src`
   * raises; an empty `src` gives the default image.
   */
  function PhotoUrlAsWritten(src: Option<string>): (r: Result<string>)
    ensures r.Crash? <==> src.None?
  {
    match src
    case None => Crash(ConcatNone)
    case Some(s) => Ok(if s != [] then "https:" + s else DefaultBoxerImage)
  }

  /** The photo URL for an infobox image: "https:" + `src`, or the default image when `src` is missing or empty. */
  function PhotoUrl(src: Option<string>): (url: string)
    ensures PhotoUrlAsWritten(src).Ok? ==> url == PhotoUrlAsWritten(src).value
    ensures src.None? ==> url == DefaultBoxerImage
  {
    match src
    case Some(s) => if s != [] then "https:" + s else DefaultBoxerImage
    case None => DefaultBoxerImage
  }

  /** An image without `src` crashes the page as written; the default image is what the fallback at the end of the loop intends. */
  lemma ImageWithoutSrc()
    ensures PhotoUrlAsWritten(None) == Crash(ConcatNone)
    ensures PhotoUrl(None) == DefaultBoxerImage
  {
  }

  /** The photo an infobox row supplies: the URL of its image, as written whenever that does not raise. */
  function PhotoOf(row: InfoRow): (r: Option<string>)
    ensures r.Some? <==> row.image.Some?
    ensures row.image.Some? && PhotoUrlAsWritten(row.image.value).Ok? ==> r == Some(PhotoUrlAsWritten(row.image.value).value)
  {
    match row.image
    case Some(src) => Some(PhotoUrl(src))
    case None => None
  }

  /** The alias a nickname row supplies: its first item (or its text), without quotes and trimmed. */
  function AliasOf(row: InfoRow): (r: Option<string>)
    ensures r.Some? <==> row.nickname.Some?
    ensures r.Some? ==> '"' !in r.value && '\'' !in r.value && Trimmed(r.value)
    ensures r.Some? ==> forall c :: c in r.value ==> c in row.nickname.value.firstItem.GetOr(row.nickname.value.text)
  {
    match row.nickname
    case Some(n) => Some(CleanAlias(n.firstItem.GetOr(n.text)))
    case None => None
  }

  /** The value of a labelled row, if its label is `key`. */
  function ValueFor(row: InfoRow, key: string): Option<string> {
    if row.key == Some(key) && row.value.Some? then row.value else None
  }

  /** A Stance row always assigns the stance, None when no stance word is found. */
  function StanceOf(row: InfoRow): (r: Option<Option<string>>)
    ensures r.Some? <==> row.key == Some("Stance") && row.value.Some?
    ensures r.Some? && r.value.Some? ==> r.value.value in StanceNames
  {
    match ValueFor(row, "Stance")
    case Some(v) => Some(ParseStance(v))
    case None => None
  }

  /** A Born row's date of birth: an ISO date that the value holds in parentheses. */
  function BirthDateOf(row: InfoRow): (r: Option<string>)
    ensures r.Some? ==> row.key == Some("Born") && row.value.Some?
    ensures r.Some? ==> IsIsoShape(r.value) && Contains(row.value.value, "(" + r.value + ")")
  {
    match ValueFor(row, "Born")
    case Some(v) => BirthDate(v)
    case None => None
  }

  /** A Height row's centimetres; a row whose value has no length gives none. */
  function HeightOf(row: InfoRow): (r: Option<nat>)
    ensures r.Some? <==> row.key == Some("Height") && row.value.Some? && LengthCm(row.value.value).Some?
    ensures r.Some? ==> r == LengthCm(row.value.value)
  {
    match ValueFor(row, "Height")
    case Some(v) => LengthCm(v)
    case None => None
  }

  /** A Reach row's centimetres; a row whose value has no length gives none. */
  function ReachOf(row: InfoRow): (r: Option<nat>)
    ensures r.Some? <==> row.key == Some("Reach") && row.value.Some? && LengthCm(row.value.value).Some?
    ensures r.Some? ==> r == LengthCm(row.value.value)
  {
    match ValueFor(row, "Reach")
    case Some(v) => LengthCm(v)
    case None => None
  }

  /**
   * The reading `f` gives for the last row that has one: the value a key of
   * `data` holds after every row has been visited in turn.
   */
  function Latest<T>(rows: seq<InfoRow>, f: InfoRow -> Option<T>): Option<T> {
    if rows == [] then None
    else f(rows[|rows| - 1]).Or(Latest(rows[..|rows| - 1], f))
  }

  /** The reading `Latest` gives is the one of the last row that has a reading; there is none when no row has one. */
  lemma {:induction false} LatestIsLast<T>(rows: seq<InfoRow>, f: InfoRow -> Option<T>)
    ensures var r := Latest(rows, f);
      && (r.None? <==> forall i :: 0 <= i < |rows| ==> f(rows[i]).None?)
      && (r.Some? ==> exists i :: 0 <= i < |rows| && f(rows[i]) == r && forall j :: i < j < |rows| ==> f(rows[j]).None?)
    decreases |rows|
  {
    if rows != [] {
      var prior := rows[..|rows| - 1];
      LatestIsLast(prior, f);
      LatestExtends(rows, prior, f, Latest(prior, f));
    }
  }

  /** The step of `Latest`: the last row's reading when it has one, and otherwise the earlier rows'. */
  lemma LatestExtends<T>(rows: seq<InfoRow>, prior: seq<InfoRow>, f: InfoRow -> Option<T>, p: Option<T>)
    requires rows != [] && prior == rows[..|rows| - 1]
    requires p.None? <==> forall i :: 0 <= i < |prior| ==> f(prior[i]).None?
    requires p.Some? ==> exists i :: 0 <= i < |prior| && f(prior[i]) == p && forall j :: i < j < |prior| ==> f(prior[j]).None?
    ensures var r := f(rows[|rows| - 1]).Or(p);
      && (r.None? <==> forall i :: 0 <= i < |rows| ==> f(rows[i]).None?)
      && (r.Some? ==> exists i :: 0 <= i < |rows| && f(rows[i]) == r && forall j :: i < j < |rows| ==> f(rows[j]).None?)
  {
    var n := |rows| - 1;
    assert forall i :: 0 <= i < n ==> prior[i] == rows[i];
    if f(rows[n]).Some? {
      assert f(rows[n]) == f(rows[n]).Or(p);
    } else if p.Some? {
      var i :| 0 <= i < |prior| && f(prior[i]) == p && forall j :: i < j < |prior| ==> f(prior[j]).None?;
      assert f(rows[i]) == p;
    }
  }

  /** Extending the visited rows by one puts that row's reading in front. */
  lemma LatestStep<T>(rows: seq<InfoRow>, i: nat, f: InfoRow -> Option<T>)
    requires i < |rows|
    ensures Latest(rows[..i + 1], f) == f(rows[i]).Or(Latest(rows[..i], f))
  {
    assert rows[..i + 1][..i] == rows[..i];
  }

  /** A label/value pair: the keys Stance, Born, Height and Reach each have their own reading. */
  method ReadLabelledValue(row: InfoRow, data0: Profile) returns (data: Profile)
    ensures data == data0.(stance := StanceOf(row).GetOr(data0.stance),
                           birthDate := BirthDateOf(row).Or(data0.birthDate),
                           heightCm := HeightOf(row).Or(data0.heightCm),
                           reachCm := ReachOf(row).Or(data0.reachCm))
  {
    data := data0;
    if row.key.Some? && row.value.Some? {
      var k, v := row.key.value, row.value.value;
      if k == "Stance" {
        data := data.(stance := ParseStance(v));
      } else if k == "Born" {
        var iso := BirthDate(v);
        if iso.Some? {
          data := data.(birthDate := iso);
        }
      } else if k == "Height" {
        var cm := LengthCm(v);
        if cm.Some? {
          data := data.(heightCm := cm);
        }
      } else if k == "Reach" {
        var cm := LengthCm(v);
        if cm.Some? {
          data := data.(reachCm := cm);
        }
      }
    }
  }

  /** Some infobox row has an image without `src`: reading its photo raises. */
  predicate HasSrclessImage(rows: seq<InfoRow>) {
    exists k :: 0 <= k < |rows| && rows[k].image == Some(None)
  }

  /**
   * One infobox row: its image, nickname cell and label/value pair, each
   * overwriting its key when it yields a reading. An image without `src`
   * raises before anything else of the row is read.
   */
  method ReadInfoRow(row: InfoRow, data0: Profile) returns (r: Result<Profile>)
    ensures r.Crash? <==> row.image == Some(None)
    ensures r.Crash? ==> r.fault == ConcatNone
    ensures r.Ok? ==> r.value == data0.(photo := PhotoOf(row).Or(data0.photo),
                                        alias := AliasOf(row).Or(data0.alias),
                                        stance := StanceOf(row).GetOr(data0.stance),
                                        birthDate := BirthDateOf(row).Or(data0.birthDate),
                                        heightCm := HeightOf(row).Or(data0.heightCm),
                                        reachCm := ReachOf(row).Or(data0.reachCm))
  {
    var data := data0;
    if row.image.Some? {
      var url := PhotoUrlAsWritten(row.image.value);
      if url.Crash? {
        return Crash(url.fault);
      }
      data := data.(photo := Some(url.value));
    }
    if row.nickname.Some? {
      var cell := row.nickname.value;
      var text := if cell.firstItem.Some? then cell.firstItem.value else cell.text;
      data := data.(alias := Some(CleanAlias(text)));
    }
    data := ReadLabelledValue(row, data);
    return Ok(data);
  }

  /**
   * The loop over the infobox rows: each reading found overwrites the key it
   * belongs to, so every key ends with its last row's reading; the first
   * image without `src` raises.
   */
  method ReadInfobox(rows: seq<InfoRow>, data0: Profile) returns (r: Result<Profile>)
    ensures r.Crash? <==> HasSrclessImage(rows)
    ensures r.Crash? ==> r.fault == ConcatNone
    ensures r.Ok? ==> r.value == data0.(photo := Latest(rows, PhotoOf).Or(data0.photo),
                                        alias := Latest(rows, AliasOf).Or(data0.alias),
                                        stance := Latest(rows, StanceOf).GetOr(data0.stance),
                                        birthDate := Latest(rows, BirthDateOf).Or(data0.birthDate),
                                        heightCm := Latest(rows, HeightOf).Or(data0.heightCm),
                                        reachCm := Latest(rows, ReachOf).Or(data0.reachCm))
  {
    var data := data0;
    for i := 0 to |rows|
      invariant data == InfoboxAfter(rows[..i], data0)
      invariant forall k :: 0 <= k < i ==> rows[k].image != Some(None)
    {
      InfoboxStep(rows, i, data0);
      var next := ReadInfoRow(rows[i], data);
      if next.Crash? {
        return next;
      }
      data := next.value;
    }
    assert rows[..|rows|] == rows;
    return Ok(data);
  }

  /** The record once the loop has visited `rows`. */
  function InfoboxAfter(rows: seq<InfoRow>, data0: Profile): Profile {
    data0.(photo := Latest(rows, PhotoOf).Or(data0.photo),
           alias := Latest(rows, AliasOf).Or(data0.alias),
           stance := Latest(rows, StanceOf).GetOr(data0.stance),
           birthDate := Latest(rows, BirthDateOf).Or(data0.birthDate),
           heightCm := Latest(rows, HeightOf).Or(data0.heightCm),
           reachCm := Latest(rows, ReachOf).Or(data0.reachCm))
  }

  /** Visiting one more row applies that row's readings on top of the earlier rows'. */
  lemma InfoboxStep(rows: seq<InfoRow>, i: nat, data0: Profile)
    requires i < |rows|
    ensures var d := InfoboxAfter(rows[..i], data0);
      InfoboxAfter(rows[..i + 1], data0) == d.(photo := PhotoOf(rows[i]).Or(d.photo),
                                               alias := AliasOf(rows[i]).Or(d.alias),
                                               stance := StanceOf(rows[i]).GetOr(d.stance),
                                               birthDate := BirthDateOf(rows[i]).Or(d.birthDate),
                                               heightCm := HeightOf(rows[i]).Or(d.heightCm),
                                               reachCm := ReachOf(rows[i]).Or(d.reachCm))
  {
    LatestStep(rows, i, PhotoOf);
    LatestStep(rows, i, AliasOf);
    LatestStep(rows, i, StanceOf);
    LatestStep(rows, i, BirthDateOf);
    LatestStep(rows, i, HeightOf);
    LatestStep(rows, i, ReachOf);
  }

  // ---------------------------------------------------------------------------
  // Bout table and fight matrix
  // ---------------------------------------------------------------------------

  /** The two wikitables the parser looks for: the bout record and the record summary. */
  datatype TableKind = BoutTable | RecordTable

  /** Some header text mentions `word`, ignoring case. */
  predicate MentionsWord(headers: seq<string>, word: string) {
    exists k :: 0 <= k < |headers| && Contains(Lower(headers[k]), word)
  }

  /**
   * A bout table has Result, Opponent and Date among its first row's header
   * cells; a record table has header cells mentioning fights, wins and losses.
   */
  predicate IsTable(t: Table, kind: TableKind) {
    && t.rows != []
    && var h := HeaderTexts(t.rows[0]);
    match kind
    case BoutTable => "Result" in h && "Opponent" in h && "Date" in h
    case RecordTable => MentionsWord(h, "fights") && MentionsWord(h, "wins") && MentionsWord(h, "losses")
  }

  /** The first wikitable of the given kind: the one the scan stops at. */
  function FirstTable(tables: seq<Table>, kind: TableKind): (r: Option<nat>)
    ensures r.Some? ==> r.value < |tables| && IsTable(tables[r.value], kind)
    ensures r.Some? ==> forall k :: 0 <= k < r.value ==> !IsTable(tables[k], kind)
    ensures r.None? <==> forall k :: 0 <= k < |tables| ==> !IsTable(tables[k], kind)
  {
    if tables == [] then None
    else if IsTable(tables[0], kind) then Some(0)
    else
      var rest := FirstTable(tables[1..], kind);
      var r := if rest.Some? then Some(rest.value + 1) else None;
      FirstTableCons(tables, kind, rest, r);
      r
  }

  /** The step of `FirstTable`: past a first table of another kind, the answer for the rest shifted by one. */
  lemma FirstTableCons(tables: seq<Table>, kind: TableKind, rest: Option<nat>, r: Option<nat>)
    requires tables != [] && !IsTable(tables[0], kind)
    requires rest.Some? ==> rest.value < |tables| - 1 && IsTable(tables[1..][rest.value], kind)
    requires rest.Some? ==> forall k :: 0 <= k < rest.value ==> !IsTable(tables[1..][k], kind)
    requires rest.None? <==> forall k :: 0 <= k < |tables| - 1 ==> !IsTable(tables[1..][k], kind)
    requires r == if rest.Some? then Some(rest.value + 1) else None
    ensures r.Some? ==> r.value < |tables| && IsTable(tables[r.value], kind)
    ensures r.Some? ==> forall k :: 0 <= k < r.value ==> !IsTable(tables[k], kind)
    ensures r.None? <==> forall k :: 0 <= k < |tables| ==> !IsTable(tables[k], kind)
  {
    assert forall k :: 1 <= k < |tables| ==> tables[k] == tables[1..][k - 1];
  }

  /** The scan over the wikitables that stops at the first bout table. */
  method FindBoutTable(tables: seq<Table>) returns (idx: Option<nat>)
    ensures idx == FirstTable(tables, BoutTable)
  {
    idx := None;
    for i := 0 to |tables|
      invariant forall k :: 0 <= k < i ==> !IsTable(tables[k], BoutTable)
    {
      var t := tables[i];
      if t.rows == [] {
        assert !IsTable(t, BoutTable);
        continue;
      }
      var headers := HeaderTexts(t.rows[0]);
      if "Result" in headers && "Opponent" in headers && "Date" in headers {
        FirstTableAt(tables, BoutTable, i);
        idx := Some(i);
        return;
      }
      assert !IsTable(t, BoutTable);
    }
    FirstTableAt(tables, BoutTable, |tables|);
  }

  /** When no table before `i` is of the kind, the first one is `i` if that is of the kind, and there is none if `i` is the end. */
  lemma FirstTableAt(tables: seq<Table>, kind: TableKind, i: nat)
    requires i <= |tables| && forall k :: 0 <= k < i ==> !IsTable(tables[k], kind)
    ensures i == |tables| ==> FirstTable(tables, kind) == None
    ensures i < |tables| && IsTable(tables[i], kind) ==> FirstTable(tables, kind) == Some(i)
  {
    if i < |tables| && IsTable(tables[i], kind) {
      var r := FirstTable(tables, kind);
      assert r.Some?;
      assert IsTable(tables[r.value], kind);
      assert r.value == i;
    }
  }

  /** `row` is what zipping `headers` with `cells` gives: their keys, and each unrepeated header's cell. */
  ghost predicate Zips(headers: seq<string>, cells: seq<string>, row: BoutRow)
    requires |headers| == |cells|
  {
    && row.Keys == (set h | h in headers)
    && forall i :: 0 <= i < |headers| && (forall j :: i < j < |headers| ==> headers[j] != headers[i]) ==> row[headers[i]] == cells[i]
  }

  /** Adding the last header/cell pair to the zip of the others gives the zip of the whole lists. */
  lemma ZipStep(headers: seq<string>, cells: seq<string>, prior: BoutRow)
    requires |headers| == |cells| > 0
    requires Zips(headers[..|headers| - 1], cells[..|cells| - 1], prior)
    ensures Zips(headers, cells, prior[headers[|headers| - 1] := cells[|cells| - 1]])
  {
    var n := |headers| - 1;
    var hs, cs, h, row := headers[..n], cells[..n], headers[n], prior[headers[n] := cells[n]];
    assert headers == hs + [h];
    assert (set x | x in headers) == (set x | x in hs) + {h};
    forall i | 0 <= i < |headers| && (forall j :: i < j < |headers| ==> headers[j] != headers[i])
      ensures row[headers[i]] == cells[i]
    {
      if i < n {
        assert headers[n] != headers[i] && hs[i] == headers[i] && cs[i] == cells[i];
        assert forall j :: i < j < n ==> hs[j] != hs[i] by {
          forall j | i < j < n ensures hs[j] != hs[i] { assert hs[j] == headers[j]; }
        }
      }
    }
  }

  /** `dict(zip(headers, cells))`: header i maps to cell i, a repeated header to its last cell. */
  function ZipRow(headers: seq<string>, cells: seq<string>): BoutRow
    requires |headers| == |cells|
  {
    if headers == [] then map[]
    else
      var n := |headers| - 1;
      ZipRow(headers[..n], cells[..n])[headers[n] := cells[n]]
  }

  /** The zipped row has exactly the headers as keys, and each unrepeated header maps to its own cell. */
  lemma {:induction false} ZipRowZips(headers: seq<string>, cells: seq<string>)
    requires |headers| == |cells|
    ensures Zips(headers, cells, ZipRow(headers, cells))
    decreases |headers|
  {
    if headers != [] {
      var n := |headers| - 1;
      ZipRowZips(headers[..n], cells[..n]);
      ZipStep(headers, cells, ZipRow(headers[..n], cells[..n]));
    }
  }

  /** The rows of the bout table that become fights: exactly those with one `td` per header, in order. */
  function AcceptedRows(headers: seq<string>, rows: seq<Row>): seq<BoutRow> {
    if headers == [] || rows == [] then []
    else
      var last := rows[|rows| - 1];
      var cells := DataTexts(last);
      AcceptedRows(headers, rows[..|rows| - 1]) + (if |cells| == |headers| then [ZipRow(headers, cells)] else [])
  }

  /** Every accepted row comes from a data row with one cell per header, zipped with the headers. */
  lemma {:induction false} AcceptedRowsSound(headers: seq<string>, rows: seq<Row>)
    ensures forall m :: m in AcceptedRows(headers, rows) ==>
              exists k :: 0 <= k < |rows| && |DataTexts(rows[k])| == |headers| && m == ZipRow(headers, DataTexts(rows[k]))
  {
    if headers != [] && rows != [] {
      var n := |rows| - 1;
      AcceptedRowsSound(headers, rows[..n]);
      assert forall k :: 0 <= k < n ==> rows[..n][k] == rows[k];
    }
  }

  /** Data row `k`, when it has one cell per header, is accepted. */
  lemma {:induction false} AcceptedRowAt(headers: seq<string>, rows: seq<Row>, k: nat)
    requires headers != [] && k < |rows| && |DataTexts(rows[k])| == |headers|
    ensures ZipRow(headers, DataTexts(rows[k])) in AcceptedRows(headers, rows)
    decreases |rows|
  {
    var n := |rows| - 1;
    if k < n {
      AcceptedRowAt(headers, rows[..n], k);
      assert rows[..n][k] == rows[k];
    }
  }

  /** Every data row with one cell per header is accepted, when the table has headers. */
  lemma AcceptedRowsComplete(headers: seq<string>, rows: seq<Row>)
    requires headers != []
    ensures forall k :: 0 <= k < |rows| && |DataTexts(rows[k])| == |headers| ==>
              ZipRow(headers, DataTexts(rows[k])) in AcceptedRows(headers, rows)
  {
    forall k | 0 <= k < |rows| && |DataTexts(rows[k])| == |headers|
      ensures ZipRow(headers, DataTexts(rows[k])) in AcceptedRows(headers, rows)
    {
      AcceptedRowAt(headers, rows, k);
    }
  }

  /** The loop that builds `fight_matrix` from the bout table's data rows. */
  method BuildFightMatrix(headers: seq<string>, rows: seq<Row>) returns (matrix: seq<BoutRow>)
    ensures matrix == AcceptedRows(headers, rows)
  {
    matrix := [];
    if rows != [] && headers != [] {
      for i := 0 to |rows|
        invariant matrix == AcceptedRows(headers, rows[..i])
      {
        assert rows[..i + 1][..i] == rows[..i];
        var cells := DataTexts(rows[i]);
        if |cells| == |headers| {
          matrix := matrix + [ZipRow(headers, cells)];
        }
      }
      assert rows[..|rows|] == rows;
    }
  }

  /** The bout matrix of a page: the accepted data rows of its first bout table, if it has one. */
  function BoutMatrix(tables: seq<Table>): seq<BoutRow> {
    match FirstTable(tables, BoutTable)
    case Some(i) => AcceptedRows(HeaderTexts(tables[i].rows[0]), tables[i].rows[1..])
    case None => []
  }

  // ---------------------------------------------------------------------------
  // Active dates and eras
  // ---------------------------------------------------------------------------

  /** The date of a bout row, when its Date cell is non-empty and `parse_date` reads it. */
  function DateOfRow(row: BoutRow, parseDate: string -> Option<Date>): seq<Date> {
    if "Date" in row && row["Date"] != [] && parseDate(row["Date"]).Some? then [parseDate(row["Date"]).value] else []
  }

  /** The dates of the bouts, in row order. */
  function BoutDates(matrix: seq<BoutRow>, parseDate: string -> Option<Date>): seq<Date> {
    if matrix == [] then []
    else BoutDates(matrix[..|matrix| - 1], parseDate) + DateOfRow(matrix[|matrix| - 1], parseDate)
  }

  /** Every collected date is what `parse_date` made of some bout's non-empty Date cell. */
  lemma {:induction false} BoutDatesSound(matrix: seq<BoutRow>, parseDate: string -> Option<Date>)
    ensures forall d :: d in BoutDates(matrix, parseDate) ==>
              exists k :: 0 <= k < |matrix| && "Date" in matrix[k] && matrix[k]["Date"] != [] && parseDate(matrix[k]["Date"]) == Some(d)
  {
    if matrix != [] {
      var n := |matrix| - 1;
      BoutDatesSound(matrix[..n], parseDate);
      assert forall k :: 0 <= k < n ==> matrix[..n][k] == matrix[k];
    }
  }

  /** The loop collecting the bout dates. */
  method CollectDates(matrix: seq<BoutRow>, parseDate: string -> Option<Date>) returns (dates: seq<Date>)
    ensures dates == BoutDates(matrix, parseDate)
  {
    dates := [];
    for i := 0 to |matrix|
      invariant dates == BoutDates(matrix[..i], parseDate)
    {
      assert matrix[..i + 1][..i] == matrix[..i];
      var fight := matrix[i];
      if "Date" in fight && fight["Date"] != [] {
        var dt := parseDate(fight["Date"]);
        if dt.Some? {
          dates := dates + [dt.value];
        }
      }
    }
    assert matrix[..|matrix|] == matrix;
  }

  /** `min(dates)`. */
  function EarliestDate(dates: seq<Date>): (d: Date)
    requires dates != []
    ensures d in dates && forall e :: e in dates ==> DateLe(d, e)
  {
    if |dates| == 1 then dates[0]
    else
      var m := EarliestDate(dates[1..]);
      assert forall e :: e in dates ==> e == dates[0] || e in dates[1..];
      if DateLe(dates[0], m) then dates[0] else m
  }

  /** `max(dates)`. */
  function LatestDate(dates: seq<Date>): (d: Date)
    requires dates != []
    ensures d in dates && forall e :: e in dates ==> DateLe(e, d)
  {
    if |dates| == 1 then dates[0]
    else
      var m := LatestDate(dates[1..]);
      assert forall e :: e in dates ==> e == dates[0] || e in dates[1..];
      if DateLe(m, dates[0]) then dates[0] else m
  }

  // ---------------------------------------------------------------------------
  // Record table: fight, win and loss counts
  // ---------------------------------------------------------------------------

  /** The value of `record_header_row` after the record-table scan: never assigned, or some table's first row (None when it has none). */
  datatype HeaderRow = Unassigned | Assigned(row: Option<Row>)

  /** `record_header_row` after the scan: the record table's first row, else the first row of the last table scanned. */
  function ScannedHeaderRow(tables: seq<Table>): HeaderRow {
    match FirstTable(tables, RecordTable)
    case Some(i) => Assigned(FirstRow(tables[i]))
    case None => if tables == [] then Unassigned else Assigned(FirstRow(tables[|tables| - 1]))
  }

  /** The inner loop over a first row's header texts, setting a flag per word. */
  method ScanHeaders(headers: seq<string>) returns (foundF: bool, foundW: bool, foundL: bool)
    ensures foundF == MentionsWord(headers, "fights")
    ensures foundW == MentionsWord(headers, "wins")
    ensures foundL == MentionsWord(headers, "losses")
  {
    foundF, foundW, foundL := false, false, false;
    for i := 0 to |headers|
      invariant foundF == MentionsWord(headers[..i], "fights")
      invariant foundW == MentionsWord(headers[..i], "wins")
      invariant foundL == MentionsWord(headers[..i], "losses")
    {
      assert forall k :: 0 <= k < i ==> headers[..i + 1][k] == headers[..i][k];
      assert headers[..i + 1][i] == headers[i];
      var lower := Lower(headers[i]);
      if Contains(lower, "fights") {
        foundF := true;
      }
      if Contains(lower, "wins") {
        foundW := true;
      }
      if Contains(lower, "losses") {
        foundL := true;
      }
    }
    assert headers[..|headers|] == headers;
  }

  /** The scan for the record table, which leaves `record_header_row` behind. */
  method FindRecordTable(tables: seq<Table>) returns (idx: Option<nat>, header: HeaderRow)
    ensures idx == FirstTable(tables, RecordTable)
    ensures header == ScannedHeaderRow(tables)
  {
    idx := None;
    header := Unassigned;
    for i := 0 to |tables|
      invariant forall k :: 0 <= k < i ==> !IsTable(tables[k], RecordTable)
      invariant header == if i == 0 then Unassigned else Assigned(FirstRow(tables[i - 1]))
    {
      var t := tables[i];
      header := Assigned(FirstRow(t));
      if t.rows == [] {
        continue;
      }
      var headers := HeaderTexts(t.rows[0]);
      var foundF, foundW, foundL := ScanHeaders(headers);
      if foundF && foundW && foundL {
        FirstTableAt(tables, RecordTable, i);
        idx := Some(i);
        return;
      }
    }
    FirstTableAt(tables, RecordTable, |tables|);
  }

  /**
   * The cells the count loop reads, as written: the header row left behind
   * by the scan. With no wikitable at all it was never assigned; when the
   * last table scanned has no row it is None; both raise.
   */
  function RecordHeaderCellsAsWritten(header: HeaderRow): (r: Result<seq<string>>)
    ensures r.Crash? <==> header.Unassigned? || header.row.None?
  {
    match header
    case Unassigned => Crash(UnboundHeaderRow)
    case Assigned(None) => Crash(IterateNone)
    case Assigned(Some(row)) => Ok(ChildTexts(row))
  }

  /** The cells the count loop reads: those of the record table's first row, none without a record table. */
  function RecordHeaderCells(tables: seq<Table>): (cells: seq<string>)
    ensures FirstTable(tables, RecordTable).Some? ==> RecordHeaderCellsAsWritten(ScannedHeaderRow(tables)) == Ok(cells)
    ensures FirstTable(tables, RecordTable).None? ==> cells == []
  {
    match FirstTable(tables, RecordTable)
    case Some(i) => ChildTexts(tables[i].rows[0])
    case None => []
  }

  /** A page with an infobox but no wikitable raises as written; the record header row was never assigned. */
  lemma NoWikitableAsWritten()
    ensures RecordHeaderCellsAsWritten(ScannedHeaderRow([])) == Crash(UnboundHeaderRow)
    ensures RecordHeaderCells([]) == []
  {
  }

  /** `int(text.split()[0])`: the integer the first whitespace-separated token denotes, None where Python raises. */
  function LeadingInt(text: string): Option<int> {
    match FirstToken(text)
    case Some(t) => ParseInt(t)
    case None => None
  }

  /** `data['num_of_fights']`, `data['wins']` and `data['losses']`: None when no cell mentions the word. */
  datatype Counts = Counts(fights: Option<int>, wins: Option<int>, losses: Option<int>)

  /** A cell that mentions `word` (case-sensitively) but does not start with an integer: `int` raises. */
  predicate BadCount(text: string, word: string) {
    Contains(text, word) && LeadingInt(text).None?
  }

  predicate BadCell(text: string) {
    BadCount(text, "fights") || BadCount(text, "wins") || BadCount(text, "losses")
  }

  /** The value of the last cell mentioning `word`. */
  function LastCount(cells: seq<string>, word: string): Option<int> {
    if cells == [] then None
    else
      var last := cells[|cells| - 1];
      if Contains(last, word) then LeadingInt(last) else LastCount(cells[..|cells| - 1], word)
  }

  /** One cell of the count loop: each word it mentions sets that count to the cell's leading integer. */
  function CountStep(c: Counts, text: string): Result<Counts> {
    if BadCell(text) then Crash(NotAnInteger)
    else Ok(Counts(
      if Contains(text, "fights") then LeadingInt(text) else c.fights,
      if Contains(text, "wins") then LeadingInt(text) else c.wins,
      if Contains(text, "losses") then LeadingInt(text) else c.losses))
  }

  /** The counts after visiting `cells` in order. */
  function CountsOf(cells: seq<string>): Result<Counts> {
    if cells == [] then Ok(Counts(None, None, None))
    else
      match CountsOf(cells[..|cells| - 1])
      case Crash(f) => Crash(f)
      case Ok(c) => CountStep(c, cells[|cells| - 1])
  }

  /**
   * The count loop raises exactly when some cell mentions a word without a
   * leading integer; otherwise each count is the value of the last cell that
   * mentions its word.
   */
  lemma {:induction false} CountsCharacterised(cells: seq<string>)
    ensures CountsOf(cells).Crash? <==> exists k :: 0 <= k < |cells| && BadCell(cells[k])
    ensures CountsOf(cells).Ok? ==>
              CountsOf(cells).value == Counts(LastCount(cells, "fights"), LastCount(cells, "wins"), LastCount(cells, "losses"))
  {
    if cells != [] {
      var n := |cells| - 1;
      CountsCharacterised(cells[..n]);
      assert forall k :: 0 <= k < n ==> cells[..n][k] == cells[k];
    }
  }

  /** Visiting cell `i` after the first `i` cells. */
  lemma CountsOfStep(cells: seq<string>, i: nat)
    requires i < |cells|
    ensures CountsOf(cells[..i + 1]) == if CountsOf(cells[..i]).Crash? then CountsOf(cells[..i]) else CountStep(CountsOf(cells[..i]).value, cells[i])
  {
    assert cells[..i + 1][..i] == cells[..i];
  }

  /** The loop over the record header row's cells. */
  method ReadRecordCounts(cells: seq<string>) returns (r: Result<Counts>)
    ensures r == CountsOf(cells)
  {
    var fights, wins, losses := None, None, None;
    for i := 0 to |cells|
      invariant CountsOf(cells[..i]) == Ok(Counts(fights, wins, losses))
    {
      CountsOfStep(cells, i);
      var text := cells[i];
      if Contains(text, "fights") {
        var n := LeadingInt(text);
        if n.None? {
          PrefixCrashes(cells, i + 1);
          return Crash(NotAnInteger);
        }
        fights := n;
      }
      if Contains(text, "wins") {
        var n := LeadingInt(text);
        if n.None? {
          PrefixCrashes(cells, i + 1);
          return Crash(NotAnInteger);
        }
        wins := n;
      }
      if Contains(text, "losses") {
        var n := LeadingInt(text);
        if n.None? {
          PrefixCrashes(cells, i + 1);
          return Crash(NotAnInteger);
        }
        losses := n;
      }
    }
    assert cells[..|cells|] == cells;
    r := Ok(Counts(fights, wins, losses));
  }

  /** Once a prefix of the cells raises, so do all the cells. */
  lemma {:induction false} PrefixCrashes(cells: seq<string>, i: nat)
    requires i <= |cells| && CountsOf(cells[..i]).Crash?
    ensures CountsOf(cells) == Crash(NotAnInteger)
    decreases |cells| - i
  {
    if i == |cells| {
      assert cells[..i] == cells;
      CrashIsNotAnInteger(cells);
    } else {
      assert cells[..i + 1][..i] == cells[..i];
      PrefixCrashes(cells, i + 1);
    }
  }

  /** The only fault the count loop raises is a failed `int`. */
  lemma {:induction false} CrashIsNotAnInteger(cells: seq<string>)
    ensures CountsOf(cells).Crash? ==> CountsOf(cells).fault == NotAnInteger
  {
    if cells != [] {
      CrashIsNotAnInteger(cells[..|cells| - 1]);
    }
  }

  // ---------------------------------------------------------------------------
  // Record table: wins and losses by method, ratios
  // ---------------------------------------------------------------------------

  /** Knockout, decision and DQ figures, in the order the record table lists them. */
  datatype Tally = Tally(ko: int, decision: int, dq: int)

  /** `int(texts[k]) if len(texts) > k else 0`; None where `int` raises. */
  function Position(texts: seq<string>, k: nat): Option<int> {
    if k < |texts| then ParseInt(texts[k]) else Some(0)
  }

  /** Position `k` exists but `int` raises on it. */
  predicate BadPosition(texts: seq<string>, k: nat) {
    k < |texts| && ParseInt(texts[k]).None?
  }

  /** The figures read positionally from the cells of one class: a missing position counts 0, a non-integer raises. */
  function TallyOf(texts: seq<string>): (r: Result<Tally>)
    ensures r.Crash? <==> BadPosition(texts, 0) || BadPosition(texts, 1) || BadPosition(texts, 2)
    ensures r.Ok? ==> r.value.ko == (if |texts| > 0 then ParseInt(texts[0]).value else 0)
    ensures r.Ok? ==> r.value.decision == (if |texts| > 1 then ParseInt(texts[1]).value else 0)
    ensures r.Ok? ==> r.value.dq == (if |texts| > 2 then ParseInt(texts[2]).value else 0)
  {
    var ko, decision, dq := Position(texts, 0), Position(texts, 1), Position(texts, 2);
    if ko.Some? && decision.Some? && dq.Some? then Ok(Tally(ko.value, decision.value, dq.value))
    else Crash(NotAnInteger)
  }

  /** Everything read from the record table: the counts, and the win and loss figures when the table exists. */
  datatype Figures = Figures(counts: Counts, winsBy: Option<Tally>, lossesBy: Option<Tally>)

  /** The counts `c`, then the win and loss figures of the record table (none without one). */
  function TalliedFigures(tables: seq<Table>, c: Counts): Result<Figures> {
    match FirstTable(tables, RecordTable)
    case None => Ok(Figures(c, None, None))
    case Some(i) =>
      match TallyOf(ClassTexts(tables[i].rows, "table-yes2"))
      case Crash(f) => Crash(f)
      case Ok(w) =>
        match TallyOf(ClassTexts(tables[i].rows, "table-no2"))
        case Crash(f) => Crash(f)
        case Ok(l) => Ok(Figures(c, Some(w), Some(l)))
  }

  /**
   * The figures as written: the count loop iterates over whatever the scan
   * left in `record_header_row`, then the win and loss figures are read.
   */
  function RecordFiguresAsWritten(tables: seq<Table>): Result<Figures> {
    match RecordHeaderCellsAsWritten(ScannedHeaderRow(tables))
    case Crash(f) => Crash(f)
    case Ok(cells) =>
      match CountsOf(cells)
      case Crash(f) => Crash(f)
      case Ok(c) => TalliedFigures(tables, c)
  }

  /** The figures as intended: the counts come from the record table's header row, and there are none without one. */
  function RecordFigures(tables: seq<Table>): (r: Result<Figures>)
    ensures r.Crash? ==> r.fault == NotAnInteger
    ensures r.Ok? ==> (r.value.winsBy.Some? <==> FirstTable(tables, RecordTable).Some?)
    ensures r.Ok? ==> (r.value.lossesBy.Some? <==> FirstTable(tables, RecordTable).Some?)
  {
    CrashIsNotAnInteger(RecordHeaderCells(tables));
    match CountsOf(RecordHeaderCells(tables))
    case Crash(f) => Crash(f)
    case Ok(c) => TalliedFigures(tables, c)
  }

  /** With a record table, the figures as written are the intended ones. */
  lemma RecordFiguresAgree(tables: seq<Table>)
    requires FirstTable(tables, RecordTable).Some?
    ensures RecordFiguresAsWritten(tables) == RecordFigures(tables)
  {
    assert RecordHeaderCellsAsWritten(ScannedHeaderRow(tables)) == Ok(RecordHeaderCells(tables));
  }

  /**
   * Without a record table, as written: no wikitable at all raises
   * UnboundLocalError, a last table without rows raises TypeError, and
   * otherwise the counts are read from the last table's first row.
   */
  lemma NoRecordTableAsWritten(tables: seq<Table>)
    requires FirstTable(tables, RecordTable).None?
    ensures tables == [] ==> RecordFiguresAsWritten(tables) == Crash(UnboundHeaderRow)
    ensures tables != [] && tables[|tables| - 1].rows == [] ==> RecordFiguresAsWritten(tables) == Crash(IterateNone)
    ensures tables != [] && tables[|tables| - 1].rows != [] ==>
      RecordFiguresAsWritten(tables) == match CountsOf(ChildTexts(tables[|tables| - 1].rows[0]))
        case Crash(f) => Crash(f)
        case Ok(c) => Ok(Figures(c, None, None))
  {
  }

  /** The faults of the record section: a failed `int`, or, only without a record table, the unbound or None header row. */
  lemma RecordFaults(tables: seq<Table>)
    ensures RecordFigures(tables).Crash? ==> RecordFigures(tables).fault == NotAnInteger
    ensures RecordFiguresAsWritten(tables).Crash? && RecordFiguresAsWritten(tables).fault != NotAnInteger ==>
      FirstTable(tables, RecordTable).None? && (tables == [] <==> RecordFiguresAsWritten(tables).fault == UnboundHeaderRow)
  {
    CrashIsNotAnInteger(RecordHeaderCells(tables));
    var h := RecordHeaderCellsAsWritten(ScannedHeaderRow(tables));
    if h.Ok? {
      CrashIsNotAnInteger(h.value);
    }
  }

  /** The ratios of the figures: the fight and win counts default to 0, and so does the knockout figure without a record table. */
  function FigureRatios(fig: Figures): Ratios {
    ComputeRatios(fig.counts.fights.GetOr(0), fig.counts.wins.GetOr(0), if fig.winsBy.Some? then fig.winsBy.value.ko else 0)
  }

  /** As intended, a page without a record table has no counts and zero ratios. */
  lemma NoRecordTableZeroRatios(tables: seq<Table>)
    requires FirstTable(tables, RecordTable).None?
    ensures RecordFigures(tables) == Ok(Figures(Counts(None, None, None), None, None))
    ensures FigureRatios(RecordFigures(tables).value) == Ratios(0.0, 0.0)
  {
    assert RecordHeaderCells(tables) == [];
  }

  // ---------------------------------------------------------------------------
  // The whole page
  // ---------------------------------------------------------------------------

  /** The name taken from the page title, when the page has one. */
  function TitleName(title: Option<string>): Option<string> {
    match title
    case Some(t) => Some(NameFromTitle(t))
    case None => None
  }

  datatype ParseOutcome = NoInfobox | Failed(fault: Fault) | Parsed(data: Profile, matrix: seq<BoutRow>)

  /**
   * The record once the infobox is read: the name from the title, and for each
   * field the value of the last row that supplies one; a page with no photo
   * gets the default silhouette.
   */
  function InfoboxProfile(page: WikiPage): (p: Profile)
    requires page.infobox.Some?
    ensures p.name == TitleName(page.title) && p.photo.Some?
    ensures (forall k :: 0 <= k < |page.infobox.value| ==> page.infobox.value[k].image.None?) ==> p.photo == Some(DefaultBoxerImage)
    ensures (forall k :: 0 <= k < |page.infobox.value| ==> page.infobox.value[k].nickname.None?) ==> p.alias.None?
    ensures p.activeFrom.None? && p.activeUntil.None? && p.era.None? && p.numOfFights.None? && p.wins.None? && p.losses.None?
    ensures p.koRatio.None? && p.winRatio.None?
  {
    LatestIsLast(page.infobox.value, PhotoOf);
    LatestIsLast(page.infobox.value, AliasOf);
    var rows := page.infobox.value;
    NamedProfile(TitleName(page.title)).(
      photo := Some(Latest(rows, PhotoOf).GetOr(DefaultBoxerImage)),
      alias := Latest(rows, AliasOf),
      stance := Latest(rows, StanceOf).GetOr(None),
      birthDate := Latest(rows, BirthDateOf),
      heightCm := Latest(rows, HeightOf),
      reachCm := Latest(rows, ReachOf))
  }

  /** The record once the active dates and eras of the bouts' dates are entered; nothing is entered without dates. */
  function WithActivity(data: Profile, dates: seq<Date>): (r: Profile)
    ensures dates == [] ==> r == data
    ensures dates != [] ==>
      && r.activeFrom.Some? && r.activeFrom.value in dates && (forall e :: e in dates ==> DateLe(r.activeFrom.value, e))
      && r.activeUntil.Some? && r.activeUntil.value in dates && (forall e :: e in dates ==> DateLe(e, r.activeUntil.value))
      && r.era.Some? && r.era.value != [] && r.era.value[0] == DecadeLabel(Decade(r.activeFrom.value.year))
    ensures r.(activeFrom := data.activeFrom, activeUntil := data.activeUntil, era := data.era) == data
  {
    if dates == [] then data
    else
      var first, last := EarliestDate(dates), LatestDate(dates);
      data.(activeFrom := Some(first), activeUntil := Some(last), era := Some(Eras(Decade(first.year), Decade(last.year))))
  }

  /** The record once the figures of the record table and the ratios are entered. */
  function WithFigures(data: Profile, fig: Figures): (r: Profile)
    ensures r.numOfFights == fig.counts.fights && r.wins == fig.counts.wins && r.losses == fig.counts.losses
    ensures r.koRatio.Some? && r.winRatio.Some?
    ensures fig.winsBy.Some? ==> r.winsByKo == Some(fig.winsBy.value.ko) && r.winsByDecision == Some(fig.winsBy.value.decision) && r.winsByDq == Some(fig.winsBy.value.dq)
    ensures fig.winsBy.None? ==> r.winsByKo == data.winsByKo && r.winsByDecision == data.winsByDecision && r.winsByDq == data.winsByDq
    ensures fig.lossesBy.None? ==> r.lossesByKo == data.lossesByKo && r.lossesByDecision == data.lossesByDecision && r.lossesByDq == data.lossesByDq
    ensures r.(numOfFights := data.numOfFights, wins := data.wins, losses := data.losses, winsByKo := data.winsByKo,
               winsByDecision := data.winsByDecision, winsByDq := data.winsByDq, lossesByKo := data.lossesByKo,
               lossesByDecision := data.lossesByDecision, lossesByDq := data.lossesByDq, koRatio := data.koRatio,
               winRatio := data.winRatio) == data
  {
    var ratios := FigureRatios(fig);
    var d := data.(numOfFights := fig.counts.fights, wins := fig.counts.wins, losses := fig.counts.losses,
                   koRatio := Some(ratios.koRatio), winRatio := Some(ratios.winRatio));
    var d := if fig.winsBy.Some? then
               d.(winsByKo := Some(fig.winsBy.value.ko), winsByDecision := Some(fig.winsBy.value.decision), winsByDq := Some(fig.winsBy.value.dq))
             else d;
    if fig.lossesBy.Some? then
      d.(lossesByKo := Some(fig.lossesBy.value.ko), lossesByDecision := Some(fig.lossesBy.value.decision), lossesByDq := Some(fig.lossesBy.value.dq))
    else d
  }

  /** Lines 242-344: the bout table, its matrix, the active dates and the eras. */
  method ReadBoutSection(tables: seq<Table>, parseDate: string -> Option<Date>, data0: Profile)
    returns (data: Profile, matrix: seq<BoutRow>)
    ensures matrix == BoutMatrix(tables)
    ensures data == WithActivity(data0, BoutDates(matrix, parseDate))
  {
    data := data0;
    var boutIdx := FindBoutTable(tables);
    var headers, dataRows := [], [];
    if boutIdx.Some? {
      var t := tables[boutIdx.value];
      headers, dataRows := HeaderTexts(t.rows[0]), t.rows[1..];
    }
    matrix := BuildFightMatrix(headers, dataRows);
    var dates := CollectDates(matrix, parseDate);
    if dates != [] {
      var first, last := EarliestDate(dates), LatestDate(dates);
      var eras := DefineEras(first.year, last.year);
      data := data.(activeFrom := Some(first), activeUntil := Some(last), era := Some(eras));
    }
  }

  /** Lines 349-499: the record table's counts, the wins and losses by method, and the ratios. */
  method ReadRecordSection(tables: seq<Table>, data0: Profile) returns (r: Result<Profile>)
    ensures r.Crash? <==> RecordFiguresAsWritten(tables).Crash?
    ensures r.Crash? ==> r.fault == RecordFiguresAsWritten(tables).fault
    ensures r.Ok? ==> r.value == WithFigures(data0, RecordFiguresAsWritten(tables).value)
  {
    var recordIdx, header := FindRecordTable(tables);
    var cells := RecordHeaderCellsAsWritten(header);
    if cells.Crash? {
      return Crash(cells.fault);
    }
    var counts := ReadRecordCounts(cells.value);
    if counts.Crash? {
      return Crash(counts.fault);
    }
    var c := counts.value;
    var data := data0.(numOfFights := c.fights, wins := c.wins, losses := c.losses);
    var winsByKo := 0;
    if recordIdx.Some? {
      var t := tables[recordIdx.value];
      var winsBy := TallyOf(ClassTexts(t.rows, "table-yes2"));
      if winsBy.Crash? {
        return Crash(winsBy.fault);
      }
      var w := winsBy.value;
      data := data.(winsByKo := Some(w.ko), winsByDecision := Some(w.decision), winsByDq := Some(w.dq));
      winsByKo := w.ko;
      var lossesBy := TallyOf(ClassTexts(t.rows, "table-no2"));
      if lossesBy.Crash? {
        return Crash(lossesBy.fault);
      }
      var l := lossesBy.value;
      data := data.(lossesByKo := Some(l.ko), lossesByDecision := Some(l.decision), lossesByDq := Some(l.dq));
    }
    var ratios := ComputeRatios(c.fights.GetOr(0), c.wins.GetOr(0), winsByKo);
    data := data.(koRatio := Some(ratios.koRatio), winRatio := Some(ratios.winRatio));
    return Ok(data);
  }

  /**
   * `parse_data(html)`. A page without an infobox yields nothing; otherwise
   * the record is filled from the infobox rows, the bout table and the record
   * table in turn. It raises on an infobox image without `src`, on a
   * `record_header_row` that is unbound or None, and on a count cell that is
   * not an integer.
   */
  method ParseData(page: WikiPage, parseDate: string -> Option<Date>) returns (r: ParseOutcome)
    ensures r.NoInfobox? <==> page.infobox.None?
    ensures page.infobox.Some? ==>
      (r.Failed? <==> HasSrclessImage(page.infobox.value) || RecordFiguresAsWritten(page.wikitables).Crash?)
    ensures r.Failed? ==>
      && page.infobox.Some?
      && r.fault == (if HasSrclessImage(page.infobox.value) then ConcatNone else RecordFiguresAsWritten(page.wikitables).fault)
    ensures r.Parsed? ==> r.matrix == BoutMatrix(page.wikitables)
    ensures r.Parsed? ==>
      && page.infobox.Some?
      && r.data == WithFigures(WithActivity(InfoboxProfile(page), BoutDates(r.matrix, parseDate)),
                               RecordFiguresAsWritten(page.wikitables).value)
  {
    if page.infobox.None? {
      return NoInfobox;
    }
    var info := ReadInfobox(page.infobox.value, NamedProfile(TitleName(page.title)));
    if info.Crash? {
      return Failed(info.fault);
    }
    var data := info.value;
    if data.photo.None? {
      data := data.(photo := Some(DefaultBoxerImage));
    }
    var matrix;
    data, matrix := ReadBoutSection(page.wikitables, parseDate, data);
    var record := ReadRecordSection(page.wikitables, data);
    if record.Crash? {
      return Failed(record.fault);
    }
    return Parsed(record.value, matrix);
  }

  /** What `parse_data` yields on `page`, as `ParseData` computes it. */
  function ParsedPage(page: WikiPage, parseDate: string -> Option<Date>): ParseOutcome {
    if page.infobox.None? then NoInfobox
    else if HasSrclessImage(page.infobox.value) then Failed(ConcatNone)
    else
      match RecordFiguresAsWritten(page.wikitables)
      case Crash(f) => Failed(f)
      case Ok(fig) =>
        var matrix := BoutMatrix(page.wikitables);
        Parsed(WithFigures(WithActivity(InfoboxProfile(page), BoutDates(matrix, parseDate)), fig), matrix)
  }

  /**
   * The parse as intended: an image without `src` gets the default photo
   * and a page without a record table gets no counts; only a count cell
   * that is not an integer fails.
   */
  function CorrectedParse(page: WikiPage, parseDate: string -> Option<Date>): ParseOutcome {
    if page.infobox.None? then NoInfobox
    else
      match RecordFigures(page.wikitables)
      case Crash(f) => Failed(f)
      case Ok(fig) =>
        var matrix := BoutMatrix(page.wikitables);
        Parsed(WithFigures(WithActivity(InfoboxProfile(page), BoutDates(matrix, parseDate)), fig), matrix)
  }

  /**
   * The parse as written and as intended agree on every page with a record
   * table and no image without `src`; the intended parse fails only on a
   * non-integer count, and the written one raises something else only on
   * the two defects.
   */
  lemma ParseAgreesWithCorrected(page: WikiPage, parseDate: string -> Option<Date>)
    ensures page.infobox.Some? && !HasSrclessImage(page.infobox.value) && FirstTable(page.wikitables, RecordTable).Some? ==>
      ParsedPage(page, parseDate) == CorrectedParse(page, parseDate)
    ensures CorrectedParse(page, parseDate).Failed? ==> CorrectedParse(page, parseDate).fault == NotAnInteger
    ensures ParsedPage(page, parseDate).Failed? && ParsedPage(page, parseDate).fault != NotAnInteger ==>
      page.infobox.Some? && (HasSrclessImage(page.infobox.value) || FirstTable(page.wikitables, RecordTable).None?)
  {
    RecordFaults(page.wikitables);
    if FirstTable(page.wikitables, RecordTable).Some? {
      RecordFiguresAgree(page.wikitables);
    }
  }

  /**
   * A page with an infobox and no wikitable: as written `parse_data` raises
   * UnboundLocalError; as intended it parses with no counts and zero ratios.
   */
  lemma NoWikitablePage(page: WikiPage, parseDate: string -> Option<Date>)
    requires page.infobox.Some? && !HasSrclessImage(page.infobox.value) && page.wikitables == []
    ensures ParsedPage(page, parseDate) == Failed(UnboundHeaderRow)
    ensures CorrectedParse(page, parseDate).Parsed?
    ensures CorrectedParse(page, parseDate).data.koRatio == Some(0.0)
    ensures CorrectedParse(page, parseDate).data.winRatio == Some(0.0)
  {
    NoRecordTableAsWritten(page.wikitables);
    NoRecordTableZeroRatios(page.wikitables);
  }

  /** An infobox image without `src`: as written `parse_data` raises TypeError; as intended the page parses with the default photo for that row. */
  lemma SrclessImagePage(page: WikiPage, parseDate: string -> Option<Date>)
    requires page.infobox.Some? && page.infobox.value != [] && page.infobox.value[|page.infobox.value| - 1].image == Some(None)
    requires FirstTable(page.wikitables, RecordTable).Some? && RecordFigures(page.wikitables).Ok?
    ensures ParsedPage(page, parseDate) == Failed(ConcatNone)
    ensures CorrectedParse(page, parseDate).Parsed?
    ensures CorrectedParse(page, parseDate).data.photo == Some(DefaultBoxerImage)
  {
    var rows := page.infobox.value;
    assert rows[|rows| - 1].image == Some(None);
    assert Latest(rows, PhotoOf) == Some(DefaultBoxerImage);
  }
}
