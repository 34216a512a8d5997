/**
 * The parts of a Wikipedia boxer page the scraper reads, independent of
 * any HTML library: the page title, the infobox rows and the wikitables.
 */
module Page {
  import opened Wrappers

  datatype Tag = Th | Td

  /** A `th` or `td` cell: its class list and its text with every fragment stripped. */
  datatype Cell = Cell(tag: Tag, classes: set<string>, text: string)

  /** A `tr` element and its cells in document order. */
  datatype Row = Row(cells: seq<Cell>)

  /** A `table` with class `wikitable` and its rows in document order. */
  datatype Table = Table(rows: seq<Row>)

  /** A `td` with class `infobox-data nickname`: the text of its first `li`, if it has one, and its whole text. */
  datatype Nickname = Nickname(firstItem: Option<string>, text: string)

  /**
   * One row of the infobox. `image` is the `src` attribute of the
   * `img.mw-file-element` inside a `td.infobox-image` (None: no such image;
   * Some(None): an image without `src`); `key` and `value` are the texts
   * of the row's `th.infobox-label` and `td.infobox-data`, when present.
   */
  datatype InfoRow = InfoRow(
    image: Option<Option<string>>,
    nickname: Option<Nickname>,
    key: Option<string>,
    value: Option<string>)

  /** A fetched page: the `mw-page-title-main` text, the infobox rows, and the wikitables in order. */
  datatype WikiPage = WikiPage(title: Option<string>, infobox: Option<seq<InfoRow>>, wikitables: seq<Table>)

  /** One accepted row of the bout table: header text to cell text. */
  type BoutRow = map<string, string>

  /** The texts of the cells of `cells` with tag `tag`, in order (`row.find_all(tag)`). */
  function TextsOf(cells: seq<Cell>, tag: Tag): (r: seq<string>)
    ensures |r| <= |cells|
    ensures forall t :: t in r <==> exists k :: 0 <= k < |cells| && cells[k].tag == tag && cells[k].text == t
  {
    if cells == [] then []
    else
      var rest := TextsOf(cells[1..], tag);
      assert forall k :: 1 <= k < |cells| ==> cells[k] == cells[1..][k - 1];
      if cells[0].tag == tag then [cells[0].text] + rest else rest
  }

  /** `[th.get_text(strip=True) for th in row.find_all('th')]`. */
  function HeaderTexts(r: Row): seq<string> {
    TextsOf(r.cells, Th)
  }

  /** `[td.get_text(strip=True) for td in row.find_all('td')]`. */
  function DataTexts(r: Row): seq<string> {
    TextsOf(r.cells, Td)
  }

  /** The texts of the cells, in order. */
  function Texts(cells: seq<Cell>): (texts: seq<string>)
    ensures |texts| == |cells| && forall k :: 0 <= k < |texts| ==> texts[k] == cells[k].text
  {
    if cells == [] then [] else [cells[0].text] + Texts(cells[1..])
  }

  /** The texts of all of the row's cells, as iterating over the `tr` element visits them. */
  function ChildTexts(r: Row): (texts: seq<string>)
    ensures |texts| == |r.cells| && forall k :: 0 <= k < |texts| ==> texts[k] == r.cells[k].text
  {
    Texts(r.cells)
  }

  /** `table.find('tr')`. */
  function FirstRow(t: Table): Option<Row> {
    if t.rows == [] then None else Some(t.rows[0])
  }

  /** The texts of the `td` cells carrying class `cls`, in any row, in document order. */
  function ClassTexts(rows: seq<Row>, cls: string): seq<string> {
    if rows == [] then [] else ClassCellTexts(rows[0].cells, cls) + ClassTexts(rows[1..], cls)
  }

  function ClassCellTexts(cells: seq<Cell>, cls: string): seq<string> {
    if cells == [] then []
    else (if cells[0].tag == Td && cls in cells[0].classes then [cells[0].text] else []) + ClassCellTexts(cells[1..], cls)
  }
}
