/**
 * `batch_scrape` (scraper/scraper.py): read the URL list, and for each URL
 * fetch the page, skip boxers already stored under the page title, parse the
 * page and store the boxer and its bouts. The network is a parameter
 * `fetch` from URL to page (None when the request fails).
 */
module Batch {
  import opened Wrappers
  import opened Text
  import opened Schema
  import opened Page
  import opened Extractor
  import opened Persistence

  // ---------------------------------------------------------------------------
  // The URL list
  // ---------------------------------------------------------------------------

  /** `[line.strip() for line in f if line.strip()]`. */
  function FilterUrls(lines: seq<string>): (urls: seq<string>)
    ensures |urls| <= |lines|
    ensures forall k :: 0 <= k < |urls| ==> urls[k] != [] && Trimmed(urls[k])
  {
    if lines == [] then []
    else (if Strip(lines[0]) == [] then [] else [Strip(lines[0])]) + FilterUrls(lines[1..])
  }

  /** Filtering a file made of two parts filters each part. */
  lemma {:induction false} FilterUrlsAppend(a: seq<string>, b: seq<string>)
    ensures FilterUrls(a + b) == FilterUrls(a) + FilterUrls(b)
  {
    if a != [] {
      var head := if Strip(a[0]) == [] then [] else [Strip(a[0])];
      assert (a + b)[0] == a[0] && (a + b)[1..] == a[1..] + b;
      FilterUrlsAppend(a[1..], b);
      assert FilterUrls(a + b) == head + (FilterUrls(a[1..]) + FilterUrls(b));
    } else {
      assert a + b == b;
    }
  }

  /** A filtered list passes the filter unchanged. */
  lemma {:induction false} FilterUrlsIdempotent(lines: seq<string>)
    ensures FilterUrls(FilterUrls(lines)) == FilterUrls(lines)
  {
    if lines != [] {
      var head := if Strip(lines[0]) == [] then [] else [Strip(lines[0])];
      FilterUrlsIdempotent(lines[1..]);
      FilterUrlsAppend(head, FilterUrls(lines[1..]));
      if head != [] {
        assert head[1..] == [];
      }
    }
  }

  /** Every URL comes from a line, and every non-blank line gives its stripped text as a URL. */
  lemma {:induction false} FilterUrlsFromLines(lines: seq<string>)
    ensures forall u :: u in FilterUrls(lines) <==> exists k :: 0 <= k < |lines| && Strip(lines[k]) == u && u != []
  {
    if lines != [] {
      FilterUrlsFromLines(lines[1..]);
      forall u
        ensures u in FilterUrls(lines) <==> exists k :: 0 <= k < |lines| && Strip(lines[k]) == u && u != []
      {
        if u in FilterUrls(lines[1..]) {
          var k :| 0 <= k < |lines[1..]| && Strip(lines[1..][k]) == u && u != [];
          assert Strip(lines[k + 1]) == u;
        }
        if exists k :: 0 <= k < |lines| && Strip(lines[k]) == u && u != [] {
          var k :| 0 <= k < |lines| && Strip(lines[k]) == u && u != [];
          if k > 0 {
            assert Strip(lines[1..][k - 1]) == u;
          }
        }
      }
    }
  }

  // ---------------------------------------------------------------------------
  // One page
  // ---------------------------------------------------------------------------

  /**
   * `boxer_exists` on the title of the page, stripped but not cleared of its
   * " (boxer)" suffix, the way the quick check before the full parse reads it.
   */
  predicate KnownTitle(t: Tables, title: string) {
    FindBoxer(t.boxers, Some(Strip(title))).Some?
  }

  /** The tables after `insert_boxer(data)` and, for a non-empty bout matrix, `insert_fights`. */
  function StoreParsed(t: Tables, data: Profile, matrix: seq<BoutRow>, parseDate: string -> Option<Date>): Tables {
    var u := InsertBoxerSpec(t, data);
    if matrix != [] then InsertFightsSpec(u, matrix, data, parseDate) else u
  }

  /** What the loop body uses of a fetched page: its title and what `parse_data` makes of it. */
  datatype Visit = Visit(title: Option<string>, outcome: ParseOutcome)

  function VisitOf(page: WikiPage, parseDate: string -> Option<Date>): Visit {
    Visit(page.title, ParsedPage(page, parseDate))
  }

  /**
   * The body of the URL loop for what a URL fetched (None: the request
   * failed): the tables after it, or None where `parse_data` raises and the
   * exception ends the batch.
   */
  function IngestPage(t: Tables, visit: Option<Visit>, parseDate: string -> Option<Date>): Option<Tables> {
    if visit.None? || visit.value.title.None? || KnownTitle(t, visit.value.title.value) then Some(t)
    else
      match visit.value.outcome
      case NoInfobox => Some(t)
      case Failed(_) => None
      case Parsed(data, matrix) => Some(StoreParsed(t, data, matrix, parseDate))
  }

  /** `u` extends `t`: rows are only appended, and every new boxer has a non-empty name. */
  predicate Grows(t: Tables, u: Tables) {
    && |t.boxers| <= |u.boxers| && u.boxers[..|t.boxers|] == t.boxers
    && (forall k :: |t.boxers| <= k < |u.boxers| ==> u.boxers[k].name != [])
    && |t.fights| <= |u.fights| && u.fights[..|t.fights|] == t.fights
  }

  lemma GrowsTransitive(t: Tables, u: Tables, v: Tables)
    requires Grows(t, u) && Grows(u, v)
    ensures Grows(t, v)
  {
    assert v.boxers[..|t.boxers|] == v.boxers[..|u.boxers|][..|t.boxers|];
    assert v.fights[..|t.fights|] == v.fights[..|u.fights|][..|t.fights|];
  }

  lemma InsertBoxerGrows(t: Tables, data: Profile)
    requires TablesValid(t)
    ensures TablesValid(InsertBoxerSpec(t, data)) && Grows(t, InsertBoxerSpec(t, data))
  {
    InsertBoxerKeepsValid(t, data);
  }

  lemma InsertFightsGrows(t: Tables, matrix: seq<BoutRow>, data: Profile, parseDate: string -> Option<Date>)
    requires TablesValid(t)
    ensures TablesValid(InsertFightsSpec(t, matrix, data, parseDate)) && Grows(t, InsertFightsSpec(t, matrix, data, parseDate))
  {
    InsertFightsKeepsValid(t, matrix, data, parseDate);
    if InsertFightsOutcome(t, data) == Inserted {
      var ownerId := FindBoxer(t.boxers, data.name).value;
      var cs := FightsOf(matrix, ownerId, t.boxers[ownerId - 1].name, t.boxers, parseDate);
      AddNewExtends(t.fights, cs);
      AppendedFightsGrow(t, AddNew(t.fights, cs));
    } else {
      assert t.boxers[..|t.boxers|] == t.boxers && t.fights[..|t.fights|] == t.fights;
    }
  }

  /** New fights behind the stored ones, with the boxers untouched, extend the tables. */
  lemma AppendedFightsGrow(t: Tables, fights: seq<Fight>)
    requires |t.fights| <= |fights| && fights[..|t.fights|] == t.fights
    ensures Grows(t, t.(fights := fights))
  {
    assert t.boxers[..|t.boxers|] == t.boxers;
  }

  /** Ingesting a page keeps the tables valid and only appends to them. */
  lemma IngestPageGrows(t: Tables, visit: Option<Visit>, parseDate: string -> Option<Date>)
    requires TablesValid(t)
    ensures IngestPage(t, visit, parseDate).Some? ==>
      TablesValid(IngestPage(t, visit, parseDate).value) && Grows(t, IngestPage(t, visit, parseDate).value)
  {
    var r := IngestPage(t, visit, parseDate);
    if r.Some? && r.value != t {
      var p := visit.value.outcome;
      var data, matrix := p.data, p.matrix;
      var u := InsertBoxerSpec(t, data);
      InsertBoxerGrows(t, data);
      if matrix != [] {
        InsertFightsGrows(u, matrix, data, parseDate);
        GrowsTransitive(t, u, InsertFightsSpec(u, matrix, data, parseDate));
      }
    }
  }

  /** A name already found keeps being found under the same id as the table grows. */
  lemma FindBoxerGrows(t: Tables, u: Tables, name: Option<string>)
    requires Grows(t, u)
    ensures FindBoxer(t.boxers, name).Some? ==> FindBoxer(u.boxers, name) == FindBoxer(t.boxers, name)
    ensures name == Some([]) ==> FindBoxer(u.boxers, name) == FindBoxer(t.boxers, name)
  {
    var id := FindBoxer(t.boxers, name);
    if id.Some? {
      forall k | 0 <= k < id.value
        ensures u.boxers[k] == t.boxers[k]
      {
        assert u.boxers[k] == u.boxers[..|t.boxers|][k];
      }
      FindBoxerAt(u.boxers, name, id.value);
    } else if name == Some([]) {
      forall k | 0 <= k < |u.boxers|
        ensures u.boxers[k].name != []
      {
        if k < |t.boxers| {
          assert u.boxers[k] == u.boxers[..|t.boxers|][k];
        }
      }
    }
  }

  lemma HasKeyGrows(t: Tables, u: Tables, key: FightKey)
    requires Grows(t, u) && HasKey(t.fights, key)
    ensures HasKey(u.fights, key)
  {
    var k :| 0 <= k < |t.fights| && KeyOf(t.fights[k]) == key;
    assert u.fights[k] == t.fights[k];
  }

  /**
   * The tables already hold what storing `data` and `matrix` would write:
   * the boxer is not admitted, and every bout's key is stored for its owner.
   */
  predicate Holds(t: Tables, data: Profile, matrix: seq<BoutRow>, parseDate: string -> Option<Date>) {
    && !AdmitsBoxer(t, data)
    && (matrix != [] && InsertFightsOutcome(t, data) == Inserted ==>
          forall k :: 0 <= k < |matrix| ==> HasKey(t.fights, RowKey(matrix[k], FindBoxer(t.boxers, data.name).value, parseDate)))
  }

  /** The page has nothing left to write: ingesting it again leaves the tables as they are. */
  predicate Absorbed(t: Tables, visit: Option<Visit>, parseDate: string -> Option<Date>) {
    visit.None? || visit.value.title.None? || KnownTitle(t, visit.value.title.value)
    || match visit.value.outcome
       case NoInfobox => true
       case Failed(_) => false
       case Parsed(data, matrix) => Holds(t, data, matrix, parseDate)
  }

  lemma HoldsStores(t: Tables, data: Profile, matrix: seq<BoutRow>, parseDate: string -> Option<Date>)
    requires TablesValid(t) && Holds(t, data, matrix, parseDate)
    ensures StoreParsed(t, data, matrix, parseDate) == t
  {
    if matrix != [] && InsertFightsOutcome(t, data) == Inserted {
      var ownerId := FindBoxer(t.boxers, data.name).value;
      var cs := FightsOf(matrix, ownerId, t.boxers[ownerId - 1].name, t.boxers, parseDate);
      forall k | 0 <= k < |cs|
        ensures HasKey(t.fights, KeyOf(cs[k]))
      {
        FightsOfAt(matrix, ownerId, t.boxers[ownerId - 1].name, t.boxers, parseDate, k);
      }
      AddNewOfPresentKeys(t.fights, cs);
    }
  }

  /** An absorbed page is ingested without any change. */
  lemma AbsorbedIngestsNothing(t: Tables, visit: Option<Visit>, parseDate: string -> Option<Date>)
    requires TablesValid(t) && Absorbed(t, visit, parseDate)
    ensures IngestPage(t, visit, parseDate) == Some(t)
  {
    if !(visit.None? || visit.value.title.None? || KnownTitle(t, visit.value.title.value)) {
      var p := visit.value.outcome;
      if p.Parsed? {
        HoldsStores(t, p.data, p.matrix, parseDate);
      }
    }
  }

  /** Once a page is ingested, it is absorbed. */
  lemma IngestPageAbsorbs(t: Tables, visit: Option<Visit>, parseDate: string -> Option<Date>)
    requires TablesValid(t) && IngestPage(t, visit, parseDate).Some?
    ensures Absorbed(IngestPage(t, visit, parseDate).value, visit, parseDate)
  {
    if !(visit.None? || visit.value.title.None? || KnownTitle(t, visit.value.title.value)) {
      var p := visit.value.outcome;
      if p.Parsed? {
        StoreParsedHolds(t, p.data, p.matrix, parseDate);
      }
    }
  }

  /** Once a record and its bouts are stored, the tables hold them. */
  lemma StoreParsedHolds(t: Tables, data: Profile, matrix: seq<BoutRow>, parseDate: string -> Option<Date>)
    requires TablesValid(t)
    ensures Holds(StoreParsed(t, data, matrix, parseDate), data, matrix, parseDate)
  {
    var u := InsertBoxerSpec(t, data);
    InsertBoxerKeepsValid(t, data);
    assert !AdmitsBoxer(u, data);
    if matrix != [] {
      var v := InsertFightsSpec(u, matrix, data, parseDate);
      assert v.boxers == u.boxers;
      if InsertFightsOutcome(u, data) == Inserted {
        InsertFightsStoresEveryBout(u, matrix, data, parseDate);
      }
    }
  }

  /** A page stays absorbed while the tables grow. */
  lemma AbsorbedGrows(t: Tables, u: Tables, visit: Option<Visit>, parseDate: string -> Option<Date>)
    requires Grows(t, u) && Absorbed(t, visit, parseDate)
    ensures Absorbed(u, visit, parseDate)
  {
    if visit.Some? && visit.value.title.Some? {
      var title := visit.value.title.value;
      if KnownTitle(t, title) {
        FindBoxerGrows(t, u, Some(Strip(title)));
      } else if !KnownTitle(u, title) {
        var p := visit.value.outcome;
        if p.Parsed? {
          var data, matrix := p.data, p.matrix;
          FindBoxerGrows(t, u, data.name);
          if data.name.Some? && data.name.value == [] {
            assert FindBoxer(u.boxers, data.name) == FindBoxer(t.boxers, data.name);
          }
          assert !AdmitsBoxer(u, data);
          if matrix != [] && InsertFightsOutcome(u, data) == Inserted {
            assert InsertFightsOutcome(t, data) == Inserted;
            var ownerId := FindBoxer(t.boxers, data.name).value;
            forall k | 0 <= k < |matrix|
              ensures HasKey(u.fights, RowKey(matrix[k], ownerId, parseDate))
            {
              HasKeyGrows(t, u, RowKey(matrix[k], ownerId, parseDate));
            }
          }
        }
      }
    }
  }

  // ---------------------------------------------------------------------------
  // The batch
  // ---------------------------------------------------------------------------

  /** What a URL's fetch offers the loop body: nothing when the request failed. */
  function FetchVisit(page: Option<WikiPage>, parseDate: string -> Option<Date>): Option<Visit> {
    match page
    case None => None
    case Some(p) => Some(VisitOf(p, parseDate))
  }

  function VisitsOf(urls: seq<string>, fetch: string -> Option<WikiPage>, parseDate: string -> Option<Date>): (vs: seq<Option<Visit>>)
    ensures |vs| == |urls| && forall k :: 0 <= k < |urls| ==> vs[k] == FetchVisit(fetch(urls[k]), parseDate)
  {
    if urls == [] then [] else [FetchVisit(fetch(urls[0]), parseDate)] + VisitsOf(urls[1..], fetch, parseDate)
  }

  /** The tables after some URLs, and the position of the URL whose parse raised, if one did. */
  datatype Run = Run(tables: Tables, raisedAt: Option<nat>)

  /** The loop body for the URL at `index`; nothing runs once an exception has ended the batch. */
  function Next(r: Run, visit: Option<Visit>, index: nat, parseDate: string -> Option<Date>): Run {
    if r.raisedAt.Some? then r
    else
      match IngestPage(r.tables, visit, parseDate)
      case None => Run(r.tables, Some(index))
      case Some(u) => Run(u, None)
  }

  /** The URL loop of `batch_scrape` over the visits of the URL list, from the tables `t`. */
  function BatchSpec(t: Tables, visits: seq<Option<Visit>>, parseDate: string -> Option<Date>): (r: Run)
    ensures r.raisedAt.Some? ==> r.raisedAt.value < |visits|
    decreases |visits|
  {
    if visits == [] then Run(t, None)
    else Next(BatchSpec(t, visits[..|visits| - 1], parseDate), visits[|visits| - 1], |visits| - 1, parseDate)
  }

  lemma BatchStep(t: Tables, visits: seq<Option<Visit>>, i: nat, parseDate: string -> Option<Date>)
    requires i < |visits|
    ensures BatchSpec(t, visits[..i + 1], parseDate) == Next(BatchSpec(t, visits[..i], parseDate), visits[i], i, parseDate)
  {
    assert visits[..i + 1][..i] == visits[..i];
  }

  /**
   * After the loop the tables are valid and extend the ones it started from;
   * every URL before the one that raised is absorbed, and the one that raised
   * raises again from the final tables.
   */
  lemma BatchAbsorbs(t: Tables, visits: seq<Option<Visit>>, parseDate: string -> Option<Date>)
    requires TablesValid(t)
    ensures var r := BatchSpec(t, visits, parseDate);
      && TablesValid(r.tables) && Grows(t, r.tables)
      && (r.raisedAt.Some? ==> r.raisedAt.value < |visits| && IngestPage(r.tables, visits[r.raisedAt.value], parseDate).None?)
      && forall j :: 0 <= j < |visits| && (r.raisedAt.None? || j < r.raisedAt.value) ==> Absorbed(r.tables, visits[j], parseDate)
  {
    assert visits[..|visits|] == visits;
    BatchGrowsPrefix(t, visits, |visits|, parseDate);
    BatchRaisesPrefix(t, visits, |visits|, parseDate);
    BatchAbsorbsPrefix(t, visits, |visits|, parseDate);
  }

  /** The loop over the first `n` visits keeps the tables valid and only extends them. */
  lemma {:induction false} BatchGrowsPrefix(t: Tables, visits: seq<Option<Visit>>, n: nat, parseDate: string -> Option<Date>)
    requires TablesValid(t) && n <= |visits|
    ensures TablesValid(BatchSpec(t, visits[..n], parseDate).tables)
    ensures Grows(t, BatchSpec(t, visits[..n], parseDate).tables)
    decreases n
  {
    if n == 0 {
      assert visits[..0] == [];
      assert Grows(t, t);
    } else {
      var p := BatchSpec(t, visits[..n - 1], parseDate);
      BatchGrowsPrefix(t, visits, n - 1, parseDate);
      BatchStep(t, visits, n - 1, parseDate);
      if p.raisedAt.None? {
        var r := IngestPage(p.tables, visits[n - 1], parseDate);
        if r.Some? {
          IngestPageGrows(p.tables, visits[n - 1], parseDate);
          GrowsTransitive(t, p.tables, r.value);
        }
      }
    }
  }

  /** Where the loop over the first `n` visits raised, that visit raises again from the final tables. */
  lemma {:induction false} BatchRaisesPrefix(t: Tables, visits: seq<Option<Visit>>, n: nat, parseDate: string -> Option<Date>)
    requires n <= |visits|
    ensures var r := BatchSpec(t, visits[..n], parseDate);
      r.raisedAt.Some? ==> r.raisedAt.value < n && IngestPage(r.tables, visits[r.raisedAt.value], parseDate).None?
    decreases n
  {
    if n > 0 {
      BatchRaisesPrefix(t, visits, n - 1, parseDate);
      BatchStep(t, visits, n - 1, parseDate);
    }
  }

  /** The first `m` visits are absorbed by `t`. */
  ghost predicate AbsorbedUpTo(t: Tables, visits: seq<Option<Visit>>, m: nat, parseDate: string -> Option<Date>) {
    forall j :: 0 <= j < m && j < |visits| ==> Absorbed(t, visits[j], parseDate)
  }

  /** How far a run got: to `n` when nothing raised, otherwise to the URL that raised. */
  function Reached(r: Run, n: nat): nat {
    if r.raisedAt.None? then n else r.raisedAt.value
  }

  /** Every visit the loop over the first `n` visits got past is absorbed by its final tables. */
  lemma {:induction false} BatchAbsorbsPrefix(t: Tables, visits: seq<Option<Visit>>, n: nat, parseDate: string -> Option<Date>)
    requires TablesValid(t) && n <= |visits|
    ensures var r := BatchSpec(t, visits[..n], parseDate);
      AbsorbedUpTo(r.tables, visits, Reached(r, n), parseDate)
    decreases n
  {
    if n > 0 {
      var p := BatchSpec(t, visits[..n - 1], parseDate);
      BatchAbsorbsPrefix(t, visits, n - 1, parseDate);
      BatchStep(t, visits, n - 1, parseDate);
      if p.raisedAt.None? {
        var r := IngestPage(p.tables, visits[n - 1], parseDate);
        if r.Some? {
          BatchGrowsPrefix(t, visits, n - 1, parseDate);
          AbsorbsAfterIngest(p.tables, r.value, visits, n - 1, parseDate);
        }
      }
    }
  }

  /** Ingesting visit `i` keeps the earlier absorbed visits absorbed and absorbs visit `i` too. */
  lemma AbsorbsAfterIngest(t: Tables, u: Tables, visits: seq<Option<Visit>>, i: nat, parseDate: string -> Option<Date>)
    requires TablesValid(t) && i < |visits| && IngestPage(t, visits[i], parseDate) == Some(u)
    requires forall j :: 0 <= j < i ==> Absorbed(t, visits[j], parseDate)
    ensures forall j :: 0 <= j <= i ==> Absorbed(u, visits[j], parseDate)
  {
    IngestPageGrows(t, visits[i], parseDate);
    IngestPageAbsorbs(t, visits[i], parseDate);
    forall j | 0 <= j < i
      ensures Absorbed(u, visits[j], parseDate)
    {
      AbsorbedGrows(t, u, visits[j], parseDate);
    }
  }

  /** From tables that have absorbed the first `n` visits, those visits change nothing. */
  lemma {:induction false} RerunAbsorbed(t: Tables, visits: seq<Option<Visit>>, n: nat, parseDate: string -> Option<Date>)
    requires TablesValid(t) && n <= |visits|
    requires forall j :: 0 <= j < n ==> Absorbed(t, visits[j], parseDate)
    ensures BatchSpec(t, visits[..n], parseDate) == Run(t, None)
  {
    if n > 0 {
      RerunAbsorbed(t, visits, n - 1, parseDate);
      BatchStep(t, visits, n - 1, parseDate);
      AbsorbedIngestsNothing(t, visits[n - 1], parseDate);
    }
  }

  /** Once a visit has raised, the later URLs are never reached. */
  lemma {:induction false} RaisedStays(t: Tables, visits: seq<Option<Visit>>, n: nat, parseDate: string -> Option<Date>)
    requires n <= |visits| && BatchSpec(t, visits[..n], parseDate).raisedAt.Some?
    ensures BatchSpec(t, visits, parseDate) == BatchSpec(t, visits[..n], parseDate)
    decreases |visits|
  {
    if n < |visits| {
      var init := visits[..|visits| - 1];
      assert init[..n] == visits[..n];
      RaisedStays(t, init, n, parseDate);
    } else {
      assert visits[..n] == visits;
    }
  }

  /**
   * Running the batch a second time over the same URL list, with the same
   * pages, changes nothing and ends the same way: every stored boxer is found
   * again and every stored bout is found under its key.
   */
  lemma BatchIdempotent(t: Tables, visits: seq<Option<Visit>>, parseDate: string -> Option<Date>)
    requires TablesValid(t)
    ensures BatchSpec(BatchSpec(t, visits, parseDate).tables, visits, parseDate) == BatchSpec(t, visits, parseDate)
  {
    var r := BatchSpec(t, visits, parseDate);
    BatchAbsorbs(t, visits, parseDate);
    if r.raisedAt.None? {
      RerunAbsorbed(r.tables, visits, |visits|, parseDate);
      assert visits[..|visits|] == visits;
    } else {
      var i := r.raisedAt.value;
      RerunAbsorbed(r.tables, visits, i, parseDate);
      BatchStep(r.tables, visits, i, parseDate);
      RaisedStays(r.tables, visits, i + 1, parseDate);
    }
  }

  datatype BatchResult = MissingUrlFile | NoUrls | Finished | Raised(url: string, fault: Fault)

  /**
   * The end of the loop body, once `parse_data` has run: nothing for a page
   * without an infobox, the fault where it raised, otherwise `insert_boxer`
   * and, when there are bouts, `insert_fights`.
   */
  method StoreOutcome(repo: Repository, outcome: ParseOutcome, parseDate: string -> Option<Date>)
    returns (raised: Option<Fault>)
    requires repo.Valid()
    modifies repo
    ensures repo.Valid()
    ensures raised == (if outcome.Failed? then Some(outcome.fault) else None)
    ensures outcome.NoInfobox? || outcome.Failed? ==> repo.Snapshot() == old(repo.Snapshot())
    ensures outcome.Parsed? ==> repo.Snapshot() == StoreParsed(old(repo.Snapshot()), outcome.data, outcome.matrix, parseDate)
    ensures old(repo.durable == repo.Snapshot()) ==> repo.durable == repo.Snapshot()
  {
    match outcome {
      case NoInfobox =>
        return None;
      case Failed(fault) =>
        return Some(fault);
      case Parsed(data, matrix) =>
        repo.InsertBoxer(data);
        if matrix != [] {
          var _ := repo.InsertFights(matrix, data, parseDate);
        }
        return None;
    }
  }

  /** `parse_data(soup)` on a fetched page, as the batch sees its outcome. */
  method ParsePage(page: WikiPage, parseDate: string -> Option<Date>) returns (outcome: ParseOutcome)
    ensures FetchVisit(Some(page), parseDate) == Some(Visit(page.title, outcome))
  {
    outcome := ParseData(page, parseDate);
    assert outcome == ParsedPage(page, parseDate);
  }

  /**
   * The loop body for one URL: fetch (twice, as the source does), skip a
   * failed request, an untitled page or a title `boxer_exists` knows, then
   * parse and store. The fault is returned where `parse_data` raises.
   */
  method VisitUrl(repo: Repository, url: string, fetch: string -> Option<WikiPage>, parseDate: string -> Option<Date>)
    returns (raised: Option<Fault>)
    requires repo.Valid()
    modifies repo
    ensures repo.Valid()
    ensures var r := IngestPage(old(repo.Snapshot()), FetchVisit(fetch(url), parseDate), parseDate);
      && (raised.Some? <==> r.None?)
      && repo.Snapshot() == r.GetOr(old(repo.Snapshot()))
    ensures raised.Some? ==> fetch(url).Some? && ParsedPage(fetch(url).value, parseDate) == Failed(raised.value)
    ensures old(repo.durable == repo.Snapshot()) ==> repo.durable == repo.Snapshot()
  {
    var page := fetch(url);
    if page.None? {
      return None;
    }
    page := fetch(url);
    if page.None? || page.value.title.None? {
      return None;
    }
    var known := repo.BoxerExists(Strip(page.value.title.value));
    if known {
      return None;
    }
    var outcome := ParsePage(page.value, parseDate);
    IngestUnknown(repo.Snapshot(), FetchVisit(page, parseDate), page.value.title.value, outcome, parseDate);
    raised := StoreOutcome(repo, outcome, parseDate);
  }

  /** For a page whose title is not yet known, the loop body is decided by what `parse_data` made of it. */
  lemma IngestUnknown(t: Tables, visit: Option<Visit>, title: string, outcome: ParseOutcome, parseDate: string -> Option<Date>)
    requires visit == Some(Visit(Some(title), outcome)) && !KnownTitle(t, title)
    ensures IngestPage(t, visit, parseDate) == match outcome
      case NoInfobox => Some(t)
      case Failed(_) => None
      case Parsed(data, matrix) => Some(StoreParsed(t, data, matrix, parseDate))
  {
  }

  /** The turn of the URL loop for URL `i`, starting where the first `i` URLs left the tables. */
  method ScrapeUrl(repo: Repository, urls: seq<string>, i: nat, fetch: string -> Option<WikiPage>,
                   parseDate: string -> Option<Date>, ghost t0: Tables, ghost visits: seq<Option<Visit>>)
    returns (raised: Option<Fault>)
    requires i < |urls| == |visits| && visits[i] == FetchVisit(fetch(urls[i]), parseDate)
    requires repo.Valid() && BatchSpec(t0, visits[..i], parseDate) == Run(repo.Snapshot(), None)
    modifies repo
    ensures repo.Valid()
    ensures raised.None? ==> BatchSpec(t0, visits[..i + 1], parseDate) == Run(repo.Snapshot(), None)
    ensures raised.Some? ==> fetch(urls[i]).Some? && ParsedPage(fetch(urls[i]).value, parseDate) == Failed(raised.value)
    ensures raised.Some? ==> BatchSpec(t0, visits, parseDate) == Run(repo.Snapshot(), Some(i))
    ensures old(repo.durable == repo.Snapshot()) ==> repo.durable == repo.Snapshot()
  {
    BatchStep(t0, visits, i, parseDate);
    raised := VisitUrl(repo, urls[i], fetch, parseDate);
    if raised.Some? {
      RaisedStays(t0, visits, i + 1, parseDate);
    }
  }

  /** The URL loop: each URL in order, until one raises. */
  method ScrapeUrls(repo: Repository, urls: seq<string>, fetch: string -> Option<WikiPage>,
                    parseDate: string -> Option<Date>) returns (raisedAt: Option<nat>, fault: Option<Fault>)
    requires repo.Valid()
    modifies repo
    ensures repo.Valid()
    ensures var run := BatchSpec(old(repo.Snapshot()), VisitsOf(urls, fetch, parseDate), parseDate);
      repo.Snapshot() == run.tables && raisedAt == run.raisedAt
    ensures fault.Some? <==> raisedAt.Some?
    ensures raisedAt.Some? ==>
      && raisedAt.value < |urls| && fetch(urls[raisedAt.value]).Some?
      && ParsedPage(fetch(urls[raisedAt.value]).value, parseDate) == Failed(fault.value)
    ensures old(repo.durable == repo.Snapshot()) ==> repo.durable == repo.Snapshot()
  {
    ghost var t0 := repo.Snapshot();
    ghost var visits := VisitsOf(urls, fetch, parseDate);
    for i := 0 to |urls|
      invariant repo.Valid()
      invariant BatchSpec(t0, visits[..i], parseDate) == Run(repo.Snapshot(), None)
      invariant old(repo.durable == repo.Snapshot()) ==> repo.durable == repo.Snapshot()
    {
      var raised := ScrapeUrl(repo, urls, i, fetch, parseDate, t0, visits);
      if raised.Some? {
        return Some(i), raised;
      }
    }
    assert visits[..|urls|] == visits;
    return None, None;
  }

  /**
   * `batch_scrape()` on the lines of `urls.txt` (None when the file is
   * missing): each URL of the filtered list is visited in order, and an
   * exception from `parse_data` ends the batch at that URL.
   */
  method BatchScrape(repo: Repository, lines: Option<seq<string>>, fetch: string -> Option<WikiPage>,
                     parseDate: string -> Option<Date>) returns (result: BatchResult)
    requires repo.Valid()
    modifies repo
    ensures repo.Valid()
    ensures lines.None? ==> result == MissingUrlFile && repo.Snapshot() == old(repo.Snapshot())
    ensures lines.Some? && FilterUrls(lines.value) == [] ==> result == NoUrls && repo.Snapshot() == old(repo.Snapshot())
    ensures lines.Some? && FilterUrls(lines.value) != [] ==>
      var urls := FilterUrls(lines.value);
      var run := BatchSpec(old(repo.Snapshot()), VisitsOf(urls, fetch, parseDate), parseDate);
      && repo.Snapshot() == run.tables
      && (run.raisedAt.None? ==> result == Finished)
      && (run.raisedAt.Some? ==>
            && result.Raised? && run.raisedAt.value < |urls| && result.url == urls[run.raisedAt.value]
            && fetch(result.url).Some? && ParsedPage(fetch(result.url).value, parseDate) == Failed(result.fault))
    ensures old(repo.durable == repo.Snapshot()) ==> repo.durable == repo.Snapshot()
  {
    if lines.None? {
      return MissingUrlFile;
    }
    var urls := FilterUrls(lines.value);
    if urls == [] {
      return NoUrls;
    }
    var raisedAt, fault := ScrapeUrls(repo, urls, fetch, parseDate);
    if raisedAt.Some? {
      return Raised(urls[raisedAt.value], fault.value);
    }
    return Finished;
  }
}
