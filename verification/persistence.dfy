/**
 * `boxer_exists`, `insert_boxer` and `insert_fights` (scraper/scraper.py):
 * the database session as a repository object whose tables are updated in
 * place. Row ids are the autoincrement keys: the boxer with id `k` is
 * `boxers[k - 1]`, and likewise for fights.
 */
module Persistence {
  import opened Wrappers
  import opened Text
  import opened Schema
  import opened Page
  import opened Normalizer
  import opened Extractor

  /** The three tables at one moment. */
  datatype Tables = Tables(boxers: seq<Boxer>, metrics: seq<RankingMetrics>, fights: seq<Fight>)

  // ---------------------------------------------------------------------------
  // Queries
  // ---------------------------------------------------------------------------

  /**
   * `Boxer.query.filter_by(name=name).first()`, as an id: the first boxer with
   * that name. A missing name (`IS NULL`) matches nobody, since every stored
   * name is set.
   */
  function FindBoxer(boxers: seq<Boxer>, name: Option<string>): (id: Option<nat>)
    ensures id.Some? ==> name.Some? && 1 <= id.value <= |boxers| && boxers[id.value - 1].name == name.value
    ensures id.Some? ==> forall k :: 0 <= k < id.value - 1 ==> boxers[k].name != name.value
    ensures id.None? <==> name.None? || forall k :: 0 <= k < |boxers| ==> boxers[k].name != name.value
  {
    if name.None? || boxers == [] then None
    else if boxers[0].name == name.value then Some(1)
    else
      var rest := FindBoxer(boxers[1..], name);
      if rest.Some? then Some(rest.value + 1) else None
  }

  /** Boxer names are unique and never empty. */
  predicate NamesUnique(boxers: seq<Boxer>) {
    (forall k :: 0 <= k < |boxers| ==> boxers[k].name != []) &&
    (forall j, k :: 0 <= j < k < |boxers| ==> boxers[j].name != boxers[k].name)
  }

  /** A name held by boxer `id` and by nobody before it is found at `id`. */
  lemma FindBoxerAt(boxers: seq<Boxer>, name: Option<string>, id: nat)
    requires name.Some? && 1 <= id <= |boxers| && boxers[id - 1].name == name.value
    requires forall k :: 0 <= k < id - 1 ==> boxers[k].name != name.value
    ensures FindBoxer(boxers, name) == Some(id)
  {
    var r := FindBoxer(boxers, name);
    assert r.Some?;
    assert boxers[r.value - 1].name == name.value;
    assert r.value == id;
  }

  /** With unique names, looking up a stored boxer's name finds that boxer. */
  lemma FindStoredBoxer(boxers: seq<Boxer>, id: nat)
    requires NamesUnique(boxers) && 1 <= id <= |boxers|
    ensures FindBoxer(boxers, Some(boxers[id - 1].name)) == Some(id)
  {
    var r := FindBoxer(boxers, Some(boxers[id - 1].name));
    assert r.Some?;
  }

  /** The columns `insert_fights` uses to recognise a bout it has already stored. */
  datatype FightKey = FightKey(date: Option<Date>, boxerAId: nat, opponentName: Option<string>)

  function KeyOf(f: Fight): FightKey {
    FightKey(f.date, f.boxerAId, f.opponentName)
  }

  /** `Fight.query.filter_by(date=..., boxer_a_id=..., opponent_name=...).first() is not None`. */
  predicate HasKey(fights: seq<Fight>, key: FightKey) {
    exists k :: 0 <= k < |fights| && KeyOf(fights[k]) == key
  }

  /** No two fights share a key. */
  predicate KeysUnique(fights: seq<Fight>) {
    forall j, k :: 0 <= j < k < |fights| ==> KeyOf(fights[j]) != KeyOf(fights[k])
  }

  /** An id column that is empty or names a stored boxer. */
  predicate RefersToBoxer(id: Option<nat>, boxers: seq<Boxer>) {
    id.None? || 1 <= id.value <= |boxers|
  }

  /** The invariant every operation of the scraper keeps. */
  predicate TablesValid(t: Tables) {
    && NamesUnique(t.boxers)
    && |t.metrics| == |t.boxers|
    && (forall k :: 0 <= k < |t.metrics| ==> t.metrics[k].boxerId == k + 1)
    && (forall k :: 0 <= k < |t.fights| ==> 1 <= t.fights[k].boxerAId <= |t.boxers|)
    && (forall k :: 0 <= k < |t.fights| ==> RefersToBoxer(t.fights[k].boxerBId, t.boxers))
    && (forall k :: 0 <= k < |t.fights| ==> RefersToBoxer(t.fights[k].winnerId, t.boxers))
    && KeysUnique(t.fights)
  }

  // ---------------------------------------------------------------------------
  // insert_boxer
  // ---------------------------------------------------------------------------

  /** The `boxers` row built from the record; `active_to` takes the record's `active_until`. */
  function BoxerOf(name: string, data: Profile): Boxer {
    Boxer(name, data.photo, data.alias, data.birthDate, data.stance, data.heightCm, data.reachCm,
          data.activeFrom, data.activeUntil, data.era)
  }

  /** The `ranking_metrics` row built from the record for the boxer with id `id`. */
  function MetricsOf(id: nat, data: Profile): RankingMetrics {
    RankingMetrics(id, data.koRatio, data.winRatio, data.numOfFights, data.wins, data.winsByKo,
                   data.winsByDecision, data.winsByDq, data.losses, data.lossesByKo, data.lossesByDecision,
                   data.lossesByDq)
  }

  /** Whether `insert_boxer` writes: the record has a non-empty name nobody has yet. */
  predicate AdmitsBoxer(t: Tables, data: Profile) {
    data.name.Some? && data.name.value != [] && FindBoxer(t.boxers, data.name).None?
  }

  /** The tables after `insert_boxer(data)`. */
  function InsertBoxerSpec(t: Tables, data: Profile): Tables {
    if AdmitsBoxer(t, data) then
      Tables(t.boxers + [BoxerOf(data.name.value, data)], t.metrics + [MetricsOf(|t.boxers| + 1, data)], t.fights)
    else t
  }

  /** Inserting a boxer keeps the tables valid, and afterwards the record's name finds the new boxer. */
  lemma InsertBoxerKeepsValid(t: Tables, data: Profile)
    requires TablesValid(t)
    ensures TablesValid(InsertBoxerSpec(t, data))
    ensures AdmitsBoxer(t, data) ==> FindBoxer(InsertBoxerSpec(t, data).boxers, data.name) == Some(|t.boxers| + 1)
  {
    if AdmitsBoxer(t, data) {
      var u := InsertBoxerSpec(t, data);
      AppendKeepsNamesUnique(t.boxers, BoxerOf(data.name.value, data));
      FindStoredBoxer(u.boxers, |t.boxers| + 1);
    }
  }

  /** A boxer with a new, non-empty name keeps the names unique. */
  lemma AppendKeepsNamesUnique(boxers: seq<Boxer>, b: Boxer)
    requires NamesUnique(boxers) && b.name != []
    requires forall k :: 0 <= k < |boxers| ==> boxers[k].name != b.name
    ensures NamesUnique(boxers + [b])
  {
    var u := boxers + [b];
    forall j, k | 0 <= j < k < |u|
      ensures u[j].name != u[k].name
    {
      assert u[j] == boxers[j];
    }
  }

  /** A second `insert_boxer` of the same record changes nothing. */
  lemma InsertBoxerIdempotent(t: Tables, data: Profile)
    requires TablesValid(t)
    ensures InsertBoxerSpec(InsertBoxerSpec(t, data), data) == InsertBoxerSpec(t, data)
  {
    InsertBoxerKeepsValid(t, data);
  }

  // ---------------------------------------------------------------------------
  // insert_fights
  // ---------------------------------------------------------------------------

  /** `fight_data.get(key)`. */
  function Cell(row: BoutRow, key: string): Option<string> {
    if key in row then Some(row[key]) else None
  }

  /** A cell's value when it is present and not empty (Python's `x or ...` on a string). */
  function NonEmpty(cell: Option<string>): (r: Option<string>)
    ensures r.Some? ==> r == cell && r.value != []
    ensures r.None? <==> cell.None? || cell.value == []
  {
    if cell.Some? && cell.value != [] then cell else None
  }

  /**
   * The `fights` row for one bout of the owner's table: the winner is the owner
   * exactly when the Result cell is "Win", and otherwise the opponent; both
   * ids are looked up by name; a title fight is one whose Notes cell holds
   * anything but whitespace.
   */
  function FightOf(row: BoutRow, ownerId: nat, ownerName: string, boxers: seq<Boxer>,
                   parseDate: string -> Option<Date>): Fight
  {
    var opponent := Cell(row, "Opponent");
    var winner := if Cell(row, "Result") == Some("Win") then Some(ownerName) else opponent;
    Fight(
      if "Date" in row then parseDate(row["Date"]) else None,
      NonEmpty(Cell(row, "Round, time")).Or(NonEmpty(Cell(row, "Round"))),
      Cell(row, "Location"),
      Strip(Cell(row, "Notes").GetOr("")) != [],
      ownerId,
      FindBoxer(boxers, opponent),
      FindBoxer(boxers, winner),
      opponent,
      winner,
      NormaliseMethod(Cell(row, "Type")))
  }

  /** The columns of a bout's `fights` row, as the source promises them. */
  lemma FightOfColumns(row: BoutRow, ownerId: nat, ownerName: string, boxers: seq<Boxer>,
                       parseDate: string -> Option<Date>)
    ensures var f := FightOf(row, ownerId, ownerName, boxers, parseDate);
      && f.boxerAId == ownerId && f.opponentName == Cell(row, "Opponent")
      && (Cell(row, "Result") == Some("Win") ==> f.winnerName == Some(ownerName))
      && (Cell(row, "Result") != Some("Win") ==> f.winnerName == f.opponentName)
      && f.boxerBId == FindBoxer(boxers, f.opponentName) && f.winnerId == FindBoxer(boxers, f.winnerName)
      && (f.titleFight <==> !Blank(Cell(row, "Notes").GetOr("")))
      && (f.roundsCompleted.Some? ==> f.roundsCompleted.value != [])
      && (NonEmpty(Cell(row, "Round, time")).Some? ==> f.roundsCompleted == Cell(row, "Round, time"))
      && (NonEmpty(Cell(row, "Round, time")).None? ==> f.roundsCompleted == NonEmpty(Cell(row, "Round")))
      && f.winMethod == NormaliseMethod(Cell(row, "Type"))
      && (Cell(row, "Type").None? ==> f.winMethod.None?)
      && (f.winMethod.Some? <==> MethodCode(Cell(row, "Type")) in MethodMapping)
      && (f.winMethod.Some? ==> f.winMethod.value == MethodMapping[MethodCode(Cell(row, "Type"))])
      && f.date == (if "Date" in row then parseDate(row["Date"]) else None)
      && f.location == Cell(row, "Location")
  {
    StripEmptyIffBlank(Cell(row, "Notes").GetOr(""));
    var f := FightOf(row, ownerId, ownerName, boxers, parseDate);
    var rt, rd := NonEmpty(Cell(row, "Round, time")), NonEmpty(Cell(row, "Round"));
    assert f.roundsCompleted == rt.Or(rd);
  }

  /** `s.strip()` is empty exactly when `s` is all whitespace. */
  lemma StripEmptyIffBlank(s: string)
    ensures Strip(s) == [] <==> Blank(s)
  {
    var l := LStrip(s);
    LStripIsSuffix(s);
    if l != [] {
      assert !IsSpace(l[0]) && l[0] == s[|s| - |l|];
    }
  }

  /** The rows of the bout matrix, each as the owner's `fights` row. */
  function FightsOf(matrix: seq<BoutRow>, ownerId: nat, ownerName: string, boxers: seq<Boxer>,
                    parseDate: string -> Option<Date>): (fs: seq<Fight>)
    ensures |fs| == |matrix|
  {
    if matrix == [] then []
    else FightsOf(matrix[..|matrix| - 1], ownerId, ownerName, boxers, parseDate)
         + [FightOf(matrix[|matrix| - 1], ownerId, ownerName, boxers, parseDate)]
  }

  /** The fight at position `k` is the one built from row `k`. */
  lemma {:induction false} FightsOfAt(matrix: seq<BoutRow>, ownerId: nat, ownerName: string, boxers: seq<Boxer>,
                                      parseDate: string -> Option<Date>, k: nat)
    requires k < |matrix|
    ensures FightsOf(matrix, ownerId, ownerName, boxers, parseDate)[k] == FightOf(matrix[k], ownerId, ownerName, boxers, parseDate)
    decreases |matrix|
  {
    var n := |matrix| - 1;
    if k < n {
      FightsOfAt(matrix[..n], ownerId, ownerName, boxers, parseDate, k);
      assert matrix[..n][k] == matrix[k];
    }
  }

  /** A fights row whose three id columns refer to stored boxers. */
  predicate FightRefersToBoxers(f: Fight, boxers: seq<Boxer>) {
    1 <= f.boxerAId <= |boxers| && RefersToBoxer(f.boxerBId, boxers) && RefersToBoxer(f.winnerId, boxers)
  }

  /** The owner's rows refer to stored boxers only. */
  lemma FightsOfReferToBoxers(matrix: seq<BoutRow>, ownerId: nat, ownerName: string, boxers: seq<Boxer>,
                              parseDate: string -> Option<Date>)
    requires 1 <= ownerId <= |boxers|
    ensures forall f :: f in FightsOf(matrix, ownerId, ownerName, boxers, parseDate) ==> FightRefersToBoxers(f, boxers)
  {
    var cs := FightsOf(matrix, ownerId, ownerName, boxers, parseDate);
    forall f | f in cs
      ensures FightRefersToBoxers(f, boxers)
    {
      var k :| 0 <= k < |cs| && cs[k] == f;
      FightsOfAt(matrix, ownerId, ownerName, boxers, parseDate, k);
      FightOfColumns(matrix[k], ownerId, ownerName, boxers, parseDate);
    }
  }

  /**
   * The fights table after the candidates are offered in order: each is added
   * unless a fight with its key is already there, including one added earlier
   * in the same pass (the session flushes before every query).
   */
  function AddNew(existing: seq<Fight>, candidates: seq<Fight>): seq<Fight> {
    if candidates == [] then existing
    else
      var before := AddNew(existing, candidates[..|candidates| - 1]);
      var c := candidates[|candidates| - 1];
      if HasKey(before, KeyOf(c)) then before else before + [c]
  }

  /** Adding never touches the fights already stored, and only adds candidates. */
  lemma {:induction false} AddNewExtends(existing: seq<Fight>, candidates: seq<Fight>)
    ensures |AddNew(existing, candidates)| >= |existing|
    ensures AddNew(existing, candidates)[..|existing|] == existing
    ensures forall k :: |existing| <= k < |AddNew(existing, candidates)| ==> AddNew(existing, candidates)[k] in candidates
  {
    if candidates != [] {
      var init := candidates[..|candidates| - 1];
      AddNewExtends(existing, init);
      var before := AddNew(existing, init);
      assert forall c :: c in init ==> c in candidates;
      if !HasKey(before, KeyOf(candidates[|candidates| - 1])) {
        assert (before + [candidates[|candidates| - 1]])[..|existing|] == before[..|existing|];
      }
    }
  }

  /** Afterwards every candidate's key is present. */
  lemma {:induction false} AddNewCoversCandidates(existing: seq<Fight>, candidates: seq<Fight>)
    ensures forall k :: 0 <= k < |candidates| ==> HasKey(AddNew(existing, candidates), KeyOf(candidates[k]))
  {
    if candidates != [] {
      var n := |candidates| - 1;
      var init := candidates[..n];
      AddNewCoversCandidates(existing, init);
      var before := AddNew(existing, init);
      var after := AddNew(existing, candidates);
      assert forall k :: 0 <= k < |before| ==> after[k] == before[k];
      forall k | 0 <= k < |candidates|
        ensures HasKey(after, KeyOf(candidates[k]))
      {
        if k < n {
          assert candidates[k] == init[k];
          var j :| 0 <= j < |before| && KeyOf(before[j]) == KeyOf(init[k]);
          assert after[j] == before[j];
        } else if !HasKey(before, KeyOf(candidates[n])) {
          assert after[|before|] == candidates[n];
        }
      }
    }
  }

  /** Adding keeps keys unique: a bout is never stored twice. */
  lemma {:induction false} AddNewKeepsKeysUnique(existing: seq<Fight>, candidates: seq<Fight>)
    requires KeysUnique(existing)
    ensures KeysUnique(AddNew(existing, candidates))
  {
    if candidates != [] {
      AddNewKeepsKeysUnique(existing, candidates[..|candidates| - 1]);
    }
  }

  /** Candidates whose keys are all present already add nothing. */
  lemma {:induction false} AddNewOfPresentKeys(existing: seq<Fight>, candidates: seq<Fight>)
    requires forall k :: 0 <= k < |candidates| ==> HasKey(existing, KeyOf(candidates[k]))
    ensures AddNew(existing, candidates) == existing
  {
    if candidates != [] {
      AddNewOfPresentKeys(existing, candidates[..|candidates| - 1]);
    }
  }

  /** What `insert_fights` ends in: a KeyError for a record without a name, an unknown owner, or the fights stored. */
  datatype FightsOutcome = MissingName | NoOwner | Inserted

  function InsertFightsOutcome(t: Tables, data: Profile): FightsOutcome {
    if data.name.None? then MissingName
    else if FindBoxer(t.boxers, data.name).None? then NoOwner
    else Inserted
  }

  /** The tables after `insert_fights(matrix, data)`. */
  function InsertFightsSpec(t: Tables, matrix: seq<BoutRow>, data: Profile, parseDate: string -> Option<Date>): Tables {
    if InsertFightsOutcome(t, data) != Inserted then t
    else
      var ownerId := FindBoxer(t.boxers, data.name).value;
      t.(fights := AddNew(t.fights, FightsOf(matrix, ownerId, t.boxers[ownerId - 1].name, t.boxers, parseDate)))
  }

  /** Offering fights that refer to stored boxers keeps the tables valid. */
  lemma AddNewKeepsValid(t: Tables, cs: seq<Fight>)
    requires TablesValid(t)
    requires forall f :: f in cs ==> FightRefersToBoxers(f, t.boxers)
    ensures TablesValid(t.(fights := AddNew(t.fights, cs)))
  {
    var fs := AddNew(t.fights, cs);
    AddNewExtends(t.fights, cs);
    AddNewKeepsKeysUnique(t.fights, cs);
    forall k | 0 <= k < |fs|
      ensures FightRefersToBoxers(fs[k], t.boxers)
    {
      if k < |t.fights| {
        assert fs[k] == t.fights[k];
      } else {
        assert fs[k] in cs;
      }
    }
  }

  /** Inserting fights keeps the tables valid. */
  lemma InsertFightsKeepsValid(t: Tables, matrix: seq<BoutRow>, data: Profile, parseDate: string -> Option<Date>)
    requires TablesValid(t)
    ensures TablesValid(InsertFightsSpec(t, matrix, data, parseDate))
  {
    if InsertFightsOutcome(t, data) == Inserted {
      var ownerId := FindBoxer(t.boxers, data.name).value;
      var ownerName := t.boxers[ownerId - 1].name;
      FightsOfReferToBoxers(matrix, ownerId, ownerName, t.boxers, parseDate);
      AddNewKeepsValid(t, FightsOf(matrix, ownerId, ownerName, t.boxers, parseDate));
    }
  }

  /** The key `insert_fights` gives a bout row of the owner's table. */
  function RowKey(row: BoutRow, ownerId: nat, parseDate: string -> Option<Date>): FightKey {
    FightKey(if "Date" in row then parseDate(row["Date"]) else None, ownerId, Cell(row, "Opponent"))
  }

  /** After `insert_fights`, every bout of the matrix is stored under its key, newly or from before. */
  lemma InsertFightsStoresEveryBout(t: Tables, matrix: seq<BoutRow>, data: Profile, parseDate: string -> Option<Date>)
    requires InsertFightsOutcome(t, data) == Inserted
    ensures var ownerId := FindBoxer(t.boxers, data.name).value;
            forall k :: 0 <= k < |matrix| ==> HasKey(InsertFightsSpec(t, matrix, data, parseDate).fights, RowKey(matrix[k], ownerId, parseDate))
  {
    var ownerId := FindBoxer(t.boxers, data.name).value;
    var cs := FightsOf(matrix, ownerId, t.boxers[ownerId - 1].name, t.boxers, parseDate);
    var u := InsertFightsSpec(t, matrix, data, parseDate);
    assert u.fights == AddNew(t.fights, cs);
    AddNewCoversCandidates(t.fights, cs);
    forall k | 0 <= k < |matrix|
      ensures KeyOf(cs[k]) == RowKey(matrix[k], ownerId, parseDate)
    {
      FightsOfAt(matrix, ownerId, t.boxers[ownerId - 1].name, t.boxers, parseDate, k);
    }
  }

  /** A second `insert_fights` of the same matrix stores nothing more. */
  lemma InsertFightsIdempotent(t: Tables, matrix: seq<BoutRow>, data: Profile, parseDate: string -> Option<Date>)
    requires TablesValid(t)
    ensures var u := InsertFightsSpec(t, matrix, data, parseDate);
            InsertFightsSpec(u, matrix, data, parseDate) == u
  {
    if InsertFightsOutcome(t, data) == Inserted {
      var ownerId := FindBoxer(t.boxers, data.name).value;
      var cs := FightsOf(matrix, ownerId, t.boxers[ownerId - 1].name, t.boxers, parseDate);
      AddNewCoversCandidates(t.fights, cs);
      AddNewOfPresentKeys(AddNew(t.fights, cs), cs);
    }
  }

  /** A bout the owner won names the owner as winner, by id as well as by name. */
  lemma WonBoutRecordsOwner(t: Tables, row: BoutRow, ownerId: nat, parseDate: string -> Option<Date>)
    requires TablesValid(t) && 1 <= ownerId <= |t.boxers| && Cell(row, "Result") == Some("Win")
    ensures FightOf(row, ownerId, t.boxers[ownerId - 1].name, t.boxers, parseDate).winnerId == Some(ownerId)
  {
    FightOfColumns(row, ownerId, t.boxers[ownerId - 1].name, t.boxers, parseDate);
    FindStoredBoxer(t.boxers, ownerId);
  }

  // ---------------------------------------------------------------------------
  // The session
  // ---------------------------------------------------------------------------

  /** The database session: the tables as the session sees them, and as last committed. */
  class Repository {
    var boxers: seq<Boxer>
    var metrics: seq<RankingMetrics>
    var fights: seq<Fight>
    var durable: Tables
    var commitCount: nat

    /** An empty database. */
    constructor ()
      ensures boxers == [] && metrics == [] && fights == []
      ensures durable == Tables([], [], []) && commitCount == 0
      ensures Valid()
    {
      boxers, metrics, fights := [], [], [];
      durable := Tables([], [], []);
      commitCount := 0;
    }

    function Snapshot(): Tables
      reads this
    {
      Tables(boxers, metrics, fights)
    }

    ghost predicate Valid()
      reads this
    {
      TablesValid(Snapshot()) && TablesValid(durable)
    }

    /** `db.session.commit()`: what the session holds becomes durable. */
    method Commit()
      requires Valid()
      modifies this
      ensures Valid()
      ensures boxers == old(boxers) && metrics == old(metrics) && fights == old(fights)
      ensures durable == Snapshot() && commitCount == old(commitCount) + 1
    {
      durable := Snapshot();
      commitCount := commitCount + 1;
    }

    /** `boxer_exists(name)`. */
    method BoxerExists(name: string) returns (b: bool)
      ensures b <==> exists k :: 0 <= k < |boxers| && boxers[k].name == name
    {
      b := FindBoxer(boxers, Some(name)).Some?;
    }

    /**
     * `insert_boxer(data)`: a record without a name, or whose name is taken,
     * is skipped; otherwise the boxer and its ranking metrics are added under
     * the next id and committed.
     */
    method InsertBoxer(data: Profile)
      requires Valid()
      modifies this
      ensures Valid()
      ensures Snapshot() == InsertBoxerSpec(old(Snapshot()), data)
      ensures AdmitsBoxer(old(Snapshot()), data) ==> durable == Snapshot() && commitCount == old(commitCount) + 1
      ensures !AdmitsBoxer(old(Snapshot()), data) ==> durable == old(durable) && commitCount == old(commitCount)
    {
      InsertBoxerKeepsValid(Snapshot(), data);
      if data.name.None? || data.name.value == [] {
        return;
      }
      var existing := FindBoxer(boxers, data.name);
      if existing.Some? {
        return;
      }
      var id := |boxers| + 1;
      boxers := boxers + [BoxerOf(data.name.value, data)];
      metrics := metrics + [MetricsOf(id, data)];
      Commit();
    }

    /** The loop of `insert_fights`: each bout of the matrix is appended unless its key is already stored. */
    method AddFights(matrix: seq<BoutRow>, ownerId: nat, ownerName: string, parseDate: string -> Option<Date>)
      modifies this
      ensures fights == AddNew(old(fights), FightsOf(matrix, ownerId, ownerName, boxers, parseDate))
      ensures boxers == old(boxers) && metrics == old(metrics)
      ensures durable == old(durable) && commitCount == old(commitCount)
    {
      ghost var cs := FightsOf(matrix, ownerId, ownerName, boxers, parseDate);
      ghost var fights0 := fights;
      for i := 0 to |matrix|
        invariant boxers == old(boxers) && metrics == old(metrics) && durable == old(durable)
        invariant commitCount == old(commitCount)
        invariant fights == AddNew(fights0, cs[..i])
      {
        assert cs[..i + 1][..i] == cs[..i] && cs[..i + 1][i] == cs[i];
        var fight := FightOf(matrix[i], ownerId, ownerName, boxers, parseDate);
        FightsOfAt(matrix, ownerId, ownerName, boxers, parseDate, i);
        if !HasKey(fights, KeyOf(fight)) {
          fights := fights + [fight];
        }
      }
      assert cs[..|matrix|] == cs;
    }

    /**
     * `insert_fights(fight_matrix, data)`: each bout row becomes a fight of the
     * owner unless a fight with the same date, owner and opponent is already
     * stored; everything is committed once at the end.
     */
    method InsertFights(matrix: seq<BoutRow>, data: Profile, parseDate: string -> Option<Date>)
      returns (outcome: FightsOutcome)
      requires Valid()
      modifies this
      ensures Valid()
      ensures outcome == InsertFightsOutcome(old(Snapshot()), data)
      ensures Snapshot() == InsertFightsSpec(old(Snapshot()), matrix, data, parseDate)
      ensures outcome == Inserted ==> durable == Snapshot() && commitCount == old(commitCount) + 1
      ensures outcome != Inserted ==> durable == old(durable) && commitCount == old(commitCount)
    {
      if data.name.None? {
        return MissingName;
      }
      var owner := FindBoxer(boxers, data.name);
      if owner.None? {
        return NoOwner;
      }
      var ownerId := owner.value;
      AddFights(matrix, ownerId, boxers[ownerId - 1].name, parseDate);
      InsertFightsKeepsValid(old(Snapshot()), matrix, data, parseDate);
      Commit();
      return Inserted;
    }
  }
}
