/**
 * `resolve_fights` (scraper/db_info_resolver.py): the second pass over the
 * fights table that fills the opponent and winner ids left empty when those
 * boxers were not yet stored, logging every name it still cannot find and
 * committing every 500 fights.
 */
module Resolver {
  import opened Wrappers
  import opened Schema
  import opened Persistence

  /** Python's `not fight.boxer_b_id`: no id, or the falsy id 0. */
  predicate Unset(id: Option<nat>) {
    id.None? || id.value == 0
  }

  /** Python's truthiness of `fight.opponent_name`: present and not empty. */
  predicate Named(name: Option<string>) {
    name.Some? && name.value != []
  }

  /** Whether the pass looks the name up: it is given and the id column is still empty. */
  predicate Pending(name: Option<string>, id: Option<nat>) {
    Named(name) && Unset(id)
  }

  /** One id column after the pass: filled from the name when it was pending and the name is stored. */
  function ResolveId(name: Option<string>, id: Option<nat>, boxers: seq<Boxer>): (r: Option<nat>)
    ensures !Pending(name, id) ==> r == id
    ensures Pending(name, id) && FindBoxer(boxers, name).Some? ==> r == FindBoxer(boxers, name)
    ensures Pending(name, id) && FindBoxer(boxers, name).None? ==> r == id
  {
    if Pending(name, id) && FindBoxer(boxers, name).Some? then FindBoxer(boxers, name) else id
  }

  /** What one unresolved name adds to its log file: the name and a newline. */
  function LogEntry(name: Option<string>, id: Option<nat>, boxers: seq<Boxer>): string {
    if Pending(name, id) && FindBoxer(boxers, name).None? then name.value + "\n" else ""
  }

  /** The fight after the pass: only `boxer_b_id` and `winner_id` may change. */
  function ResolveFight(f: Fight, boxers: seq<Boxer>): (g: Fight)
    ensures g.(boxerBId := f.boxerBId, winnerId := f.winnerId) == f
    ensures Pending(f.opponentName, f.boxerBId) && FindBoxer(boxers, f.opponentName).Some? ==> g.boxerBId == FindBoxer(boxers, f.opponentName)
    ensures Pending(f.winnerName, f.winnerId) && FindBoxer(boxers, f.winnerName).Some? ==> g.winnerId == FindBoxer(boxers, f.winnerName)
  {
    f.(boxerBId := ResolveId(f.opponentName, f.boxerBId, boxers),
       winnerId := ResolveId(f.winnerName, f.winnerId, boxers))
  }

  /** The fights table once the first `n` fights have been visited. */
  function ResolvedPrefix(fights: seq<Fight>, boxers: seq<Boxer>, n: nat): (r: seq<Fight>)
    ensures |r| == |fights|
    ensures forall k {:trigger r[k]} :: 0 <= k < |fights| ==> r[k] == if k < n then ResolveFight(fights[k], boxers) else fights[k]
    decreases n
  {
    if n == 0 then fights
    else if n > |fights| then ResolvedPrefix(fights, boxers, |fights|)
    else ResolvedPrefix(fights, boxers, n - 1)[n - 1 := ResolveFight(fights[n - 1], boxers)]
  }

  /** The contents of the unresolved-opponents log after visiting `fights`. */
  function OpponentLog(fights: seq<Fight>, boxers: seq<Boxer>): string {
    if fights == [] then ""
    else
      var f := fights[|fights| - 1];
      OpponentLog(fights[..|fights| - 1], boxers) + LogEntry(f.opponentName, f.boxerBId, boxers)
  }

  /** The contents of the unresolved-winners log after visiting `fights`. */
  function WinnerLog(fights: seq<Fight>, boxers: seq<Boxer>): string {
    if fights == [] then ""
    else
      var f := fights[|fights| - 1];
      WinnerLog(fights[..|fights| - 1], boxers) + LogEntry(f.winnerName, f.winnerId, boxers)
  }

  // ---------------------------------------------------------------------------
  // What one fight's resolution promises
  // ---------------------------------------------------------------------------

  /**
   * Resolution never overwrites an id that is set, and an id it fills names
   * the boxer with that name; the columns that identify the bout stay as they were.
   */
  lemma ResolveFightSound(f: Fight, boxers: seq<Boxer>)
    ensures var g := ResolveFight(f, boxers);
      && KeyOf(g) == KeyOf(f)
      && (!Unset(f.boxerBId) ==> g.boxerBId == f.boxerBId)
      && (!Unset(f.winnerId) ==> g.winnerId == f.winnerId)
      && (g.boxerBId != f.boxerBId ==> 1 <= g.boxerBId.value <= |boxers| && boxers[g.boxerBId.value - 1].name == f.opponentName.value)
      && (g.winnerId != f.winnerId ==> 1 <= g.winnerId.value <= |boxers| && boxers[g.winnerId.value - 1].name == f.winnerName.value)
  {
  }

  /**
   * After the pass, a named opponent's id is still empty exactly when no
   * stored boxer has that name (and likewise for the winner).
   */
  lemma ResolveFightComplete(f: Fight, boxers: seq<Boxer>)
    ensures var g := ResolveFight(f, boxers);
      && (Pending(f.opponentName, f.boxerBId) ==>
            (Unset(g.boxerBId) <==> forall k :: 0 <= k < |boxers| ==> boxers[k].name != f.opponentName.value))
      && (Pending(f.winnerName, f.winnerId) ==>
            (Unset(g.winnerId) <==> forall k :: 0 <= k < |boxers| ==> boxers[k].name != f.winnerName.value))
  {
    var g := ResolveFight(f, boxers);
    if Pending(f.opponentName, f.boxerBId) && FindBoxer(boxers, f.opponentName).Some? {
      assert g.boxerBId.value >= 1;
    }
    if Pending(f.winnerName, f.winnerId) && FindBoxer(boxers, f.winnerName).Some? {
      assert g.winnerId.value >= 1;
    }
  }

  /** Resolving a resolved fight changes nothing. */
  lemma ResolveFightIdempotent(f: Fight, boxers: seq<Boxer>)
    ensures ResolveFight(ResolveFight(f, boxers), boxers) == ResolveFight(f, boxers)
  {
  }

  /** A resolved fight adds the same log entries as it did before it was resolved. */
  lemma ResolveFightLogsAgain(f: Fight, boxers: seq<Boxer>)
    ensures var g := ResolveFight(f, boxers);
      LogEntry(g.opponentName, g.boxerBId, boxers) == LogEntry(f.opponentName, f.boxerBId, boxers)
      && LogEntry(g.winnerName, g.winnerId, boxers) == LogEntry(f.winnerName, f.winnerId, boxers)
  {
  }

  // ---------------------------------------------------------------------------
  // The whole table
  // ---------------------------------------------------------------------------

  /** The pass keeps the tables valid: filled ids refer to stored boxers and no key changes. */
  lemma ResolveKeepsValid(t: Tables, n: nat)
    requires TablesValid(t)
    ensures TablesValid(t.(fights := ResolvedPrefix(t.fights, t.boxers, n)))
  {
    var fs := ResolvedPrefix(t.fights, t.boxers, n);
    forall k | 0 <= k < |fs|
      ensures KeyOf(fs[k]) == KeyOf(t.fights[k])
      ensures 1 <= fs[k].boxerAId <= |t.boxers|
      ensures RefersToBoxer(fs[k].boxerBId, t.boxers) && RefersToBoxer(fs[k].winnerId, t.boxers)
    {
      ResolveFightSound(t.fights[k], t.boxers);
    }
  }

  /** A second pass over a resolved table changes no fight. */
  lemma ResolveAllIdempotent(fights: seq<Fight>, boxers: seq<Boxer>)
    ensures var once := ResolvedPrefix(fights, boxers, |fights|);
            ResolvedPrefix(once, boxers, |once|) == once
  {
    var once := ResolvedPrefix(fights, boxers, |fights|);
    forall k | 0 <= k < |once|
      ensures ResolvedPrefix(once, boxers, |once|)[k] == once[k]
    {
      ResolveFightIdempotent(fights[k], boxers);
    }
  }

  /** A second pass writes the same logs as the first: what could not be found still cannot. */
  lemma {:induction false} SecondPassLogsTheSame(fights: seq<Fight>, boxers: seq<Boxer>)
    ensures var once := ResolvedPrefix(fights, boxers, |fights|);
            OpponentLog(once, boxers) == OpponentLog(fights, boxers)
            && WinnerLog(once, boxers) == WinnerLog(fights, boxers)
  {
    if fights != [] {
      var n := |fights| - 1;
      var once := ResolvedPrefix(fights, boxers, |fights|);
      SecondPassLogsTheSame(fights[..n], boxers);
      ResolvedAllOfPrefix(fights, boxers, n);
      ResolveFightLogsAgain(fights[n], boxers);
    }
  }

  /** The first `n` fights of the resolved table are the resolved first `n` fights. */
  lemma ResolvedAllOfPrefix(fights: seq<Fight>, boxers: seq<Boxer>, n: nat)
    requires n <= |fights|
    ensures ResolvedPrefix(fights, boxers, |fights|)[..n] == ResolvedPrefix(fights[..n], boxers, n)
  {
    var once := ResolvedPrefix(fights, boxers, |fights|);
    var part := ResolvedPrefix(fights[..n], boxers, n);
    assert forall k :: 0 <= k < n ==> once[..n][k] == part[k];
  }

  /** Visiting one more fight resolves it in place. */
  lemma PrefixStep(fights: seq<Fight>, boxers: seq<Boxer>, i: nat)
    requires i < |fights|
    ensures ResolvedPrefix(fights, boxers, i)[i := ResolveFight(fights[i], boxers)] == ResolvedPrefix(fights, boxers, i + 1)
  {
  }

  /** Visiting one more fight appends its entries to the logs. */
  lemma LogsStep(fights: seq<Fight>, boxers: seq<Boxer>, i: nat)
    requires i < |fights|
    ensures OpponentLog(fights[..i + 1], boxers) == OpponentLog(fights[..i], boxers) + LogEntry(fights[i].opponentName, fights[i].boxerBId, boxers)
    ensures WinnerLog(fights[..i + 1], boxers) == WinnerLog(fights[..i], boxers) + LogEntry(fights[i].winnerName, fights[i].winnerId, boxers)
  {
    assert fights[..i + 1][..i] == fights[..i];
  }

  /** Commits fall exactly every 500 fights: the next one after `last` is at `last + 500`. */
  lemma CommitsAreSpaced(last: nat, i: nat)
    requires last <= i < last + 500 && last % 500 == 0
    ensures (i + 1) % 500 != 0 ==> i + 1 < last + 500
    ensures (i + 1) % 500 == 0 ==> i + 1 == last + 500 && (i + 1) / 500 == last / 500 + 1
  {
  }

  /** With fewer than 500 fights since the last commit, the commits so far number `n / 500`. */
  lemma CommitsSoFar(last: nat, n: nat)
    requires last <= n < last + 500 && last % 500 == 0
    ensures last / 500 == n / 500
  {
  }

  /** The body of the loop for one fight: its resolved form and what it adds to each log. */
  method ResolveOne(fight0: Fight, boxers: seq<Boxer>) returns (fight: Fight, opponentEntry: string, winnerEntry: string)
    ensures fight == ResolveFight(fight0, boxers)
    ensures opponentEntry == LogEntry(fight0.opponentName, fight0.boxerBId, boxers)
    ensures winnerEntry == LogEntry(fight0.winnerName, fight0.winnerId, boxers)
  {
    fight, opponentEntry, winnerEntry := fight0, "", "";
    if Pending(fight.opponentName, fight.boxerBId) {
      var opponent := FindBoxer(boxers, fight.opponentName);
      if opponent.Some? {
        fight := fight.(boxerBId := opponent);
      } else {
        opponentEntry := fight.opponentName.value + "\n";
      }
    }
    if Pending(fight.winnerName, fight.winnerId) {
      var winner := FindBoxer(boxers, fight.winnerName);
      if winner.Some? {
        fight := fight.(winnerId := winner);
      } else {
        winnerEntry := fight.winnerName.value + "\n";
      }
    }
  }

  /** One turn of the loop on the session: fight `i` is replaced by its resolved form. */
  method ResolveAt(repo: Repository, i: nat, ghost fights0: seq<Fight>) returns (opponentEntry: string, winnerEntry: string)
    requires i < |fights0| && repo.fights == ResolvedPrefix(fights0, repo.boxers, i)
    modifies repo
    ensures repo.fights == ResolvedPrefix(fights0, repo.boxers, i + 1)
    ensures repo.boxers == old(repo.boxers) && repo.metrics == old(repo.metrics)
    ensures repo.durable == old(repo.durable) && repo.commitCount == old(repo.commitCount)
    ensures opponentEntry == LogEntry(fights0[i].opponentName, fights0[i].boxerBId, repo.boxers)
    ensures winnerEntry == LogEntry(fights0[i].winnerName, fights0[i].winnerId, repo.boxers)
  {
    var fight;
    fight, opponentEntry, winnerEntry := ResolveOne(repo.fights[i], repo.boxers);
    PrefixStep(fights0, repo.boxers, i);
    repo.fights := repo.fights[i := fight];
  }

  /** What the last commit holds: the first `lastCommit` fights resolved, or the tables from before the pass. */
  function DurableAfter(start: Tables, durable0: Tables, lastCommit: nat): Tables {
    if lastCommit == 0 then durable0 else start.(fights := ResolvedPrefix(start.fights, start.boxers, lastCommit))
  }

  /** One turn of the loop: fight `i` is resolved, and the session is committed after every 500th fight. */
  method ResolveStep(repo: Repository, ghost start: Tables, ghost durable0: Tables, ghost commits0: nat, i: nat, ghost lastCommit: nat)
    returns (opponentEntry: string, winnerEntry: string, ghost nextCommit: nat)
    requires TablesValid(start) && TablesValid(durable0) && i < |start.fights|
    requires repo.Snapshot() == start.(fights := ResolvedPrefix(start.fights, start.boxers, i))
    requires repo.durable == DurableAfter(start, durable0, lastCommit) && repo.commitCount == commits0 + lastCommit / 500
    requires lastCommit <= i < lastCommit + 500 && lastCommit % 500 == 0
    modifies repo
    ensures repo.Snapshot() == start.(fights := ResolvedPrefix(start.fights, start.boxers, i + 1))
    ensures repo.durable == DurableAfter(start, durable0, nextCommit) && repo.commitCount == commits0 + nextCommit / 500
    ensures nextCommit <= i + 1 < nextCommit + 500 && nextCommit % 500 == 0
    ensures opponentEntry == LogEntry(start.fights[i].opponentName, start.fights[i].boxerBId, start.boxers)
    ensures winnerEntry == LogEntry(start.fights[i].winnerName, start.fights[i].winnerId, start.boxers)
  {
    opponentEntry, winnerEntry := ResolveAt(repo, i, start.fights);
    CommitsAreSpaced(lastCommit, i);
    nextCommit := lastCommit;
    if (i + 1) % 500 == 0 {
      ResolveKeepsValid(start, i + 1);
      if lastCommit > 0 {
        ResolveKeepsValid(start, lastCommit);
      }
      repo.Commit();
      nextCommit := i + 1;
    }
  }

  /** The commit after the loop: everything the pass resolved becomes durable. */
  method FinishPass(repo: Repository, ghost start: Tables, ghost durable0: Tables, ghost commits0: nat, n: nat, ghost lastCommit: nat)
    requires TablesValid(start) && TablesValid(durable0) && n == |start.fights|
    requires repo.Snapshot() == start.(fights := ResolvedPrefix(start.fights, start.boxers, n))
    requires repo.durable == DurableAfter(start, durable0, lastCommit) && repo.commitCount == commits0 + lastCommit / 500
    requires lastCommit <= n < lastCommit + 500 && lastCommit % 500 == 0
    modifies repo
    ensures repo.Valid()
    ensures repo.Snapshot() == old(repo.Snapshot()) && repo.durable == repo.Snapshot()
    ensures repo.commitCount == commits0 + n / 500 + 1
  {
    CommitsSoFar(lastCommit, n);
    ResolveKeepsValid(start, n);
    if lastCommit > 0 {
      ResolveKeepsValid(start, lastCommit);
    }
    repo.Commit();
  }

  /**
   * `resolve_fights()`: every fight, in id order, has its pending opponent and
   * winner ids filled from the stored boxers' names; each name that cannot be
   * found goes to its log. The session is committed after every 500th fight
   * and once at the end.
   */
  method ResolveFights(repo: Repository) returns (opponentLog: string, winnerLog: string)
    requires repo.Valid()
    modifies repo
    ensures repo.Valid()
    ensures repo.boxers == old(repo.boxers) && repo.metrics == old(repo.metrics)
    ensures repo.fights == ResolvedPrefix(old(repo.fights), repo.boxers, |old(repo.fights)|)
    ensures opponentLog == OpponentLog(old(repo.fights), repo.boxers)
    ensures winnerLog == WinnerLog(old(repo.fights), repo.boxers)
    ensures repo.durable == repo.Snapshot()
    ensures repo.commitCount == old(repo.commitCount) + |old(repo.fights)| / 500 + 1
  {
    opponentLog, winnerLog := "", "";
    ghost var start, durable0, commits0 := repo.Snapshot(), repo.durable, repo.commitCount;
    ghost var lastCommit: nat := 0;
    var n := |repo.fights|;
    assert repo.fights == ResolvedPrefix(start.fights, start.boxers, 0);
    for i := 0 to n
      invariant repo.Snapshot() == start.(fights := ResolvedPrefix(start.fights, start.boxers, i))
      invariant repo.durable == DurableAfter(start, durable0, lastCommit) && repo.commitCount == commits0 + lastCommit / 500
      invariant lastCommit <= i < lastCommit + 500 && lastCommit % 500 == 0
      invariant opponentLog == OpponentLog(start.fights[..i], start.boxers)
      invariant winnerLog == WinnerLog(start.fights[..i], start.boxers)
    {
      var opponentEntry, winnerEntry;
      opponentEntry, winnerEntry, lastCommit := ResolveStep(repo, start, durable0, commits0, i, lastCommit);
      opponentLog, winnerLog := opponentLog + opponentEntry, winnerLog + winnerEntry;
      LogsStep(start.fights, start.boxers, i);
    }
    assert start.fights[..n] == start.fights;
    FinishPass(repo, start, durable0, commits0, n, lastCommit);
  }
}
