/** What the ledger keeps true about the store, and what undo and redo give
    back. `Consistent` ties every player's sale fields, every roster, every
    rating total and every purse to the two transaction stacks. */
module LedgerInvariant {
  import opened Common
  import opened Players
  import opened Teams
  import opened AuctionStates
  import opened Ledger

  /** Some transaction in `ts` is for player `pid`. */
  ghost predicate InStack(pid: PlayerId, ts: seq<Transaction>) {
    exists i :: 0 <= i < |ts| && ts[i].player == pid
  }

  /** No player has two transactions in `ts`. */
  ghost predicate DistinctPlayers(ts: seq<Transaction>) {
    forall i, j :: 0 <= i < j < |ts| ==> ts[i].player != ts[j].player
  }

  /** The players `ts` sells to team `tid`, in the order of the sales. */
  function Roster(tid: TeamId, ts: seq<Transaction>): (ids: seq<PlayerId>)
    decreases |ts|
  {
    if ts == [] then []
    else
      var last := ts[|ts| - 1];
      Roster(tid, ts[..|ts| - 1]) + (if last.team == tid then [last.player] else [])
  }

  /** What the sales in `ts` cost team `tid` in all. */
  function Spent(tid: TeamId, ts: seq<Transaction>): (total: int)
    decreases |ts|
  {
    if ts == [] then 0
    else
      var last := ts[|ts| - 1];
      Spent(tid, ts[..|ts| - 1]) + (if last.team == tid then last.amount else 0)
  }

  /** The sum of the ratings of the players listed in `ids`. */
  function RatingSum(players: map<PlayerId, Player>, ids: seq<PlayerId>): (sum: int)
    decreases |ids|
  {
    if ids == [] then 0
    else
      var last := ids[|ids| - 1];
      RatingSum(players, ids[..|ids| - 1]) + (if last in players then players[last].rating else 0)
  }

  /** A team's purse never was and never will be negative: going back through
      any suffix of the history, and going forward through any suffix of the
      redo stack that /redo would re-apply, leaves it at zero or more. */
  ghost predicate Affordable(purse: int, tid: TeamId, applied: seq<Transaction>, undone: seq<Transaction>) {
    && (forall k :: 0 <= k <= |applied| ==> purse + Spent(tid, applied[k..]) >= 0)
    && (forall k :: 0 <= k <= |undone| ==> purse - Spent(tid, undone[k..]) >= 0)
  }

  /** Sale flag, owner and price of every player agree. */
  ghost predicate RecordsAgree(s: Store) {
    forall pid :: pid in s.players ==> SaleFieldsAgree(s.players[pid])
  }

  /** Every applied sale is reflected in its player. */
  ghost predicate AppliedReflected(s: Store, applied: seq<Transaction>) {
    forall i :: 0 <= i < |applied| ==>
      && applied[i].player in s.players && applied[i].team in s.teams
      && s.players[applied[i].player].isSold
      && s.players[applied[i].player].soldTo == Some(applied[i].team)
      && s.players[applied[i].player].soldPrice == applied[i].amount
  }

  /** Every sold player has its sale in the history. */
  ghost predicate SoldAreApplied(s: Store, applied: seq<Transaction>) {
    forall pid :: pid in s.players && s.players[pid].isSold ==> InStack(pid, applied)
  }

  /** Every undone sale's player and team exist and the player is unsold. */
  ghost predicate UndoneUnsold(s: Store, undone: seq<Transaction>) {
    forall i :: 0 <= i < |undone| ==>
      undone[i].player in s.players && undone[i].team in s.teams && !s.players[undone[i].player].isSold
  }

  /** Every roster lists the team's applied sales in order, and every rating
      total is the sum of the roster's ratings. */
  ghost predicate RostersFollow(s: Store, applied: seq<Transaction>) {
    forall tid :: tid in s.teams ==>
      && s.teams[tid].playersBought == Roster(tid, applied)
      && s.teams[tid].totalRating == RatingSum(s.players, s.teams[tid].playersBought)
  }

  /** Every purse is affordable along the history and the redo stack. */
  ghost predicate PursesAffordable(s: Store, applied: seq<Transaction>, undone: seq<Transaction>) {
    forall tid :: tid in s.teams ==> Affordable(s.teams[tid].purseRemaining, tid, applied, undone)
  }

  /** The invariant, with the two stacks given explicitly. */
  ghost predicate Holds(s: Store, applied: seq<Transaction>, undone: seq<Transaction>) {
    && RecordsAgree(s)
    && AppliedReflected(s, applied)
    && SoldAreApplied(s, applied)
    && UndoneUnsold(s, undone)
    && DistinctPlayers(applied)
    && DistinctPlayers(undone)
    && RostersFollow(s, applied)
    && PursesAffordable(s, applied, undone)
  }

  /** The ledger's invariant over the store and its own stacks. */
  ghost predicate Consistent(s: Store) {
    Holds(s, Applied(s), Undone(s))
  }

  // ---------------------------------------------------------------------
  // Facts about the stack summaries

  lemma RosterSnoc(tid: TeamId, ts: seq<Transaction>, t: Transaction)
    ensures Roster(tid, ts + [t]) == Roster(tid, ts) + (if t.team == tid then [t.player] else [])
  {
    assert (ts + [t])[..|ts|] == ts;
  }

  lemma SpentSnoc(tid: TeamId, ts: seq<Transaction>, t: Transaction)
    ensures Spent(tid, ts + [t]) == Spent(tid, ts) + (if t.team == tid then t.amount else 0)
  {
    assert (ts + [t])[..|ts|] == ts;
  }

  lemma RatingSumSnoc(players: map<PlayerId, Player>, ids: seq<PlayerId>, x: PlayerId)
    ensures RatingSum(players, ids + [x]) == RatingSum(players, ids) + (if x in players then players[x].rating else 0)
  {
    assert (ids + [x])[..|ids|] == ids;
  }

  /** Suffixes of a stack with one more sale on top. */
  lemma SpentSuffixSnoc(tid: TeamId, ts: seq<Transaction>, t: Transaction, k: int)
    requires 0 <= k <= |ts|
    ensures Spent(tid, (ts + [t])[k..]) == Spent(tid, ts[k..]) + (if t.team == tid then t.amount else 0)
  {
    assert (ts + [t])[k..] == ts[k..] + [t];
    SpentSnoc(tid, ts[k..], t);
  }

  /** Every player on a roster has a sale in the stack it is built from. */
  lemma {:induction false} RosterInStack(tid: TeamId, ts: seq<Transaction>, pid: PlayerId)
    requires pid in Roster(tid, ts)
    ensures InStack(pid, ts)
    decreases |ts|
  {
    var init, last := ts[..|ts| - 1], ts[|ts| - 1];
    if pid in Roster(tid, init) {
      RosterInStack(tid, init, pid);
      var i :| 0 <= i < |init| && init[i].player == pid;
      assert ts[i].player == pid;
    } else {
      assert ts[|ts| - 1].player == pid;
    }
  }

  /** Ratings are read through ids only, so two player maps with the same
      ratings give the same sums. */
  lemma {:induction false} RatingSumFrame(players: map<PlayerId, Player>, players': map<PlayerId, Player>, ids: seq<PlayerId>)
    requires players'.Keys == players.Keys
    requires forall q :: q in players ==> players'[q].rating == players[q].rating
    ensures RatingSum(players', ids) == RatingSum(players, ids)
    decreases |ids|
  {
    if ids != [] {
      RatingSumFrame(players, players', ids[..|ids| - 1]);
    }
  }

  /** `pull` of an id that is only at the end of the roster. */
  lemma RemoveAllSnoc(ids: seq<PlayerId>, x: PlayerId)
    requires x !in ids
    ensures RemoveAll(ids + [x], x) == ids
  {
    assert (ids + [x])[..|ids|] == ids;
  }

  /** The records of a sale or its reversal keep every rating. */
  lemma TouchKeepsRatings(s: Store, s': Store, t: Transaction)
    requires t.player in s.players && t.team in s.teams
    requires SaleApplied(s, s', t) || SaleReversed(s, s', t)
    ensures s'.players.Keys == s.players.Keys
    ensures forall q :: q in s.players ==> s'.players[q].rating == s.players[q].rating
  {
  }

}
