/** Each ledger operation keeps `Consistent`. The forward step (a sale
    applied by /sell or /redo) and the backward step (a sale reversed by
    /undo) are proved conjunct by conjunct. */
module LedgerPreservation {
  import opened Common
  import opened Players
  import opened Teams
  import opened AuctionStates
  import opened Ledger
  import opened LedgerInvariant

  /** An unsold player has no applied sale. */
  lemma UnsoldNotApplied(s: Store, applied: seq<Transaction>, pid: PlayerId)
    requires AppliedReflected(s, applied)
    requires pid in s.players && !s.players[pid].isSold
    ensures !InStack(pid, applied)
  {
    forall i | 0 <= i < |applied|
      ensures applied[i].player != pid
    {
    }
  }

  /** A stack with its top removed keeps distinct players, and the top's
      player is not below it. */
  lemma DistinctPop(ts: seq<Transaction>, t: Transaction)
    requires DistinctPlayers(ts + [t])
    ensures DistinctPlayers(ts)
    ensures !InStack(t.player, ts)
  {
    var all := ts + [t];
    forall i, j | 0 <= i < j < |ts|
      ensures ts[i].player != ts[j].player
    {
      assert all[i] == ts[i] && all[j] == ts[j];
    }
    forall i | 0 <= i < |ts|
      ensures ts[i].player != t.player
    {
      assert all[i] == ts[i] && all[|ts|] == t;
    }
  }

  /** Pushing a sale whose player is not in the stack keeps it distinct. */
  lemma DistinctPush(ts: seq<Transaction>, t: Transaction)
    requires DistinctPlayers(ts) && !InStack(t.player, ts)
    ensures DistinctPlayers(ts + [t])
  {
    var all := ts + [t];
    forall i, j | 0 <= i < j < |all|
      ensures all[i].player != all[j].player
    {
      if j == |ts| {
        assert all[i] == ts[i];
      } else {
        assert all[i] == ts[i] && all[j] == ts[j];
      }
    }
  }

  // ---------------------------------------------------------------------
  // Forward step

  lemma ForwardRecords(s: Store, s': Store, t: Transaction)
    requires t.player in s.players && t.team in s.teams
    requires SaleApplied(s, s', t)
    requires RecordsAgree(s)
    ensures RecordsAgree(s')
  {
  }

  lemma ForwardApplied(s: Store, s': Store, applied: seq<Transaction>, t: Transaction)
    requires t.player in s.players && t.team in s.teams && !s.players[t.player].isSold
    requires SaleApplied(s, s', t)
    requires AppliedReflected(s, applied)
    ensures AppliedReflected(s', applied + [t])
  {
    var all := applied + [t];
    forall i | 0 <= i < |all|
      ensures
        && all[i].player in s'.players && all[i].team in s'.teams
        && s'.players[all[i].player].isSold
        && s'.players[all[i].player].soldTo == Some(all[i].team)
        && s'.players[all[i].player].soldPrice == all[i].amount
    {
      if i < |applied| {
        assert all[i] == applied[i];
        assert applied[i].player != t.player;
      }
    }
  }

  lemma ForwardSold(s: Store, s': Store, applied: seq<Transaction>, t: Transaction)
    requires t.player in s.players && t.team in s.teams
    requires SaleApplied(s, s', t)
    requires SoldAreApplied(s, applied)
    ensures SoldAreApplied(s', applied + [t])
  {
    var all := applied + [t];
    forall q | q in s'.players && s'.players[q].isSold
      ensures InStack(q, all)
    {
      if q == t.player {
        assert all[|applied|].player == q;
      } else {
        var i :| 0 <= i < |applied| && applied[i].player == q;
        assert all[i].player == q;
      }
    }
  }

  lemma ForwardUndone(s: Store, s': Store, undone: seq<Transaction>, undone': seq<Transaction>, t: Transaction)
    requires t.player in s.players && t.team in s.teams
    requires SaleApplied(s, s', t)
    requires UndoneUnsold(s, undone) && DistinctPlayers(undone)
    requires undone' == [] || undone == undone' + [t]
    ensures UndoneUnsold(s', undone') && DistinctPlayers(undone')
  {
    if undone' != [] {
      DistinctPop(undone', t);
      forall i | 0 <= i < |undone'|
        ensures undone'[i].player in s'.players && undone'[i].team in s'.teams && !s'.players[undone'[i].player].isSold
      {
        assert undone[i] == undone'[i];
        assert undone'[i].player != t.player;
      }
    }
  }

  lemma ForwardRosters(s: Store, s': Store, applied: seq<Transaction>, t: Transaction)
    requires t.player in s.players && t.team in s.teams
    requires SaleApplied(s, s', t)
    requires RostersFollow(s, applied)
    ensures RostersFollow(s', applied + [t])
  {
    TouchKeepsRatings(s, s', t);
    forall u | u in s'.teams
      ensures s'.teams[u].playersBought == Roster(u, applied + [t])
      ensures s'.teams[u].totalRating == RatingSum(s'.players, s'.teams[u].playersBought)
    {
      RosterSnoc(u, applied, t);
      RatingSumFrame(s.players, s'.players, s.teams[u].playersBought);
      if u == t.team {
        RatingSumSnoc(s'.players, s.teams[u].playersBought, t.player);
      }
    }
  }

  lemma ForwardPurses(s: Store, s': Store, applied: seq<Transaction>,
                      undone: seq<Transaction>, undone': seq<Transaction>, t: Transaction)
    requires t.player in s.players && t.team in s.teams
    requires SaleApplied(s, s', t)
    requires PursesAffordable(s, applied, undone)
    requires (undone' == [] && s.teams[t.team].purseRemaining >= t.amount) || undone == undone' + [t]
    ensures PursesAffordable(s', applied + [t], undone')
  {
    var all := applied + [t];
    forall u | u in s'.teams
      ensures Affordable(s'.teams[u].purseRemaining, u, all, undone')
    {
      var purse, purse' := s.teams[u].purseRemaining, s'.teams[u].purseRemaining;
      var cost := if t.team == u then t.amount else 0;
      assert purse' == purse - cost;
      assert Affordable(purse, u, applied, undone);
      // the purse right after this sale
      assert purse' >= 0 by {
        assert applied[|applied|..] == [];
        if undone == undone' + [t] {
          assert undone[|undone'|..] == [t];
          SpentSnoc(u, [], t);
        }
      }
      forall k | 0 <= k <= |all|
        ensures purse' + Spent(u, all[k..]) >= 0
      {
        if k <= |applied| {
          SpentSuffixSnoc(u, applied, t, k);
        } else {
          assert all[k..] == [];
        }
      }
      forall k | 0 <= k <= |undone'|
        ensures purse' - Spent(u, undone'[k..]) >= 0
      {
        if undone == undone' + [t] {
          SpentSuffixSnoc(u, undone', t, k);
        } else {
          assert undone'[k..] == [];
        }
      }
    }
  }

  /** Applying sale `t` (by /sell, or by /redo from the top of the redo
      stack) keeps the invariant. */
  lemma ForwardStep(s: Store, s': Store, applied: seq<Transaction>,
                    undone: seq<Transaction>, undone': seq<Transaction>, t: Transaction)
    requires Holds(s, applied, undone)
    requires t.player in s.players && t.team in s.teams && !s.players[t.player].isSold
    requires SaleApplied(s, s', t)
    requires (undone' == [] && s.teams[t.team].purseRemaining >= t.amount) || undone == undone' + [t]
    ensures Holds(s', applied + [t], undone')
  {
    UnsoldNotApplied(s, applied, t.player);
    DistinctPush(applied, t);
    ForwardRecords(s, s', t);
    ForwardApplied(s, s', applied, t);
    ForwardSold(s, s', applied, t);
    ForwardUndone(s, s', undone, undone', t);
    ForwardRosters(s, s', applied, t);
    ForwardPurses(s, s', applied, undone, undone', t);
  }

  // ---------------------------------------------------------------------
  // Backward step

  lemma BackwardRecords(s: Store, s': Store, t: Transaction)
    requires t.player in s.players && t.team in s.teams
    requires SaleReversed(s, s', t)
    requires RecordsAgree(s)
    ensures RecordsAgree(s')
  {
  }

  lemma BackwardApplied(s: Store, s': Store, applied': seq<Transaction>, t: Transaction)
    requires t.player in s.players && t.team in s.teams
    requires SaleReversed(s, s', t)
    requires AppliedReflected(s, applied' + [t]) && !InStack(t.player, applied')
    ensures AppliedReflected(s', applied')
  {
    var all := applied' + [t];
    forall i | 0 <= i < |applied'|
      ensures
        && applied'[i].player in s'.players && applied'[i].team in s'.teams
        && s'.players[applied'[i].player].isSold
        && s'.players[applied'[i].player].soldTo == Some(applied'[i].team)
        && s'.players[applied'[i].player].soldPrice == applied'[i].amount
    {
      assert all[i] == applied'[i];
      assert applied'[i].player != t.player;
    }
  }

  lemma BackwardSold(s: Store, s': Store, applied': seq<Transaction>, t: Transaction)
    requires t.player in s.players && t.team in s.teams
    requires SaleReversed(s, s', t)
    requires SoldAreApplied(s, applied' + [t])
    ensures SoldAreApplied(s', applied')
  {
    var all := applied' + [t];
    forall q | q in s'.players && s'.players[q].isSold
      ensures InStack(q, applied')
    {
      var i :| 0 <= i < |all| && all[i].player == q;
      assert i < |applied'|;
      assert applied'[i].player == q;
    }
  }

  lemma BackwardUndone(s: Store, s': Store, undone: seq<Transaction>, t: Transaction)
    requires t.player in s.players && t.team in s.teams && s.players[t.player].isSold
    requires SaleReversed(s, s', t)
    requires UndoneUnsold(s, undone) && DistinctPlayers(undone)
    ensures UndoneUnsold(s', undone + [t]) && DistinctPlayers(undone + [t])
  {
    var all := undone + [t];
    forall i | 0 <= i < |all|
      ensures all[i].player in s'.players && all[i].team in s'.teams && !s'.players[all[i].player].isSold
    {
      if i < |undone| {
        assert all[i] == undone[i];
        assert undone[i].player != t.player;
      }
    }
    forall i | 0 <= i < |undone|
      ensures undone[i].player != t.player
    {
    }
    DistinctPush(undone, t);
  }

  lemma BackwardRosters(s: Store, s': Store, applied': seq<Transaction>, t: Transaction)
    requires t.player in s.players && t.team in s.teams
    requires SaleReversed(s, s', t)
    requires RostersFollow(s, applied' + [t]) && !InStack(t.player, applied')
    ensures RostersFollow(s', applied')
  {
    TouchKeepsRatings(s, s', t);
    forall u | u in s'.teams
      ensures s'.teams[u].playersBought == Roster(u, applied')
      ensures s'.teams[u].totalRating == RatingSum(s'.players, s'.teams[u].playersBought)
    {
      RosterSnoc(u, applied', t);
      RatingSumFrame(s.players, s'.players, s'.teams[u].playersBought);
      if u == t.team {
        assert t.player !in Roster(u, applied') by {
          if t.player in Roster(u, applied') {
            RosterInStack(u, applied', t.player);
          }
        }
        RemoveAllSnoc(Roster(u, applied'), t.player);
        RatingSumSnoc(s.players, Roster(u, applied'), t.player);
      }
    }
  }

  lemma BackwardPurses(s: Store, s': Store, applied': seq<Transaction>, undone: seq<Transaction>, t: Transaction)
    requires t.player in s.players && t.team in s.teams
    requires SaleReversed(s, s', t)
    requires PursesAffordable(s, applied' + [t], undone)
    ensures PursesAffordable(s', applied', undone + [t])
  {
    var applied, undone' := applied' + [t], undone + [t];
    forall u | u in s'.teams
      ensures Affordable(s'.teams[u].purseRemaining, u, applied', undone')
    {
      var purse, purse' := s.teams[u].purseRemaining, s'.teams[u].purseRemaining;
      var refund := if t.team == u then t.amount else 0;
      assert purse' == purse + refund;
      assert Affordable(purse, u, applied, undone);
      // the purse just before the reversed sale
      assert purse' >= 0 by {
        assert applied[|applied'|..] == [t];
        SpentSnoc(u, [], t);
      }
      forall k | 0 <= k <= |applied'|
        ensures purse' + Spent(u, applied'[k..]) >= 0
      {
        SpentSuffixSnoc(u, applied', t, k);
      }
      forall k | 0 <= k <= |undone'|
        ensures purse' - Spent(u, undone'[k..]) >= 0
      {
        if k <= |undone| {
          SpentSuffixSnoc(u, undone, t, k);
        } else {
          assert undone'[k..] == [];
        }
      }
    }
  }

  /** Reversing the latest applied sale `t` and putting it on the redo
      stack keeps the invariant. */
  lemma BackwardStep(s: Store, s': Store, applied': seq<Transaction>, undone: seq<Transaction>, t: Transaction)
    requires Holds(s, applied' + [t], undone)
    requires t.player in s.players && t.team in s.teams
    requires SaleReversed(s, s', t)
    ensures Holds(s', applied', undone + [t])
  {
    DistinctPop(applied', t);
    assert (applied' + [t])[|applied'|] == t;
    BackwardRecords(s, s', t);
    BackwardApplied(s, s', applied', t);
    BackwardSold(s, s', applied', t);
    BackwardUndone(s, s', undone, t);
    BackwardRosters(s, s', applied', t);
    BackwardPurses(s, s', applied', undone, t);
  }
}

/** The three handlers keep the ledger consistent, and what follows from it. */
module LedgerSafety {
  import opened Common
  import opened Players
  import opened Teams
  import opened AuctionStates
  import opened Ledger
  import opened LedgerInvariant
  import opened LedgerPreservation

  /** A store as seeded: every player unsold, every team with an empty roster,
      no rating and a purse of zero or more, and no sale on either stack. */
  lemma InitialStoreConsistent(s: Store)
    requires forall pid :: pid in s.players ==> Unsold(s.players[pid])
    requires forall tid :: tid in s.teams ==>
      s.teams[tid].playersBought == [] && s.teams[tid].totalRating == 0 && s.teams[tid].purseRemaining >= 0
    requires Applied(s) == [] && Undone(s) == []
    ensures Consistent(s)
  {
  }

  /** /sell keeps the ledger consistent. */
  lemma SellKeepsConsistent(s: Store, playerId: PlayerId, teamId: TeamId, soldPrice: int, now: int)
    ensures Consistent(s) ==> Consistent(Sell(s, playerId, teamId, soldPrice, now).store)
  {
    var r := Sell(s, playerId, teamId, soldPrice, now);
    if Consistent(s) && r.response.Ok? {
      var t := Transaction(playerId, teamId, soldPrice, now);
      ForwardStep(s, r.store, Applied(s), Undone(s), [], t);
    }
  }

  /** /undo keeps the ledger consistent. */
  lemma UndoKeepsConsistent(s: Store)
    ensures Consistent(s) ==> Consistent(Undo(s).store)
  {
    if !Consistent(s) {
    } else if Applied(s) == [] {
      UndoEmptyKeepsConsistent(s);
    } else {
      UndoLatestKeepsConsistent(s);
    }
  }

  lemma UndoEmptyKeepsConsistent(s: Store)
    requires Consistent(s) && Applied(s) == []
    ensures Consistent(Undo(s).store)
  {
    var s' := Undo(s).store;
    assert s'.players == s.players && s'.teams == s.teams;
    assert Applied(s') == Applied(s) && Undone(s') == Undone(s);
  }

  lemma UndoLatestKeepsConsistent(s: Store)
    requires Consistent(s) && Applied(s) != []
    ensures Consistent(Undo(s).store)
  {
    var applied := Applied(s);
    var t := applied[|applied| - 1];
    var rest := applied[..|applied| - 1];
    assert applied == rest + [t];
    assert t.player in s.players && t.team in s.teams;
    var s' := Undo(s).store;
    assert SaleReversed(s, s', t);
    assert Applied(s') == rest && Undone(s') == Undone(s) + [t];
    BackwardStep(s, s', rest, Undone(s), t);
  }

  /** /redo keeps the ledger consistent. */
  lemma RedoKeepsConsistent(s: Store)
    ensures Consistent(s) ==> Consistent(Redo(s).store)
  {
    var r := Redo(s);
    var undone := Undone(s);
    if Consistent(s) && undone != [] {
      var t := undone[|undone| - 1];
      var rest := undone[..|undone| - 1];
      assert undone == rest + [t];
      assert t.player in s.players && t.team in s.teams && !s.players[t.player].isSold;
      ForwardStep(s, r.store, Applied(s), undone, rest, t);
    }
  }

  /** In a consistent store no purse is negative. */
  lemma PursesNonNegative(s: Store)
    requires Consistent(s)
    ensures forall tid :: tid in s.teams ==> s.teams[tid].purseRemaining >= 0
  {
    forall tid | tid in s.teams
      ensures s.teams[tid].purseRemaining >= 0
    {
      var applied := Applied(s);
      assert applied[|applied|..] == [];
      assert Affordable(s.teams[tid].purseRemaining, tid, applied, Undone(s));
    }
  }

  /** /redo re-applies a sale without checking the sold flag or the purse;
      in a consistent store that is safe: the player being resold is unsold,
      its team exists, and afterwards no purse is negative. */
  lemma RedoNeedsNoChecks(s: Store)
    requires Consistent(s) && Undone(s) != []
    ensures var t := Undone(s)[|Undone(s)| - 1];
      t.player in s.players && t.team in s.teams && !s.players[t.player].isSold
    ensures Redo(s).response.Ok?
    ensures forall tid :: tid in Redo(s).store.teams ==> Redo(s).store.teams[tid].purseRemaining >= 0
  {
    var undone := Undone(s);
    assert 0 <= |undone| - 1 < |undone|;
    RedoKeepsConsistent(s);
    PursesNonNegative(Redo(s).store);
  }

  /** A consistent ledger never holds the same player on both stacks, so no
      sale is both applied and undone. */
  lemma StacksDisjoint(s: Store)
    requires Consistent(s)
    ensures forall i, j :: 0 <= i < |Applied(s)| && 0 <= j < |Undone(s)| ==>
      Applied(s)[i].player != Undone(s)[j].player
  {
  }

  /** Once /sell has sold a player, another /sell of the same player, to any
      team and at any price, is refused as already sold and changes nothing. */
  lemma SoldOnlyOnce(s: Store, playerId: PlayerId, teamId: TeamId, soldPrice: int, now: int,
                     otherTeam: TeamId, otherPrice: int, later: int)
    requires Sell(s, playerId, teamId, soldPrice, now).response.Ok?
    requires otherTeam in s.teams
    ensures var s1 := Sell(s, playerId, teamId, soldPrice, now).store;
      Sell(s1, playerId, otherTeam, otherPrice, later) == Step(Err(PlayerAlreadySold), s1)
  {
    var s1 := Sell(s, playerId, teamId, soldPrice, now).store;
    assert s1.players[playerId].isSold;
    assert otherTeam in s1.teams;
  }

  /** Team names and short codes are never changed by the ledger, so the
      unique index on team names keeps holding. */
  lemma NamesStayUnique(s: Store, s': Store, pid: PlayerId, tid: TeamId)
    requires OnlyTouches(s, s', pid, tid)
    requires tid in s.teams ==> SameTeamIdentity(s.teams[tid], s'.teams[tid])
    requires UniqueNames(s.teams)
    ensures UniqueNames(s'.teams)
  {
    forall a, b | a in s'.teams && b in s'.teams && a != b
      ensures s'.teams[a].name != s'.teams[b].name
    {
      assert s'.teams[a].name == s.teams[a].name;
      assert s'.teams[b].name == s.teams[b].name;
    }
  }

  /** /sell, /undo and /redo all keep team names unique. */
  lemma LedgerKeepsNamesUnique(s: Store, playerId: PlayerId, teamId: TeamId, soldPrice: int, now: int)
    requires UniqueNames(s.teams)
    ensures UniqueNames(Sell(s, playerId, teamId, soldPrice, now).store.teams)
    ensures UniqueNames(Undo(s).store.teams)
    ensures UniqueNames(Redo(s).store.teams)
  {
    var sold := Sell(s, playerId, teamId, soldPrice, now);
    if sold.response.Ok? {
      NamesStayUnique(s, sold.store, playerId, teamId);
    }
    if Applied(s) != [] {
      var t := Applied(s)[|Applied(s)| - 1];
      if t.player in s.players && t.team in s.teams {
        NamesStayUnique(s, Undo(s).store, t.player, t.team);
      }
    }
    if Undone(s) != [] {
      var t := Undone(s)[|Undone(s)| - 1];
      if t.player in s.players && t.team in s.teams {
        NamesStayUnique(s, Redo(s).store, t.player, t.team);
      }
    }
  }
}
