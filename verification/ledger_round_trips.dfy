/** Undo takes back exactly what a sale or a redo did, and redo puts back
    exactly what an undo took. */
module LedgerRoundTrips {
  import opened Common
  import opened Players
  import opened Teams
  import opened AuctionStates
  import opened Ledger
  import opened LedgerInvariant
  import opened LedgerPreservation

  /** The roster of the latest sale's team ends with that sale's player, who
      is nowhere else on it. */
  lemma LatestSaleEndsRoster(s: Store, rest: seq<Transaction>, t: Transaction)
    requires Consistent(s) && Applied(s) == rest + [t]
    ensures t.player in s.players && t.team in s.teams
    ensures s.teams[t.team].playersBought == Roster(t.team, rest) + [t.player]
    ensures t.player !in Roster(t.team, rest)
  {
    assert Applied(s)[|rest|] == t;
    RosterSnoc(t.team, rest, t);
    DistinctPop(rest, t);
    if t.player in Roster(t.team, rest) {
      RosterInStack(t.team, rest, t.player);
    }
  }

  /** An unsold player is on no roster. */
  lemma UnsoldOffRosters(s: Store, pid: PlayerId, tid: TeamId)
    requires Consistent(s)
    requires pid in s.players && !s.players[pid].isSold && tid in s.teams
    ensures pid !in s.teams[tid].playersBought
  {
    UnsoldNotApplied(s, Applied(s), pid);
    if pid in s.teams[tid].playersBought {
      RosterInStack(tid, Applied(s), pid);
    }
  }

  /** Reversing a sale after applying it gives the records back, when the
      player was unsold and not on the team's roster. */
  lemma ReverseAfterApply(s: Store, t: Transaction)
    requires t.player in s.players && t.team in s.teams
    requires Unsold(s.players[t.player])
    requires t.player !in s.teams[t.team].playersBought
    ensures ReverseSale(ApplySale(s, t), t) == s
  {
    var m := s.teams[t.team];
    RemoveAllSnoc(m.playersBought, t.player);
    var s2 := ReverseSale(ApplySale(s, t), t);
    assert s2.players[t.player] == s.players[t.player];
    assert s2.teams[t.team] == m;
    assert s2.players == s.players;
    assert s2.teams == s.teams;
  }

  /** Applying a sale after reversing it gives the records back, when the
      player was sold to the team at the sale's amount and was the last,
      and only, occurrence on the roster. */
  lemma ApplyAfterReverse(s: Store, t: Transaction, before: seq<PlayerId>)
    requires t.player in s.players && t.team in s.teams
    requires s.players[t.player].isSold
    requires s.players[t.player].soldTo == Some(t.team)
    requires s.players[t.player].soldPrice == t.amount
    requires s.teams[t.team].playersBought == before + [t.player] && t.player !in before
    ensures ApplySale(ReverseSale(s, t), t) == s
  {
    RemoveAllSnoc(before, t.player);
    var s2 := ApplySale(ReverseSale(s, t), t);
    assert s2.players[t.player] == s.players[t.player];
    assert s2.teams[t.team] == s.teams[t.team];
    assert s2.players == s.players;
    assert s2.teams == s.teams;
  }

  /** The round trip behind `UndoThenRedo`: the latest sale's player is sold
      to its team at its amount and ends that team's roster. */
  lemma UndoThenRedoRecords(s: Store, rest: seq<Transaction>, t: Transaction, before: seq<PlayerId>)
    requires s.state.Some? && s.state.value.transactions == rest + [t]
    requires t.player in s.players && t.team in s.teams
    requires s.players[t.player].isSold
    requires s.players[t.player].soldTo == Some(t.team)
    requires s.players[t.player].soldPrice == t.amount
    requires s.teams[t.team].playersBought == before + [t.player] && t.player !in before
    ensures Undo(s).response.Ok?
    ensures Redo(Undo(s).store) == Step(Ok(()), s)
  {
    var st := s.state.value;
    assert st.transactions[|st.transactions| - 1] == t;
    assert st.transactions[..|st.transactions| - 1] == rest;
    var st1 := st.(transactions := rest, undoneTransactions := st.undoneTransactions + [t]);
    var s1 := ReverseSale(s, t).(state := Some(st1));
    assert Undo(s) == Step(Ok(t), s1);
    assert st1.undoneTransactions[..|st1.undoneTransactions| - 1] == st.undoneTransactions;
    ApplyAfterReverse(s, t, before);
    assert Redo(s1) == Step(Ok(()), ApplySale(ReverseSale(s, t), t).(state := Some(st)));
  }

  /** Undo followed by redo leaves the store exactly as it was. */
  lemma UndoThenRedo(s: Store)
    requires Consistent(s) && Applied(s) != []
    ensures Undo(s).response.Ok?
    ensures Redo(Undo(s).store) == Step(Ok(()), s)
  {
    var applied := Applied(s);
    var t := applied[|applied| - 1];
    var rest := applied[..|applied| - 1];
    assert applied == rest + [t];
    LatestSaleEndsRoster(s, rest, t);
    assert applied[|rest|] == t;
    UndoThenRedoRecords(s, rest, t, Roster(t.team, rest));
  }

  /** Undo right after sale `t` was applied and pushed takes it back: the
      records are restored and `t` moves to the redo stack. */
  lemma UndoAfterApply(s: Store, st: AuctionState, t: Transaction)
    requires t.player in s.players && t.team in s.teams
    requires Unsold(s.players[t.player])
    requires t.player !in s.teams[t.team].playersBought
    ensures Undo(ApplySale(s, t).(state := Some(st.(transactions := st.transactions + [t]))))
      == Step(Ok(t), s.(state := Some(st.(undoneTransactions := st.undoneTransactions + [t]))))
  {
    var st1 := st.(transactions := st.transactions + [t]);
    assert st1.transactions[|st1.transactions| - 1] == t;
    assert st1.transactions[..|st1.transactions| - 1] == st.transactions;
    ReverseAfterApply(s, t);
  }

  /** The round trip behind `RedoThenUndo`: the undone sale's player is
      unsold and not on its team's roster. */
  lemma RedoThenUndoRecords(s: Store, rest: seq<Transaction>, t: Transaction)
    requires s.state.Some? && s.state.value.undoneTransactions == rest + [t]
    requires t.player in s.players && t.team in s.teams
    requires Unsold(s.players[t.player])
    requires t.player !in s.teams[t.team].playersBought
    ensures Redo(s).response.Ok?
    ensures Undo(Redo(s).store) == Step(Ok(t), s)
  {
    var st := s.state.value;
    assert st.undoneTransactions[|st.undoneTransactions| - 1] == t;
    assert st.undoneTransactions[..|st.undoneTransactions| - 1] == rest;
    var st0 := st.(undoneTransactions := rest);
    assert Redo(s) == Step(Ok(()), ApplySale(s, t).(state := Some(st0.(transactions := st0.transactions + [t]))));
    UndoAfterApply(s, st0, t);
    assert st0.(undoneTransactions := st0.undoneTransactions + [t]) == st;
  }

  /** Redo followed by undo leaves the store exactly as it was. */
  lemma RedoThenUndo(s: Store)
    requires Consistent(s) && Undone(s) != []
    ensures Redo(s).response.Ok?
    ensures Undo(Redo(s).store) == Step(Ok(Undone(s)[|Undone(s)| - 1]), s)
  {
    var undone := Undone(s);
    var t := undone[|undone| - 1];
    var rest := undone[..|undone| - 1];
    assert undone == rest + [t];
    assert t.player in s.players && t.team in s.teams && !s.players[t.player].isSold;
    assert SaleFieldsAgree(s.players[t.player]);
    UnsoldOffRosters(s, t.player, t.team);
    RedoThenUndoRecords(s, rest, t);
  }

  /** The round trip behind `SellThenUndo`. */
  lemma SellThenUndoRecords(s: Store, playerId: PlayerId, teamId: TeamId, soldPrice: int, now: int)
    requires Sell(s, playerId, teamId, soldPrice, now).response.Ok?
    requires Unsold(s.players[playerId])
    requires playerId !in s.teams[teamId].playersBought
    ensures var t := Transaction(playerId, teamId, soldPrice, now);
      Undo(Sell(s, playerId, teamId, soldPrice, now).store)
        == Step(Ok(t), s.(state := Some(CurrentState(s.state).(undoneTransactions := [t]))))
  {
    var t := Transaction(playerId, teamId, soldPrice, now);
    var st0 := CurrentState(s.state).(undoneTransactions := []);
    assert Sell(s, playerId, teamId, soldPrice, now).store
      == ApplySale(s, t).(state := Some(st0.(transactions := st0.transactions + [t])));
    UndoAfterApply(s, st0, t);
    assert st0.undoneTransactions + [t] == [t];
  }

  /** A sale followed by an undo restores every player and team and the
      history; the undone sale is then the only one that can be redone. */
  lemma SellThenUndo(s: Store, playerId: PlayerId, teamId: TeamId, soldPrice: int, now: int)
    requires Consistent(s)
    requires Sell(s, playerId, teamId, soldPrice, now).response.Ok?
    ensures var t := Transaction(playerId, teamId, soldPrice, now);
      Undo(Sell(s, playerId, teamId, soldPrice, now).store)
        == Step(Ok(t), s.(state := Some(CurrentState(s.state).(undoneTransactions := [t]))))
  {
    assert SaleFieldsAgree(s.players[playerId]);
    UnsoldOffRosters(s, playerId, teamId);
    SellThenUndoRecords(s, playerId, teamId, soldPrice, now);
  }

  /** A worked example: a team with a purse of 100,000,000 buys a player
      rated 90 for 20,000,000; undo gives the team back its purse, rating
      and empty roster, and redo returns it to the post-sale values. */
  lemma SellUndoRedoExample()
    ensures
      var player := Player("Player", Batsman, 90, 20000000, false, None, 0);
      var team := Team("Team", None, 100000000, 0, [], "", "TM");
      var s0 := Store(map[1 := player], map[7 := team], None);
      var s1 := Sell(s0, 1, 7, 20000000, 0).store;
      var s2 := Undo(s1).store;
      var s3 := Redo(s2).store;
      && s1.teams[7].purseRemaining == 80000000
      && s1.teams[7].totalRating == 90
      && s1.teams[7].playersBought == [1]
      && s2.teams[7] == team && s2.players[1] == player
      && s3.teams == s1.teams && s3.players == s1.players
  {
    var player := Player("Player", Batsman, 90, 20000000, false, None, 0);
    var team := Team("Team", None, 100000000, 0, [], "", "TM");
    var s0 := Store(map[1 := player], map[7 := team], None);
    var t := Transaction(1, 7, 20000000, 0);
    var s1 := Sell(s0, 1, 7, 20000000, 0).store;
    assert s1.teams[7].playersBought == [1];
    UndoThenRedoRecords(s1, [], t, []);
  }
}
