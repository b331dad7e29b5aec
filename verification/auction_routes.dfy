/** The /sell, /undo and /redo handlers of server/routes/auction.js as
    methods that update the collections in place, each proved to do what the
    `Ledger` function of the same name specifies. */
module AuctionRoutes {
  import opened Common
  import opened Players
  import opened Teams
  import opened AuctionStates
  import opened Ledger

  /** The three collections the handlers read and write: players and teams
      by id, and the singleton ledger document, absent until first needed. */
  class AuctionRouter {
    var players: map<PlayerId, Player>
    var teams: map<TeamId, Team>
    var state: Option<AuctionState>

    /** The collections as a value. */
    function Snapshot(): Store
      reads this
    {
      Store(players, teams, state)
    }

    /** A database holding the seeded players and teams and no ledger yet. */
    constructor (players: map<PlayerId, Player>, teams: map<TeamId, Team>)
      ensures Snapshot() == Store(players, teams, None)
    {
      this.players := players;
      this.teams := teams;
      this.state := None;
    }

    /** `getAuctionState`: the stored ledger, or a new one with an active
        session, saved before it is returned. */
    method GetAuctionState() returns (st: AuctionState)
      modifies this
      ensures st == CurrentState(old(state))
      ensures state == Some(st)
      ensures players == old(players) && teams == old(teams)
    {
      if state.None? {
        st := NewAuctionState(Some(true));
        state := Some(st);
      } else {
        st := state.value;
      }
    }

    /** POST /sell. */
    method Sell(playerId: PlayerId, teamId: TeamId, soldPrice: int, now: int) returns (r: Result<Sale, Error>)
      modifies this
      ensures Step(r, Snapshot()) == Ledger.Sell(old(Snapshot()), playerId, teamId, soldPrice, now)
    {
      ghost var before := Snapshot();
      if playerId !in players || teamId !in teams {
        return Err(PlayerOrTeamNotFound);
      }
      var player := players[playerId];
      var team := teams[teamId];
      if player.isSold {
        return Err(PlayerAlreadySold);
      }
      if team.purseRemaining < soldPrice {
        return Err(InsufficientPurse);
      }

      team := team.(purseRemaining := team.purseRemaining - soldPrice);
      team := team.(playersBought := team.playersBought + [playerId]);
      team := team.(totalRating := team.totalRating + player.rating);
      teams := teams[teamId := team];

      player := player.(isSold := true, soldTo := Some(teamId), soldPrice := soldPrice);
      players := players[playerId := player];

      var st := GetAuctionState();
      st := st.(transactions := st.transactions + [Transaction(playerId, teamId, soldPrice, now)]);
      st := st.(undoneTransactions := []);
      state := Some(st);

      r := Ok(Sale(player, team));
      ghost var t := Transaction(playerId, teamId, soldPrice, now);
      assert players == ApplySale(before, t).players;
      assert teams == ApplySale(before, t).teams;
      assert st == CurrentState(before.state).(transactions := CurrentState(before.state).transactions + [t],
                                               undoneTransactions := []);
    }

    /** POST /undo. */
    method Undo() returns (r: Result<Transaction, Error>)
      modifies this
      ensures Step(r, Snapshot()) == Ledger.Undo(old(Snapshot()))
    {
      ghost var before := Snapshot();
      var st := GetAuctionState();
      if |st.transactions| == 0 {
        return Err(NothingToUndo);
      }

      var lastTransaction := st.transactions[|st.transactions| - 1];
      st := st.(transactions := st.transactions[..|st.transactions| - 1]);
      var playerId, teamId, amount := lastTransaction.player, lastTransaction.team, lastTransaction.amount;

      if playerId in players && teamId in teams {
        var player := players[playerId];
        var team := teams[teamId];
        team := team.(purseRemaining := team.purseRemaining + amount);
        team := team.(playersBought := RemoveAll(team.playersBought, playerId));
        team := team.(totalRating := team.totalRating - player.rating);
        teams := teams[teamId := team];

        player := player.(isSold := false, soldTo := None, soldPrice := 0);
        players := players[playerId := player];

        st := st.(undoneTransactions := st.undoneTransactions + [lastTransaction]);
        state := Some(st);
        r := Ok(lastTransaction);
        assert players == ReverseSale(before, lastTransaction).players;
        assert teams == ReverseSale(before, lastTransaction).teams;
        assert Ledger.Undo(before) == Step(r, ReverseSale(before, lastTransaction).(state := Some(st)));
      } else {
        state := Some(st);
        r := Err(UndoTargetNotFound);
        assert Ledger.Undo(before) == Step(r, before.(state := Some(st)));
      }
    }

    /** POST /redo. */
    method Redo() returns (r: Result<(), Error>)
      modifies this
      ensures Step(r, Snapshot()) == Ledger.Redo(old(Snapshot()))
    {
      ghost var before := Snapshot();
      var st := GetAuctionState();
      if |st.undoneTransactions| == 0 {
        return Err(NothingToRedo);
      }

      var transactionToRedo := st.undoneTransactions[|st.undoneTransactions| - 1];
      st := st.(undoneTransactions := st.undoneTransactions[..|st.undoneTransactions| - 1]);
      var playerId, teamId, amount := transactionToRedo.player, transactionToRedo.team, transactionToRedo.amount;

      if playerId in players && teamId in teams {
        var player := players[playerId];
        var team := teams[teamId];
        team := team.(purseRemaining := team.purseRemaining - amount);
        team := team.(playersBought := team.playersBought + [playerId]);
        team := team.(totalRating := team.totalRating + player.rating);
        teams := teams[teamId := team];

        player := player.(isSold := true, soldTo := Some(teamId), soldPrice := amount);
        players := players[playerId := player];

        st := st.(transactions := st.transactions + [transactionToRedo]);
        state := Some(st);
        r := Ok(());
        assert players == ApplySale(before, transactionToRedo).players;
        assert teams == ApplySale(before, transactionToRedo).teams;
      } else {
        state := Some(st);
        r := Err(RedoTargetNotFound);
      }
    }
  }
}
