/** The auction ledger of server/routes/auction.js as functions on a value
    `Store`: the players and teams collections keyed by id, and the singleton
    ledger document, which does not exist until it is first needed. */
module Ledger {
  import opened Common
  import opened Players
  import opened Teams
  import opened AuctionStates

  datatype Store = Store(
    players: map<PlayerId, Player>,
    teams: map<TeamId, Team>,
    state: Option<AuctionState>)

  /** The failures the handlers report (404 for the three not-found cases,
      400 for the others). */
  datatype Error =
    | PlayerOrTeamNotFound
    | PlayerAlreadySold
    | InsufficientPurse
    | NothingToUndo
    | UndoTargetNotFound
    | NothingToRedo
    | RedoTargetNotFound

  /** The body of a successful /sell response: the updated player and team. */
  datatype Sale = Sale(player: Player, team: Team)

  /** What an operation answers, and the store it leaves behind. */
  datatype Step<T> = Step(response: Result<T, Error>, store: Store)

  /** The applied-sales stack; empty while no ledger document exists. */
  function Applied(s: Store): (applied: seq<Transaction>) {
    match s.state
    case Some(st) => st.transactions
    case None => []
  }

  /** The undone-sales (redo) stack; empty while no ledger document exists. */
  function Undone(s: Store): (undone: seq<Transaction>) {
    match s.state
    case Some(st) => st.undoneTransactions
    case None => []
  }

  /** The ledger document as `getAuctionState` returns it: the stored one, or
      a new one with an active session and both stacks empty. */
  function CurrentState(state: Option<AuctionState>): (st: AuctionState)
    ensures state.Some? ==> st == state.value
    ensures state.None? ==>
      && st.isSessionActive
      && st.transactions == [] && st.undoneTransactions == []
      && st.currentTeamTurn == None && st.lastSoldPlayer == None
  {
    match state
    case Some(existing) => existing
    case None => NewAuctionState(Some(true))
  }

  /** The session fields of two ledger documents agree. */
  predicate SameSession(a: AuctionState, b: AuctionState) {
    && a.isSessionActive == b.isSessionActive
    && a.currentTeamTurn == b.currentTeamTurn
    && a.lastSoldPlayer == b.lastSoldPlayer
  }

  /** Mongoose's `pull`: every occurrence of `x` is removed, the other ids
      keep their order. */
  function RemoveAll(ids: seq<PlayerId>, x: PlayerId): (r: seq<PlayerId>)
    ensures forall y :: y in r <==> y in ids && y != x
    ensures x !in ids ==> r == ids
    decreases |ids|
  {
    if ids == [] then []
    else
      var init, last := ids[..|ids| - 1], ids[|ids| - 1];
      assert ids == init + [last];
      RemoveAll(init, x) + (if last == x then [] else [last])
  }

  /** `pull` keeps every other id exactly as often as it occurred. */
  lemma {:induction false} RemoveAllCounts(ids: seq<PlayerId>, x: PlayerId)
    ensures multiset(RemoveAll(ids, x)) == multiset(ids)[x := 0]
    decreases |ids|
  {
    if ids != [] {
      var init, last := ids[..|ids| - 1], ids[|ids| - 1];
      assert ids == init + [last];
      RemoveAllCounts(init, x);
      assert multiset(ids) == multiset(init) + multiset{last};
    }
  }

  /** `pull` from a single-id list keeps that id unless it is the one pulled. */
  lemma RemoveAllSingle(y: PlayerId, x: PlayerId)
    ensures RemoveAll([y], x) == if y == x then [] else [y]
  {
  }

  /** `pull` works piecewise: the ids that survive keep their order, so the
      result on a concatenation is the concatenation of the results. */
  lemma {:induction false} RemoveAllAppend(a: seq<PlayerId>, b: seq<PlayerId>, x: PlayerId)
    ensures RemoveAll(a + b, x) == RemoveAll(a, x) + RemoveAll(b, x)
    decreases |b|
  {
    if b == [] {
      assert a + b == a;
    } else {
      var init, last := b[..|b| - 1], b[|b| - 1];
      assert b == init + [last];
      assert a + b == (a + init) + [last];
      assert (a + b)[..|a + b| - 1] == a + init;
      RemoveAllAppend(a, init, x);
    }
  }

  /** The fields a sale or its reversal never touches. */
  predicate SamePlayerIdentity(a: Player, b: Player) {
    a.name == b.name && a.category == b.category && a.rating == b.rating && a.basePrice == b.basePrice
  }

  /** The fields a sale or its reversal never touches. */
  predicate SameTeamIdentity(a: Team, b: Team) {
    a.name == b.name && a.userId == b.userId && a.logo == b.logo && a.shortCode == b.shortCode
  }

  /** No document is created or deleted, and only the given player and team
      may differ. */
  ghost predicate OnlyTouches(s: Store, s': Store, pid: PlayerId, tid: TeamId) {
    && s'.players.Keys == s.players.Keys
    && s'.teams.Keys == s.teams.Keys
    && (forall q :: q in s.players && q != pid ==> s'.players[q] == s.players[q])
    && (forall u :: u in s.teams && u != tid ==> s'.teams[u] == s.teams[u])
  }

  /** `s'` is `s` with sale `t` applied to its player and team: the purse
      debited by the amount, the player appended to the roster, the player's
      rating added, and the player marked sold to the team at the amount. */
  ghost predicate SaleApplied(s: Store, s': Store, t: Transaction)
    requires t.player in s.players && t.team in s.teams
  {
    && OnlyTouches(s, s', t.player, t.team)
    && var p, p' := s.players[t.player], s'.players[t.player];
    && var m, m' := s.teams[t.team], s'.teams[t.team];
    && SameTeamIdentity(m, m')
    && m'.purseRemaining == m.purseRemaining - t.amount
    && m'.playersBought == m.playersBought + [t.player]
    && m'.totalRating == m.totalRating + p.rating
    && SamePlayerIdentity(p, p')
    && p'.isSold && p'.soldTo == Some(t.team) && p'.soldPrice == t.amount
  }

  /** `s'` is `s` with sale `t` reversed: the amount refunded, every
      occurrence of the player dropped from the roster, the player's current
      rating subtracted, and the player reset to unsold. */
  ghost predicate SaleReversed(s: Store, s': Store, t: Transaction)
    requires t.player in s.players && t.team in s.teams
  {
    && OnlyTouches(s, s', t.player, t.team)
    && var p, p' := s.players[t.player], s'.players[t.player];
    && var m, m' := s.teams[t.team], s'.teams[t.team];
    && SameTeamIdentity(m, m')
    && m'.purseRemaining == m.purseRemaining + t.amount
    && m'.playersBought == RemoveAll(m.playersBought, t.player)
    && m'.totalRating == m.totalRating - p.rating
    && SamePlayerIdentity(p, p')
    && Unsold(p')
  }

  /** The record updates shared by /sell and /redo. */
  function ApplySale(s: Store, t: Transaction): (s': Store)
    requires t.player in s.players && t.team in s.teams
    ensures SaleApplied(s, s', t) && s'.state == s.state
  {
    var p, m := s.players[t.player], s.teams[t.team];
    var m' := m.(purseRemaining := m.purseRemaining - t.amount,
                 playersBought := m.playersBought + [t.player],
                 totalRating := m.totalRating + p.rating);
    var p' := p.(isSold := true, soldTo := Some(t.team), soldPrice := t.amount);
    s.(teams := s.teams[t.team := m'], players := s.players[t.player := p'])
  }

  /** The record updates of /undo. */
  function ReverseSale(s: Store, t: Transaction): (s': Store)
    requires t.player in s.players && t.team in s.teams
    ensures SaleReversed(s, s', t) && s'.state == s.state
  {
    var p, m := s.players[t.player], s.teams[t.team];
    var m' := m.(purseRemaining := m.purseRemaining + t.amount,
                 playersBought := RemoveAll(m.playersBought, t.player),
                 totalRating := m.totalRating - p.rating);
    var p' := p.(isSold := false, soldTo := None, soldPrice := 0);
    s.(teams := s.teams[t.team := m'], players := s.players[t.player := p'])
  }

  /** POST /sell. The checks run in order and the first failure wins; a
      failure changes nothing, not even the ledger's lazy creation. The price
      is not required to be positive. */
  function Sell(s: Store, playerId: PlayerId, teamId: TeamId, soldPrice: int, now: int): (r: Step<Sale>)
    ensures r.response.Ok? <==>
      && playerId in s.players && teamId in s.teams
      && !s.players[playerId].isSold
      && s.teams[teamId].purseRemaining >= soldPrice
    ensures r.response == Err(PlayerOrTeamNotFound) <==> playerId !in s.players || teamId !in s.teams
    ensures r.response == Err(PlayerAlreadySold) <==>
      playerId in s.players && teamId in s.teams && s.players[playerId].isSold
    ensures r.response == Err(InsufficientPurse) <==>
      && playerId in s.players && teamId in s.teams
      && !s.players[playerId].isSold
      && s.teams[teamId].purseRemaining < soldPrice
    ensures r.response.Err? ==> r.store == s
    ensures r.response.Ok? ==>
      var t := Transaction(playerId, teamId, soldPrice, now);
      && SaleApplied(s, r.store, t)
      && r.store.state.Some?
      && SameSession(r.store.state.value, CurrentState(s.state))
      && Applied(r.store) == Applied(s) + [t]
      && Undone(r.store) == []
      && r.response.value == Sale(r.store.players[playerId], r.store.teams[teamId])
  {
    if playerId !in s.players || teamId !in s.teams then Step(Err(PlayerOrTeamNotFound), s)
    else if s.players[playerId].isSold then Step(Err(PlayerAlreadySold), s)
    else if s.teams[teamId].purseRemaining < soldPrice then Step(Err(InsufficientPurse), s)
    else
      var t := Transaction(playerId, teamId, soldPrice, now);
      var st := CurrentState(s.state);
      var s' := ApplySale(s, t).(state := Some(st.(transactions := st.transactions + [t],
                                                   undoneTransactions := [])));
      Step(Ok(Sale(s'.players[playerId], s'.teams[teamId])), s')
  }

  /** POST /undo. The ledger document is created first if missing. With an
      empty history nothing else changes. Otherwise the latest sale is popped;
      if its player and team both exist the sale is reversed and moved to the
      redo stack, and if not it is dropped from both stacks. */
  function Undo(s: Store): (r: Step<Transaction>)
    ensures r.store.state.Some? && SameSession(r.store.state.value, CurrentState(s.state))
    ensures Applied(s) == [] ==>
      r.response == Err(NothingToUndo) && r.store == s.(state := Some(CurrentState(s.state)))
    ensures Applied(s) != [] ==>
      var t := Applied(s)[|Applied(s)| - 1];
      && Applied(r.store) == Applied(s)[..|Applied(s)| - 1]
      && (t.player in s.players && t.team in s.teams ==>
            && r.response == Ok(t)
            && SaleReversed(s, r.store, t)
            && Undone(r.store) == Undone(s) + [t])
      && (t.player !in s.players || t.team !in s.teams ==>
            && r.response == Err(UndoTargetNotFound)
            && r.store.players == s.players && r.store.teams == s.teams
            && Undone(r.store) == Undone(s))
  {
    var st := CurrentState(s.state);
    if |st.transactions| == 0 then Step(Err(NothingToUndo), s.(state := Some(st)))
    else
      var t := st.transactions[|st.transactions| - 1];
      var popped := st.(transactions := st.transactions[..|st.transactions| - 1]);
      if t.player in s.players && t.team in s.teams then
        var st' := popped.(undoneTransactions := popped.undoneTransactions + [t]);
        Step(Ok(t), ReverseSale(s, t).(state := Some(st')))
      else
        Step(Err(UndoTargetNotFound), s.(state := Some(popped)))
  }

  /** POST /redo. The ledger document is created first if missing. With an
      empty redo stack nothing else changes. Otherwise the most recently undone
      sale is popped; if its player and team both exist it is applied again at
      its recorded amount, with neither the sold flag nor the purse checked,
      and pushed back on the history; if not it is dropped from both stacks. */
  function Redo(s: Store): (r: Step<()>)
    ensures r.store.state.Some? && SameSession(r.store.state.value, CurrentState(s.state))
    ensures Undone(s) == [] ==>
      r.response == Err(NothingToRedo) && r.store == s.(state := Some(CurrentState(s.state)))
    ensures Undone(s) != [] ==>
      var t := Undone(s)[|Undone(s)| - 1];
      && Undone(r.store) == Undone(s)[..|Undone(s)| - 1]
      && (t.player in s.players && t.team in s.teams ==>
            && r.response == Ok(())
            && SaleApplied(s, r.store, t)
            && Applied(r.store) == Applied(s) + [t])
      && (t.player !in s.players || t.team !in s.teams ==>
            && r.response == Err(RedoTargetNotFound)
            && r.store.players == s.players && r.store.teams == s.teams
            && Applied(r.store) == Applied(s))
  {
    var st := CurrentState(s.state);
    if |st.undoneTransactions| == 0 then Step(Err(NothingToRedo), s.(state := Some(st)))
    else
      var t := st.undoneTransactions[|st.undoneTransactions| - 1];
      var popped := st.(undoneTransactions := st.undoneTransactions[..|st.undoneTransactions| - 1]);
      if t.player in s.players && t.team in s.teams then
        var st' := popped.(transactions := popped.transactions + [t]);
        Step(Ok(()), ApplySale(s, t).(state := Some(st')))
      else
        Step(Err(RedoTargetNotFound), s.(state := Some(popped)))
  }
}
