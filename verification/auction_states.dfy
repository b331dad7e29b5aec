/** The ledger document of server/models/AuctionState.js. */
module AuctionStates {
  import opened Common

  /** One completed sale. `amount` is the price paid; `timestamp` is the time
      of the sale in milliseconds. */
  datatype Transaction = Transaction(player: PlayerId, team: TeamId, amount: int, timestamp: int)

  /** The singleton ledger: the applied sales (`transactions`, most recent
      last) and the undone ones (`undoneTransactions`, most recently undone
      last), with the session fields the schema declares. */
  datatype AuctionState = AuctionState(
    isSessionActive: bool,
    currentTeamTurn: Option<TeamId>,
    lastSoldPlayer: Option<PlayerId>,
    transactions: seq<Transaction>,
    undoneTransactions: seq<Transaction>)

  /** A new ledger document; `isSessionActive` is `None` when the creator
      leaves it to its default. */
  function NewAuctionState(isSessionActive: Option<bool>): (st: AuctionState)
    ensures st.isSessionActive <==> isSessionActive == Some(true)
    ensures st.transactions == [] && st.undoneTransactions == []
    ensures st.currentTeamTurn == None && st.lastSoldPlayer == None
  {
    var active := match isSessionActive case Some(b) => b case None => false;
    AuctionState(active, None, None, [], [])
  }
}
