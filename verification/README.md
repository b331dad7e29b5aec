# Auction ledger

A model of the sale ledger behind a cricket-player auction server. An admin
sells a player to a team (`POST /sell`). The player's price comes out of the
team's purse, the player joins the team's roster and adds their rating to
the team's total. The sale is recorded on a transaction history. `POST /undo`
takes back the latest sale and moves it onto a redo stack. `POST /redo`
re-applies the latest undone sale. Any new sale empties the redo stack. The
auction state holding both stacks is a single record, created lazily the
first time it is asked for.

The project has these parts:

- `common.dfy`: `Option`, `Result` and the id types.
- `players.dfy`, `teams.dfy` and `auction_states.dfy`: the three stored
  schemas as datatypes, with constructors that apply their defaults and
  required-field rules.
- `ledger.dfy`: the three handlers as pure functions from a `Store` (players,
  teams, optional auction state) to a response and a new store. Every
  400 and 404 path is modelled.
- `ledger_invariant.dfy` and `ledger_preservation.dfy`: a consistency
  invariant and proofs that every handler preserves it. The invariant says:
  - the history and the redo stack mention distinct players;
  - a player is sold exactly when they are on the history;
  - each roster and total rating is what the history implies;
  - no purse can go negative, however far the stacks are undone or redone.
- `ledger_round_trips.dfy`: undo/redo, redo/undo and sell/undo round trips.
- `auction_routes.dfy`: the handlers step by step, as a class whose fields
  are the three stored collections. Each method is proved equal to the
  ledger function.
- `squads.dfy`: the client's per-role tally of a squad, as a loop.

Where the code and its description differ, the model follows the code:

- `/sell` does not check that the price is positive. Zero and negative
  prices are accepted, and a negative price raises the purse. So the
  invariant says "sold exactly when owned", not "sold exactly when the price
  is positive".
- A failed undo or redo still creates and saves the auction state when it was
  missing.
- When undo or redo finds the popped sale's player or team gone, the popped
  sale is saved off its stack and pushed onto neither. It is lost.
- Undo subtracts the player's *current* rating and removes *every*
  occurrence of the player from the roster (Mongoose `pull`).
- `/redo` does not re-check the purse or whether the player is sold.
  `LedgerSafety.RedoNeedsNoChecks` proves that, in a consistent store, those
  checks would always pass.

## Model

| member | source | states |
|---|---|---|
| Players.CategoryName | server/models/Player.js:5 | every category maps to one of the four allowed names |
| Players.ParseCategory | server/models/Player.js:5 | a string is accepted exactly when it is one of the four enum names, and parses back to the category with that name |
| Players.NewPlayer | server/models/Player.js:3-11 | creation succeeds exactly when the name is non-empty, the category is in the enum, and rating and base price are given; the first failing field in schema order yields its own error, with an empty category reported as missing before the enum is consulted; submitted sale fields are kept and absent ones take their defaults, so a player created without them is unsold with no owner and sold price 0 |
| Teams.NewTeam | server/models/Team.js:3-11 | creation succeeds exactly when name and short code are non-empty; a missing name is reported first, then a missing short code; the purse defaults to 1000000000; total rating 0, empty roster, empty logo |
| AuctionStates.NewAuctionState | server/models/AuctionState.js:3-19 | session active only when asked for; no current team or last sold player; both stacks empty |
| Ledger.CurrentState | server/routes/auction.js:31-38 | an existing state is returned unchanged; otherwise a fresh active state with empty stacks |
| Ledger.RemoveAll | server/routes/auction.js:114 | the result holds exactly the ids of the roster other than the removed one, and is the roster itself when the id is absent |
| Ledger.RemoveAllCounts | server/routes/auction.js:114 | every id other than the removed one occurs in the result exactly as often as in the roster, and the removed one not at all |
| Ledger.RemoveAllSingle | server/routes/auction.js:114 | on a one-id roster the id survives exactly when it is not the removed one |
| Ledger.RemoveAllAppend | server/routes/auction.js:114 | removal distributes over concatenation, so the surviving ids keep their order |
| Ledger.ApplySale | server/routes/auction.js:54-64 | the team's purse falls by the amount, the player joins the end of its roster, its rating rises by the player's rating, and the player is sold to it at the amount; every other record is unchanged |
| Ledger.ReverseSale | server/routes/auction.js:112-121 | the purse rises by the amount, the player leaves the roster, the rating falls by the player's rating, and the player is unsold; every other record is unchanged |
| Ledger.Sell | server/routes/auction.js:41-95 | succeeds exactly when player and team exist, the player is unsold and the purse covers the price; each refusal names its cause and changes nothing; on success the sale is applied, pushed on the history, and the redo stack is emptied |
| Ledger.Undo | server/routes/auction.js:98-145 | with an empty history, refuses but saves a lazily created state; otherwise pops the latest sale and either reverses it and pushes it on the redo stack, or (player or team gone) reports not found with the records unchanged and the sale dropped |
| Ledger.Redo | server/routes/auction.js:148-197 | with an empty redo stack, refuses but saves the state; otherwise pops the latest undone sale and either re-applies it and pushes it on the history, or reports not found with the sale dropped |
| LedgerInvariant.RosterInStack | server/routes/auction.js:56 | every id on the roster the history implies belongs to a sale on the history |
| LedgerInvariant.RatingSumFrame | server/routes/auction.js:57 | a roster's rating total depends only on the players on it |
| LedgerInvariant.RemoveAllSnoc | server/routes/auction.js:114 | removing an id that was pushed onto a roster without it gives that roster back |
| LedgerPreservation.ForwardStep | server/routes/auction.js:54-73 | applying a sale of an unsold player keeps the invariant, either as a fresh sale the purse covers (redo stack emptied) or as the top of the redo stack |
| LedgerPreservation.BackwardStep | server/routes/auction.js:111-124 | reversing the latest sale keeps the invariant with that sale moved to the redo stack |
| LedgerSafety.InitialStoreConsistent | server/routes/auction.js:31-38 | unsold players, empty rosters, zero ratings, non-negative purses and an empty history and redo stack make a consistent store |
| LedgerSafety.SellKeepsConsistent | server/routes/auction.js:41-95 | `/sell` keeps a consistent store consistent |
| LedgerSafety.UndoKeepsConsistent | server/routes/auction.js:98-145 | `/undo` keeps a consistent store consistent |
| LedgerSafety.RedoKeepsConsistent | server/routes/auction.js:148-197 | `/redo` keeps a consistent store consistent |
| LedgerSafety.PursesNonNegative | server/routes/auction.js:52 | in a consistent store no team's purse is negative |
| LedgerSafety.RedoNeedsNoChecks | server/routes/auction.js:155-171 | in a consistent store the sale on top of the redo stack names an existing, unsold player; redo succeeds and leaves every purse non-negative |
| LedgerSafety.StacksDisjoint | server/routes/auction.js:73 | in a consistent store no player is on both the history and the redo stack |
| LedgerSafety.SoldOnlyOnce | server/routes/auction.js:51 | after a successful sale, selling the same player again to any existing team is refused as already sold and changes nothing |
| LedgerSafety.LedgerKeepsNamesUnique | server/models/Team.js:4 | sell, undo and redo keep team names unique |
| LedgerRoundTrips.ReverseAfterApply | server/routes/auction.js:54-64 | reversing a sale just applied to an unsold, unlisted player restores every record |
| LedgerRoundTrips.ApplyAfterReverse | server/routes/auction.js:112-121 | re-applying a sale just reversed restores every record |
| LedgerRoundTrips.UndoThenRedo | server/routes/auction.js:98-197 | in a consistent store with a history, undo succeeds and redo after it gives back exactly the store before |
| LedgerRoundTrips.RedoThenUndo | server/routes/auction.js:98-197 | in a consistent store with a redo stack, redo succeeds and undo after it gives back exactly the store before, returning the redone sale |
| LedgerRoundTrips.SellThenUndo | server/routes/auction.js:41-145 | a successful sale followed by undo restores every player and team and the history, and leaves only that sale on the redo stack |
| LedgerRoundTrips.SellUndoRedoExample | server/routes/auction.js:41-197 | a purse of 100000000 falls to 80000000 when a player rated 90 is bought for 20000000; undo restores the team and player, and redo restores the post-sale records |
| AuctionRoutes.AuctionRouter.constructor | server/routes/auction.js:31-33 | the router starts with the given players and teams and no auction state |
| AuctionRoutes.AuctionRouter.GetAuctionState | server/routes/auction.js:31-38 | returns the stored state, or creates, stores and returns a fresh one; players and teams untouched |
| AuctionRoutes.AuctionRouter.Sell | server/routes/auction.js:41-95 | response and new fields are exactly those of `Ledger.Sell` on the old fields |
| AuctionRoutes.AuctionRouter.Undo | server/routes/auction.js:98-145 | response and new fields are exactly those of `Ledger.Undo` on the old fields |
| AuctionRoutes.AuctionRouter.Redo | server/routes/auction.js:148-197 | response and new fields are exactly those of `Ledger.Redo` on the old fields |
| Squads.KnownCount | client/src/pages/Squads.jsx:31-33 | the number of entries with a known role is at most the squad size |
| Squads.TalliesAddUp | client/src/pages/Squads.jsx:28-34 | the four per-role tallies add up to the number of entries with a known role |
| Squads.AllCountedIffAllKnown | client/src/pages/Squads.jsx:28-34 | the tallies add up to the squad size exactly when every entry has a known role |
| Squads.StoredRosterFullyCounted | client/src/pages/Squads.jsx:28-34 | for stored players, whose category is always in the enum, every player is counted |
| Squads.GetRoleCounts | client/src/pages/Squads.jsx:28-34 | the result has exactly the four role keys, each holding how many entries have that role; unknown roles are ignored |

## Left out

- Persistence: each handler saves team, player and state one at a time,
  without a transaction. A failure between saves, which would leave a
  partial update, is not modelled; each handler is one atomic step.
- The 500 response each handler's `catch` sends (a cast error on a
  malformed id, a failed read or save) is not modelled. Only the 400 and 404
  refusals are.
- Concurrency: concurrent requests interleaving their reads and saves are not
  modelled. `LedgerSafety.SoldOnlyOnce` covers only two sales in a row.
- Socket broadcasts (`player_sold`, `auction_undo`, `teams_update`), the
  populated team list they carry, and the JSON response bodies are not
  modelled. Responses are `Result` values.
- Authentication and the admin-only guard are not modelled. The requests are
  assumed to come from an admin.
- Prices, purses and ratings are integers. JavaScript numbers (fractions,
  `NaN`, strings coerced by `<`) are not modelled.
- Transaction timestamps are the `now` parameter. There is no clock.
- Mongoose ids are natural numbers. A malformed id is treated as not found,
  not as a cast error.
- Players.NewPlayer, Teams.NewTeam: a validation failure reports a single
  error, chosen by a fixed field order. Mongoose collects all failing fields.
  Players.NewPlayer takes the sale fields as submitted and does not promise
  that they agree with each other (a creator may submit `isSold` without
  `soldTo`); `LedgerSafety.InitialStoreConsistent` assumes players that were
  created with the defaults.
- Teams.NewTeam: the unique index on team names is enforced by the
  database. `LedgerSafety.LedgerKeepsNamesUnique` shows the ledger keeps it.
- Squads.GetRoleCounts: the input is the list of category strings. Object
  prototype keys such as `toString`, which the JavaScript lookup would also
  see, are not modelled.
- The routes that only read or create records (`POST /players`, listing
  players and teams) and the client's price parsing are not part of this
  model.
- AuctionRoutes.AuctionRouter.Sell, Undo, Redo: these methods state equality
  with the ledger functions. The consistency invariant is proved about those
  functions (`LedgerSafety`), not restated on the methods.
