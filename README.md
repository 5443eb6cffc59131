# Agar.io clone with SOL stakes — a Dafny model of its game rules

This project models the authoritative rules of a multiplayer cell-growth
game in which every player joins with a Solana wallet and a SOL stake. The
server (`src/server/server.js`) runs a 60 Hz tick in which every cell of every
player eats the food, ejected mass pellets and viruses it contains. When one
player's cell is eaten by another's, the whole stake of the eaten player moves
to the eater, and the eaten player's record goes with its last cell. Once a
second the leaderboard is recomputed, and it is sent to clients only when its
list of ids changed. A player can cash its stake out; the balance is zeroed
only when the transfer reports success. A join is admitted only through an
ordered series of checks.

Beside the server, the project models the wallet-keyed registry of active
players and the fee split of `public/server/game-rules.js`, and the pure
helpers of the browser client `src/client/js/app.js`: address shortening,
the unnamed-cell test, the world-to-screen translation and the sorted draw
list.

Layout, one module per file:

- `wrappers.dfy` — `Option`, for JavaScript's `null`.
- `seqs.dfy` — order-preserving filtering, which models `util.getIndexes`
  followed by `delete`, plus removal at an index and sums over sequences.
- `entities.dfy` — configuration, cells, food, pellets, viruses, players,
  leaderboard entries, emitted messages, and the `canEatMass` and
  `canEatVirus` predicates.
- `eating.dfy` — the cell loop of `tickPlayer` as a specification function
  `TickUpTo`, with lemmas that describe its outcome without reference to
  the loop order.
- `settlement.dfy` — the elimination callback of `tickGame` as a function on
  the player store: the stake transfer, the growth of the eater and the
  removal of the eaten player.
- `leaderboard.dfy` — valuation, enrichment, the change test and the
  messages of `sendUpdates`.
- `commands.dfy` — fire food, the join gate and cash-out, as functions.
- `sanitize.dfy` — the tag-stripping `replace(/(<([^>]+)>)/ig, '')` and the
  35-character chat cut.
- `game_rules.dfy` — the `activePlayers` registry as a class whose methods
  are proved against pure map transitions, plus the stubs and the fee split.
- `server.dfy` — the server state as one class (`GameServer.Server`). Each
  handler is a method proved against the functions above. The cell loop, the
  fire-food loop, the leaderboard loop and the broadcast loops are `while`
  loops with invariants. The players loop of `tickGame` is proved against
  `TickAll`, a fold that ticks each player against the stores the players
  before it left.
- `client.dfy` — the client helpers, with the nested loops that build
  `cellsToDraw` as a method.

Modelling choices:

- Masses, positions and balances are JavaScript doubles and are modelled as
  `real`; only properties that hold over the reals are stated.
- A missing wallet (`undefined` or `''`, both falsy) is the empty string.
- Players are values in the sequence `players`, in store order. An eaten
  record is removed at its index, and later players move down by one.
- The messages the server emits are appended to an `events` log in emission
  order. Each `virusSplit` call is appended to `splitRequests`.
- Foreign and random inputs are parameters of the handlers:
  - the verdict of `util.validNick`;
  - whether `new PublicKey(wallet)` parses;
  - what `solana.sendReward` reports;
  - the spawn point;
  - the list `getTopPlayers` returns;
  - the clock (`now`).
- `SAT.pointInCircle` is the closed-disc test `dx² + dy² <= r²`.
- Helpers whose code is not shown are given only the meaning their call
  sites rely on:
  - `util.massToRadius` is the configuration field `massToRadius`, a
    function from mass to radius;
  - `changeCellMass(i, d)` adds `d` to cell `i`'s mass and sets its radius
    to `massToRadius` of the new mass, and a new player's cell starts with
    the radius of the starting mass. Every cell in the store therefore
    keeps the radius of its mass (`Entities.PlayersSized`, part of the
    server's invariant);
  - `removeCell` removes the cell and reports whether it was the last one;
  - `hasPaidEntryFee` is the stub that accepts every wallet.
- `server.js` loads `game-rules` from its own directory. The model takes that
  module to be `public/server/game-rules.js`.

Behaviours of the code that a reader might expect to be otherwise; the model
follows the code as written:

- One might expect a cash-out to block a second request while its transfer
  is pending. There is no such guard: two requests that both see a positive
  balance before either transfer completes can both be paid, and the model
  makes no claim against that.
- One might expect the leaderboard to be refreshed whenever masses change.
  It is replaced only when the length or an id differs, so a board with the
  same ids keeps its stale masses and valuations.
- One might expect an ejected pellet to be protected from its own cell for a
  fixed time. It is protected only while it still moves (`speed > 0`).
- One might expect a disconnect to remove the player or start a grace
  period. It only broadcasts a message; the player stays with its cells and
  its stake, and `handleDisconnect` of the registry is never called by the
  server.
- One might expect `removePlayer` of the registry to delete the record of a
  dead player. It deletes only records whose `isAlive` is false, nothing
  ever sets `isAlive` to false, so the server's call on a death never
  deletes anything.

## Model

| member | source | states |
|---|---|---|
| `Entities.CanEatMass` | src/server/server.js:62-70 | a pellet is edible iff its centre is inside the cell, it is not the moving pellet of the same player's same cell index, and the cell's mass exceeds 1.1 times the pellet's |
| `Entities.Resized` | src/server/server.js:95 | a cell whose mass changes by a delta keeps its position, has exactly the new mass, and gets the radius of that mass |
| `Entities.WithCellMass` | src/server/server.js:95 | `changeCellMass` changes only cell `i`, to its mass plus the delta with the radius of that mass, keeps every cell sized, and raises the cells' total mass by exactly the delta |
| `Entities.FindById` | src/server/server.js:242 | the found index holds the first player with that id; `None` iff no player has it |
| `Eating.TickLeavesSurvivors` | src/server/server.js:77-96 | after the cell loop each store holds exactly the entities, in original order, that no cell could eat |
| `Eating.TickGain` | src/server/server.js:90-95 | a cell's gain is the mass of the pellets it may eat that no earlier cell could, plus `foodMass` per food inside it and inside no earlier cell |
| `Eating.TickSplits` | src/server/server.js:85-88 | `cellsToSplit` is increasing, holds each index once, and holds exactly the cells that are first to be able to eat some virus |
| `Eating.TickConservesMass` | src/server/server.js:85-94 | the gains add up to exactly the pellet and food mass that leaves the stores |
| `Eating.TickPlayerConservesMass` | src/server/server.js:77-96 | the player's cell mass plus pellet and food mass is unchanged by the cell loop |
| `Eating.Grown` | src/server/server.js:95 | each cell grows by exactly its own gain and gets the radius of its new mass, and the total mass grows by the sum of the gains |
| `Settlement.Settle` | src/server/server.js:111-149 | the store loses exactly one record when the eaten cell was its player's last, and none otherwise |
| `Settlement.SettleKeepsBystanders` | src/server/server.js:111-149 | every other player is unchanged, shifted down one place when the eaten record before it is removed |
| `Settlement.SettleRewardsEater` | src/server/server.js:122-138 | the eater's balance grows by the eaten player's balance iff both have wallets; its eating cell gains exactly the eaten cell's mass and the radius of its new mass; its other cells are unchanged |
| `Settlement.SettleChargesEaten` | src/server/server.js:122-147 | a dying eaten player has no record left; a surviving one has balance 0 if the stake moved, otherwise its old balance, and lost exactly the eaten cell |
| `Settlement.SettleKeepsSized` | src/server/server.js:138-147 | after an elimination every cell of every remaining player still has the radius of its mass |
| `Settlement.SettleConservesStakes` | src/server/server.js:122-147 | the sum of balances is unchanged, except that a stake without a transfer leaves with its dying record |
| `Settlement.SettleConservesMass` | src/server/server.js:138-147 | the total cell mass of all players is unchanged by an elimination |
| `Settlement.CollisionEvents` | src/server/server.js:128-146 | three stake messages exactly when the stake moves, two death messages exactly when the player dies |
| `Settlement.CollisionEventsAgree` | src/server/server.js:128-146 | the balances announced are the new balances, the reward equals the eater's gain with fee 0, and 'RIP' is sent iff the record is removed |
| `Commands.Fired` | src/server/server.js:437-438 | a cell at or above `defaultPlayerMass + fireFood` loses exactly `fireFood` and gets the radius of its new mass; a lighter cell is unchanged; the position never changes |
| `Commands.FiredCells` | src/server/server.js:436-441 | every cell is treated by the firing rule, the count unchanged, and sized cells stay sized |
| `Commands.PelletsOfFiringCells` | src/server/server.js:436-441 | exactly one pellet per firing cell, in cell order, owned by the player, of mass `fireFood` and carrying its cell's index |
| `Commands.FireConservesMass` | src/server/server.js:436-441 | the cells lose exactly the mass the new pellets carry |
| `Commands.Admission` | src/server/server.js:271-305 | the join is admitted iff all five checks pass; each rejection reason holds iff its check is the first to fail |
| `Commands.KickMessage` | src/server/server.js:271-302 | a 'kick' precedes the disconnect for every reason except an id that is already present |
| `Commands.RejectionEvents` | src/server/server.js:271-305 | a rejected socket always ends with a forced disconnect, preceded iff the reason has a kick text by the `Kick` carrying exactly that text |
| `Commands.HasPaidEntryFee` | src/server/server.js:101-105 | the entry-fee check accepts every wallet |
| `Commands.FeeNeverRejects` | src/server/server.js:299-305 | with the stub, no join is rejected for the fee |
| `Commands.CashOutOutcome` | src/server/server.js:242-260 | missing player or wallet, non-positive balance, success and failure each hold iff their conditions do; a payout is the whole positive balance |
| `Commands.Payout` | src/server/server.js:254-255 | only the requester's balance changes, and only to 0 on a successful payout |
| `Commands.CashOutEvents` | src/server/server.js:244-259 | the result message always comes last; `SolBalanceUpdate(socket, 0)` precedes it iff the payout succeeded |
| `Commands.PayoutConservesStakes` | src/server/server.js:247-255 | the sum of balances falls by exactly the amount paid, and not at all otherwise |
| `Commands.SendReward` | src/server/solana.js:43-46 | `sendReward` reports success only when the game wallet is set |
| `Commands.NoGameWalletNoPayout` | src/server/server.js:253-255 | without a game wallet no cash-out succeeds and no balance changes |
| `Leaderboard.ValuationOfStartingMass` | src/server/server.js:159 | a player at the starting mass is valued at exactly the entry fee |
| `Leaderboard.ValuationLinear` | src/server/server.js:159 | valuation is additive and monotone in mass |
| `Leaderboard.Enrich` | src/server/server.js:156-160 | one entry per top player, in order, with its fields and its valuation |
| `Leaderboard.BoardDiffersIffIds` | src/server/server.js:162-173 | the change test holds iff the id lists differ; names, masses and valuations are not compared |
| `Leaderboard.UpdateEventsShape` | src/server/server.js:208-217 | the log has one message per recipient, two when the flag is up; each is a move message or, only with the flag up, the current board, addressed to a recipient |
| `Leaderboard.UpdateEventsAt` | src/server/server.js:208-217 | recipient `i` gets its move message at place `2i` and the board at `2i + 1` when the flag is up, and only the move message, at place `i`, otherwise |
| `Sanitize.StripTags` | src/server/server.js:311 | stripping never lengthens a name |
| `Sanitize.StripTagsChars` | src/server/server.js:311 | the stripped string is a subsequence of the input (characters only dropped, never reordered or repeated), so each of its characters occurs in the input |
| `Sanitize.StripTagsLeavesNoTag` | src/server/server.js:354 | no `<...>` tag is left after one global replace |
| `Sanitize.StripTagsIdentityOnClean` | src/server/server.js:354 | a tag-free string is unchanged |
| `Sanitize.StripTagsIdempotent` | src/server/server.js:311 | stripping twice is stripping once |
| `Sanitize.PrefixHasNoTag` | src/server/server.js:362 | cutting a tag-free message never creates a tag |
| `Sanitize.ChatBroadcast` | src/server/server.js:352-363 | the broadcast line has the player's own name, at most 35 characters, no tag, is a prefix of the stripped message, equals it when that has at most 35 characters, and is its first 35 characters otherwise |
| `GameRules.Added` | public/server/game-rules.js:20-28 | the wallet's record is fresh (alive, joined now, no hit, connected), replacing any earlier one; other wallets unchanged |
| `GameRules.Removed` | public/server/game-rules.js:29-35 | a record is deleted iff it exists and is not alive; nothing else changes |
| `GameRules.HitBy` | public/server/game-rules.js:36-41 | only `lastHitBy` of an existing record changes; no record is created |
| `GameRules.Disconnected` | public/server/game-rules.js:42-49 | an existing record is marked disconnected at `now`; nothing else changes |
| `GameRules.Reconnected` | public/server/game-rules.js:50-56 | an existing record's disconnect marks are cleared; nothing else changes |
| `GameRules.TransitionsKeepAllAlive` | public/server/game-rules.js:17-56 | no operation ever produces a record that is not alive |
| `GameRules.RemoveNeverDeletesLiveRecord` | public/server/game-rules.js:29-35 | on a registry whose records are all alive, `removePlayer` deletes nothing |
| `GameRules.RemoveAfterAddKeepsRecord` | public/server/game-rules.js:20-35 | a record created by `addPlayer` survives `removePlayer` |
| `GameRules.HitByUnknownIsNoOp` | public/server/game-rules.js:36-41 | `updateLastHitBy` on an unknown wallet changes nothing |
| `GameRules.ReconnectUndoesDisconnect` | public/server/game-rules.js:42-56 | disconnect then reconnect is reconnect alone, and restores a connected record exactly |
| `GameRules.Registry.constructor` | public/server/game-rules.js:17 | the registry starts empty |
| `GameRules.Registry.AddPlayer` | public/server/game-rules.js:20-28 | the map becomes `Added`, all records alive |
| `GameRules.Registry.RemovePlayer` | public/server/game-rules.js:29-35 | the map becomes `Removed`, which on a valid registry is the old map |
| `GameRules.Registry.UpdateLastHitBy` | public/server/game-rules.js:36-41 | the map becomes `HitBy` |
| `GameRules.Registry.HandleDisconnect` | public/server/game-rules.js:42-49 | the map becomes `Disconnected` |
| `GameRules.Registry.HandleReconnect` | public/server/game-rules.js:50-56 | the map becomes `Reconnected` |
| `GameRules.IsInGracePeriod` | public/server/game-rules.js:59-61 | true for every wallet |
| `GameRules.CanQuit` | public/server/game-rules.js:64-66 | true for every wallet |
| `GameRules.CalculateRewardWithFee` | public/server/game-rules.js:69-76 | reward plus fee is the amount, the fee is a tenth of it, and for a non-negative amount 0 <= fee <= reward <= amount |
| `GameServer.CollisionKeepsRecords` | src/server/server.js:116-144 | an elimination at most records the last hit in the registry; a death never removes a wallet record |
| `GameServer.Server.constructor` | src/server/server.js:34-40 | the game starts with no players, pellets, sockets, spectators or board, and the flag down |
| `GameServer.Server.TickPlayer` | src/server/server.js:54-98 | the cells grow by the `TickUpTo` gains, the stores become its survivors, one `virusSplit` request is logged, and world mass is conserved |
| `GameServer.Server.TickPlayers` | src/server/server.js:107 | the players, the three stores and the split requests become exactly those of `TickAll` over every player in store order; ids unchanged, world mass conserved |
| `GameServer.Server.TickNext` | src/server/server.js:107 | one turn of the players loop takes the map from `TickAll` of the first `pi` players to `TickAll` of the first `pi + 1` |
| `GameServer.TickAll` | src/server/server.js:107 | the fold over the players loop keeps the store's length and logs one split request per player ticked |
| `GameServer.TickAllShape` | src/server/server.js:107 | the loop changes only cells, only of the players already ticked, keeps their cell counts and sizes them, and logs the split requests in store order |
| `GameServer.TickAllKeepsIds` | src/server/server.js:107 | the loop keeps the ids of the store, in order |
| `GameServer.TickAllConservesMass` | src/server/server.js:107 | the whole players loop leaves cell, pellet and food mass together unchanged |
| `GameServer.Server.TransferStake` | src/server/server.js:116-136 | the stake part of the callback: balances as `StakeSettled`, hit recorded iff both have wallets, the stake messages |
| `GameServer.Server.OnEaten` | src/server/server.js:111-149 | the store becomes `Settle`, the messages `CollisionEvents`, and the registry keeps every record |
| `GameServer.Server.CalculateLeaderboard` | src/server/server.js:152-174 | the board is replaced and the flag raised iff the new list differs in length or in an id; otherwise both stay |
| `GameServer.Server.GameLoop` | src/server/server.js:176-183 | the board is recomputed only while there is a player |
| `GameServer.Server.SendUpdates` | src/server/server.js:208-218 | spectators then players get their updates, the board iff the flag was up, and the flag is cleared |
| `GameServer.Server.CashOut` | src/server/server.js:241-261 | outcome, store and messages are those of `CashOutOutcome`, `Payout` and `CashOutEvents` |
| `GameServer.Server.Gotit` | src/server/server.js:267-321 | the verdict is `Admission`; a rejection adds no player, socket or record; an admission appends the player with its tag-stripped name and one spawn cell sized for the starting mass, and registers socket and wallet |
| `GameServer.Server.SpawnCell` | src/server/server.js:50 | the new cell has the starting mass at the spawn point and the radius of the starting mass |
| `GameServer.Server.SpectatorJoin` | src/server/server.js:449-454 | the socket is registered and appended to the spectators |
| `GameServer.Server.Disconnect` | src/server/server.js:341-350 | a disconnect removes no player and no socket; it only broadcasts |
| `GameServer.Server.Chat` | src/server/server.js:352-363 | the broadcast line is `ChatBroadcast` of the player's name and the message |
| `GameServer.Server.FireFood` | src/server/server.js:433-442 | the player's cells become `FiredCells`, the pellets of `Pellets` are appended, world mass is conserved, and an unknown socket changes nothing |
| `GameServer.Broadcast` | src/server/server.js:208-216 | the messages are `UpdateEvents` over the spectators followed by the players |
| `GameServer.Notify` | src/server/server.js:209-215 | one loop of `sendUpdates` emits exactly `UpdateEvents` for its recipients |
| `GameServer.FireAll` | src/server/server.js:435-441 | the loop leaves the cells as `FiredCells` and appends `Pellets` |
| `GameServer.FireWorldMass` | src/server/server.js:433-442 | firing conserves the total mass of cells, pellets and food |
| `GameServer.EatWithCell` | src/server/server.js:78-95 | one cell's turn: gain `MealGain`, stores `EatStep`, queued iff it ate a virus, the cell grown by its gain |
| `GameServer.EatAll` | src/server/server.js:76-96 | the loop's cells, split queue and stores are those of `TickUpTo` |
| `GameServer.TickWorldMass` | src/server/server.js:54-98 | one `tickPlayer` conserves world mass |
| `Client.AbbreviateAddress` | src/client/js/app.js:13-16 | null and addresses under 8 characters are unchanged; others become 9 characters: first 4, '…', last 4 |
| `Client.AbbreviateIdempotent` | src/client/js/app.js:13-16 | abbreviating an abbreviation changes nothing |
| `Client.AbbreviateSeesOnlyEnds` | src/client/js/app.js:15 | two long addresses share a short form iff they share their first and last 4 characters |
| `Client.AbbreviateShortens` | src/client/js/app.js:14-15 | the short form is no longer than the address iff the address is not exactly 8 characters long, and strictly shorter iff it has more than 9 |
| `Client.IsUnnamedCell` | src/client/js/app.js:366 | true iff the name is empty |
| `Client.DisplayName` | src/client/js/app.js:259 | the shown name is never empty: the name itself, or 'An unnamed cell' for an empty one |
| `Client.DisplayNameStable` | src/client/js/app.js:263 | a non-empty name is shown as it is, and showing is idempotent |
| `Client.PlayerAtCentre` | src/client/js/app.js:368-373 | the player itself is drawn at the screen centre |
| `Client.PositionIsTranslation` | src/client/js/app.js:368-373 | screen offsets between two entities equal their world offsets |
| `Client.PositionRoundTrip` | src/client/js/app.js:368-373 | `getPosition` has an inverse, so it is one-to-one |
| `Client.Row` | src/client/js/app.js:428-439 | one entry per cell of a user, in cell order, with the user's colours and name and the cell's screen position |
| `Client.DrawListLength` | src/client/js/app.js:425-440 | the draw list holds as many entries as all users have cells |
| `Client.DrawListEntries` | src/client/js/app.js:425-440 | every cell of every user has its entry, and every entry belongs to some cell |
| `Client.InsertByMass` | src/client/js/app.js:441-443 | inserting keeps a mass-sorted list sorted and adds exactly one entry |
| `Client.SortByMass` | src/client/js/app.js:441-443 | the sort is a permutation ordered by non-decreasing mass |
| `Client.CellsToDraw` | src/client/js/app.js:425-443 | the nested loops and the sort give the draw list, sorted by mass, one entry per cell |

## Left out

- `Player.move`, `userSplit` (message '2'), the effect of `virusSplit` on the
  cells, `shrinkCells`, `balanceMass`, `getTopPlayers`, `massFood.move` and
  `enumerateWhatPlayersSee`: their code is not part of this model. The
  model logs each `virusSplit` call and takes the top list as a parameter.
- `handleCollisions`, which finds the eating pairs and applies the 1.1 ratio
  between two players' cells, is not part of this model. Only the callback
  it invokes for one pair is modelled; the pair indices are its inputs.
- `GameServer.Server.TickPlayer`: does not move the cells first, because
  `move` is not part of this model; the cells eat at the positions given.
- `Client.SortByMass`: states sortedness and permutation, not the stability
  that `Array.prototype.sort` guarantees; the draw order of equal masses is
  not captured.
- The three `setInterval` loops and the asynchronous interleaving of
  `cashOut`: this is concurrency. Each handler is modelled as one atomic
  step, so no claim is made against double payout.
- Socket.io and Express plumbing, static serving and the HTTP endpoints:
  these are I/O. Emissions appear only as the `events` log. A `sockets[id]`
  lookup always succeeds in the model, because the class invariant keeps
  every stored player registered.
- The 'respawn' handler (src/server/server.js:331-338) and the admin kick
  (src/server/server.js:414-416): both remove a player record from the
  store, its `solBalance` with it, without any payout or stake transfer.
  The model does not capture these exits; in the model a record leaves the
  store only through the elimination callback.
- The heartbeat ('0'), 'windowResized' and 'pingcheck' handlers, admin
  login, and the chat log sent to the chat repository and the console: these
  are messaging, logging and storage outside the modelled rules.
- The `solana.js` transfer itself (RPC, signing, confirmation) and
  `calculateReward`: external service calls. `sendReward` is an oracle that
  fails without a game wallet.
- `createRewardTransaction`: it builds a Solana library transaction.
- `Player.init` and `clientProvidedData` beyond the spawn cell, name and
  wallet: their code is not part of this model. The starting balance is a
  parameter of the join.
- `currentPlayer` is shared by reference between the socket closures and the
  store; the model addresses players by id and index, so aliasing is not
  captured.
- IEEE-754 rounding of masses, balances and the 0.1 fee: they are reals.
- JavaScript string lengths count UTF-16 code units. The model counts
  characters, which agree for the ASCII base-58 wallet addresses.
- `Sanitize.ChatBroadcast`: the 35-character cut counts characters, while
  `substring(0, 35)` counts UTF-16 code units. A message with characters
  outside the Basic Multilingual Plane (emoji, say) is cut shorter by the
  server, which can even split a surrogate pair; the model does not capture
  this.
- `util.massToRadius`: its code is not part of this model. The model keeps
  every radius equal to `massToRadius` of the mass, whatever that function
  is, but says nothing about its formula.
- `src/client/js/wallet-root.jsx`, `public/server/sql.js`, `gulpfile.js`,
  `webpack.config.js`, and the canvas drawing, wallet connection and DOM
  handlers of `app.js`: UI, storage and build tooling.
