/**
 * The authoritative game state of src/server/server.js as one object: the
 * map's stores, the socket registry, the leaderboard and its change flag, and
 * the wallet registry of public/server/game-rules.js. Every handler is a
 * method specified against the functions of the other modules. Messages the
 * server emits are appended to `events`; `virusSplit` calls are recorded in
 * `splitRequests`, their effect on the cells being code that is not shown.
 */
module GameServer {
  import opened Wrappers
  import opened Seqs
  import opened Entities
  import opened Eating
  import opened Settlement
  import opened Commands
  import opened Leaderboard
  import GameRules
  import Sanitize

  /** One `currentPlayer.virusSplit(cellsToSplit, ...)` call. */
  datatype SplitRequest = SplitRequest(player: string, cells: seq<nat>)

  /** Total mass in the world: all cells, all ejected pellets and all food. */
  function WorldMass(ps: seq<Player>, massFood: seq<MassFood>, food: seq<Food>, foodMass: real): real {
    SumOf(ps, PlayerMass) + SumOf(massFood, PelletMass) + SumOf(food, FoodPellet(foodMass))
  }

  /** Every player in the store has a socket. */
  predicate Registered(ps: seq<Player>, sockets: set<string>) {
    forall i :: 0 <= i < |ps| ==> ps[i].id in sockets
  }

  /** No two players in the store share an id. */
  predicate UniqueIds(ps: seq<Player>) {
    forall i, j :: 0 <= i < j < |ps| ==> ps[i].id != ps[j].id
  }

  /** Every spectator has a socket. */
  predicate Watching(spectators: seq<string>, sockets: set<string>) {
    forall i :: 0 <= i < |spectators| ==> spectators[i] in sockets
  }

  /** Rewriting a player without changing its id keeps the store registered and its ids unique. */
  lemma StoreUpdate(ps: seq<Player>, sockets: set<string>, i: nat, p: Player)
    requires Registered(ps, sockets) && UniqueIds(ps) && i < |ps| && p.id == ps[i].id
    ensures Registered(ps[i := p], sockets) && UniqueIds(ps[i := p])
  {
  }

  /** The wallet registry after the callback: the last hit recorded, then the eaten wallet removed if it died. */
  function CollisionRecords(m: GameRules.Records, ps: seq<Player>, c: Collision): GameRules.Records
    requires ValidCollision(ps, c)
  {
    var eatenWallet := ps[c.eatenPlayer].walletAddress;
    var hit := if StakeMoves(ps, c) then GameRules.HitBy(m, eatenWallet, ps[c.eaterPlayer].walletAddress) else m;
    if Dies(ps, c) && eatenWallet != "" then GameRules.Removed(hit, eatenWallet) else hit
  }

  /**
   * Since every record is alive, a death never removes the wallet record:
   * the callback at most records who hit the eaten wallet.
   */
  lemma CollisionKeepsRecords(m: GameRules.Records, ps: seq<Player>, c: Collision)
    requires GameRules.AllAlive(m) && ValidCollision(ps, c)
    ensures CollisionRecords(m, ps, c)
            == if StakeMoves(ps, c) then GameRules.HitBy(m, ps[c.eatenPlayer].walletAddress, ps[c.eaterPlayer].walletAddress) else m
    ensures CollisionRecords(m, ps, c).Keys == m.Keys
  {
    var eatenWallet := ps[c.eatenPlayer].walletAddress;
    var hit := if StakeMoves(ps, c) then GameRules.HitBy(m, eatenWallet, ps[c.eaterPlayer].walletAddress) else m;
    GameRules.TransitionsKeepAllAlive(m, eatenWallet, ps[c.eaterPlayer].walletAddress, 0);
    GameRules.RemoveNeverDeletesLiveRecord(hit, eatenWallet);
  }

  /** The callback keeps every player in the store registered, and the ids unique. */
  lemma StoreSettle(ps: seq<Player>, sockets: set<string>, c: Collision, massToRadius: real -> real)
    requires Registered(ps, sockets) && UniqueIds(ps) && ValidCollision(ps, c)
    ensures Registered(Settle(ps, c, massToRadius), sockets) && UniqueIds(Settle(ps, c, massToRadius))
  {
    var updated := ps[c.eaterPlayer := EaterAfter(ps, c, massToRadius)][c.eatenPlayer := EatenAfter(ps, c)];
    StoreUpdate(ps, sockets, c.eaterPlayer, EaterAfter(ps, c, massToRadius));
    StoreUpdate(ps[c.eaterPlayer := EaterAfter(ps, c, massToRadius)], sockets, c.eatenPlayer, EatenAfter(ps, c));
    if Dies(ps, c) {
      StoreRemove(updated, sockets, c.eatenPlayer);
    }
  }

  /** Removing a record keeps the store registered and its ids unique. */
  lemma StoreRemove(ps: seq<Player>, sockets: set<string>, i: nat)
    requires Registered(ps, sockets) && UniqueIds(ps) && i < |ps|
    ensures Registered(RemoveAt(ps, i), sockets) && UniqueIds(RemoveAt(ps, i))
  {
    var r := RemoveAt(ps, i);
    forall a, b | 0 <= a < b < |r| ensures r[a].id != r[b].id {
      var a', b' := if a < i then a else a + 1, if b < i then b else b + 1;
      assert r[a] == ps[a'] && r[b] == ps[b'];
    }
  }

  class Server {
    const config: Config
    const rules: GameRules.Registry
    var players: seq<Player>
    var food: seq<Food>
    var massFood: seq<MassFood>
    var viruses: seq<Virus>
    /** The keys of the `sockets` object. */
    var sockets: set<string>
    var spectators: seq<string>
    var leaderboard: seq<LeaderEntry>
    var leaderboardChanged: bool
    var events: seq<Event>
    var splitRequests: seq<SplitRequest>

    /**
     * The starting mass is positive (valuations divide by it), every cell's
     * radius is the one its mass gives, every player
     * in the store and every spectator has a registered socket (sockets
     * are never removed), no
     * two players share an id (the join gate turns a present id away), and
     * the wallet registry keeps its own invariant.
     */
    ghost predicate Valid()
      reads this, rules
    {
      && config.defaultPlayerMass > 0.0
      && Registered(players, sockets) && UniqueIds(players)
      && PlayersSized(players, config.massToRadius)
      && Watching(spectators, sockets)
      && rules.Valid()
    }

    constructor (config: Config, food: seq<Food>, viruses: seq<Virus>)
      requires config.defaultPlayerMass > 0.0
      ensures Valid() && fresh(rules)
      ensures this.config == config && players == [] && this.food == food && massFood == [] && this.viruses == viruses
      ensures sockets == {} && spectators == [] && leaderboard == [] && !leaderboardChanged
      ensures events == [] && splitRequests == []
    {
      this.config := config;
      rules := new GameRules.Registry();
      players := [];
      this.food := food;
      massFood := [];
      this.viruses := viruses;
      sockets := {};
      spectators := [];
      leaderboard := [];
      leaderboardChanged := false;
      events := [];
      splitRequests := [];
    }

    /**
     * `tickPlayer` without `move`: the cell loop, the grown cells written
     * back, and the cells that ate a virus handed to one `virusSplit` call.
     */
    method TickPlayer(pi: nat)
      requires Valid() && pi < |players|
      modifies this`players, this`food, this`massFood, this`viruses, this`splitRequests
      ensures Valid()
      ensures var p := old(players[pi]);
              var r := TickUpTo(p.id, p.cells, |p.cells|, Stores(old(food), old(massFood), old(viruses)), config.foodMass);
              && players == old(players)[pi := p.(cells := Grown(p.cells, r.gains, config.massToRadius))]
              && food == r.stores.food && massFood == r.stores.massFood && viruses == r.stores.viruses
              && splitRequests == old(splitRequests) + [SplitRequest(p.id, r.splits)]
      ensures WorldMass(players, massFood, food, config.foodMass) == old(WorldMass(players, massFood, food, config.foodMass))
    {
      var currentPlayer := players[pi];
      var cells, cellsToSplit, stores := EatAll(currentPlayer.id, currentPlayer.cells, Stores(food, massFood, viruses), config.foodMass, config.massToRadius);
      WriteTick(pi, cells, stores, cellsToSplit);
      TickWorldMass(old(players), pi, old(massFood), old(food), old(viruses), config.foodMass, config.massToRadius);
    }

    /**
     * `map.players.data.forEach(tickPlayer)` at the start of `tickGame`:
     * every player in store order eats against the stores the players
     * before it left, each with one `virusSplit` call; no mass enters or
     * leaves the world.
     */
    method TickPlayers()
      requires Valid()
      modifies this`players, this`food, this`massFood, this`viruses, this`splitRequests
      ensures Valid()
      ensures var w := TickAll(old(players), |old(players)|, Stores(old(food), old(massFood), old(viruses)), config.foodMass, config.massToRadius);
              && players == w.players && food == w.stores.food && massFood == w.stores.massFood && viruses == w.stores.viruses
              && splitRequests == old(splitRequests) + w.splits
      ensures Ids(players) == Ids(old(players))
      ensures WorldMass(players, massFood, food, config.foodMass) == old(WorldMass(players, massFood, food, config.foodMass))
    {
      ghost var ps, st := players, Stores(food, massFood, viruses);
      var pi := 0;
      while pi < |players|
        invariant Valid() && pi <= |ps| && |players| == |ps|
        invariant TurnsDone(ps, st, old(splitRequests), pi)
      {
        TickNext(ps, st, old(splitRequests), pi);
        pi := pi + 1;
      }
      assert pi == |ps|;
      TickAllConservesMass(ps, |ps|, st, config.foodMass, config.massToRadius);
      TickAllKeepsIds(ps, |ps|, st, config.foodMass, config.massToRadius);
    }

    /** The map is the one the first `n` turns of the players loop leave, after the `earlier` split requests. */
    ghost predicate TurnsDone(ps: seq<Player>, st: Stores, earlier: seq<SplitRequest>, n: nat)
      requires n <= |ps|
      reads this
    {
      var w := TickAll(ps, n, st, config.foodMass, config.massToRadius);
      && players == w.players && Stores(food, massFood, viruses) == w.stores
      && splitRequests == earlier + w.splits
    }

    /** One turn of the players loop: player `pi` ticks against the map the earlier turns left. */
    method TickNext(ghost ps: seq<Player>, ghost st: Stores, ghost earlier: seq<SplitRequest>, pi: nat)
      requires Valid() && pi < |ps| && |players| == |ps| && TurnsDone(ps, st, earlier, pi)
      modifies this`players, this`food, this`massFood, this`viruses, this`splitRequests
      ensures Valid() && |players| == |ps| && TurnsDone(ps, st, earlier, pi + 1)
    {
      TickAllStep(ps, pi, st, config.foodMass, config.massToRadius);
      TickPlayer(pi);
    }

    /** The writes of `tickPlayer`: the player's cells, the three stores and the `virusSplit` call. */
    method WriteTick(pi: nat, cells: seq<Cell>, stores: Stores, cellsToSplit: seq<nat>)
      requires Valid() && pi < |players| && AllSized(cells, config.massToRadius)
      modifies this`players, this`food, this`massFood, this`viruses, this`splitRequests
      ensures Valid()
      ensures players == old(players)[pi := old(players[pi]).(cells := cells)]
      ensures food == stores.food && massFood == stores.massFood && viruses == stores.viruses
      ensures splitRequests == old(splitRequests) + [SplitRequest(old(players[pi]).id, cellsToSplit)]
    {
      var currentPlayer := players[pi];
      food, massFood, viruses := stores.food, stores.massFood, stores.viruses;
      StoreUpdate(players, sockets, pi, currentPlayer.(cells := cells));
      players := players[pi := currentPlayer.(cells := cells)];
      splitRequests := splitRequests + [SplitRequest(currentPlayer.id, cellsToSplit)];
    }

    /**
     * The first half of the callback `handleCollisions` calls when a cell of
     * player `c.eatenPlayer` is eaten by a cell of player `c.eaterPlayer`:
     * when both have a wallet, the hit is recorded and the whole stake moves.
     */
    method TransferStake(c: Collision)
      requires Valid() && ValidCollision(players, c)
      modifies this`players, this`events, rules
      ensures Valid()
      ensures players == StakeSettled(old(players), c)
      ensures events == old(events) + StakeEvents(old(players), c)
      ensures rules.activePlayers == if StakeMoves(old(players), c)
              then GameRules.HitBy(old(rules.activePlayers), old(players[c.eatenPlayer].walletAddress), old(players[c.eaterPlayer].walletAddress))
              else old(rules.activePlayers)
    {
      var eaterPlayer := players[c.eaterPlayer];
      var eatenPlayer := players[c.eatenPlayer];

      if eatenPlayer.walletAddress != "" && eaterPlayer.walletAddress != "" {
        rules.UpdateLastHitBy(eatenPlayer.walletAddress, eaterPlayer.walletAddress);
      }

      if eatenPlayer.walletAddress != "" && eaterPlayer.walletAddress != "" {
        var solTransferred := eatenPlayer.solBalance;
        eaterPlayer := eaterPlayer.(solBalance := eaterPlayer.solBalance + solTransferred);
        eatenPlayer := eatenPlayer.(solBalance := 0.0);
        StoreUpdate(players, sockets, c.eaterPlayer, eaterPlayer);
        StoreUpdate(players[c.eaterPlayer := eaterPlayer], sockets, c.eatenPlayer, eatenPlayer);
        players := players[c.eaterPlayer := eaterPlayer][c.eatenPlayer := eatenPlayer];
        if eaterPlayer.id in sockets {
          events := events + [SolBalanceUpdate(eaterPlayer.id, eaterPlayer.solBalance)];
        }
        if eatenPlayer.id in sockets {
          events := events + [SolBalanceUpdate(eatenPlayer.id, eatenPlayer.solBalance)];
        }
        events := events + [RewardEarned(eaterPlayer.name, solTransferred, 0.0, eatenPlayer.name)];
      }
    }

    /**
     * The callback `handleCollisions` calls when a cell of player
     * `c.eatenPlayer` is eaten by a cell of player `c.eaterPlayer`.
     */
    method OnEaten(c: Collision)
      requires Valid() && ValidCollision(players, c)
      modifies this`players, this`events, rules
      ensures Valid()
      ensures players == Settle(old(players), c, config.massToRadius)
      ensures events == old(events) + CollisionEvents(old(players), c)
      ensures rules.activePlayers == CollisionRecords(old(rules.activePlayers), old(players), c)
    {
      var cellGotEaten := players[c.eatenPlayer].cells[c.eatenCell];
      TransferStake(c);
      SettleAfterStake(old(players), c, config.massToRadius);

      var eaterPlayer := players[c.eaterPlayer];
      var eatenPlayer := players[c.eatenPlayer];
      eaterPlayer := eaterPlayer.(cells := WithCellMass(eaterPlayer.cells, c.eaterCell, cellGotEaten.mass, config.massToRadius));
      eatenPlayer := eatenPlayer.(cells := RemoveAt(eatenPlayer.cells, c.eatenCell));
      StoreSettle(old(players), sockets, c, config.massToRadius);
      SettleKeepsSized(old(players), c, config.massToRadius);
      players := players[c.eaterPlayer := eaterPlayer][c.eatenPlayer := eatenPlayer];

      var playerDied := |eatenPlayer.cells| == 0;
      if playerDied {
        if eatenPlayer.walletAddress != "" {
          rules.RemovePlayer(eatenPlayer.walletAddress);
        }
        events := events + [PlayerDied(eatenPlayer.name), Rip(eatenPlayer.id)];
        players := RemoveAt(players, c.eatenPlayer);
      }
    }

    /**
     * `calculateLeaderboard` for the list `getTopPlayers` returned: the
     * stored board is replaced, and the flag raised, exactly when the
     * enriched list differs in length or in an id; otherwise the stored
     * board, stale names, masses and valuations included, stays.
     */
    method CalculateLeaderboard(topPlayers: seq<TopPlayer>)
      requires Valid()
      modifies this`leaderboard, this`leaderboardChanged
      ensures Valid()
      ensures var enriched := Enrich(topPlayers, config.defaultPlayerMass);
              leaderboard == if BoardDiffers(old(leaderboard), enriched) then enriched else old(leaderboard)
      ensures leaderboardChanged == (old(leaderboardChanged) || BoardDiffers(old(leaderboard), Enrich(topPlayers, config.defaultPlayerMass)))
      ensures BoardIds(leaderboard) == BoardIds(Enrich(topPlayers, config.defaultPlayerMass))
    {
      var enrichedPlayers := Enrich(topPlayers, config.defaultPlayerMass);
      if |leaderboard| != |enrichedPlayers| {
        leaderboard := enrichedPlayers;
        leaderboardChanged := true;
      } else {
        var i := 0;
        while i < |leaderboard|
          invariant 0 <= i <= |leaderboard| == |enrichedPlayers|
          invariant leaderboard == old(leaderboard) && leaderboardChanged == old(leaderboardChanged)
          invariant forall k :: 0 <= k < i ==> leaderboard[k].id == enrichedPlayers[k].id
        {
          if leaderboard[i].id != enrichedPlayers[i].id {
            leaderboard := enrichedPlayers;
            leaderboardChanged := true;
            break;
          }
          i := i + 1;
        }
      }
      BoardDiffersIffIds(old(leaderboard), enrichedPlayers);
    }

    /**
     * The once-a-second `gameloop`: the leaderboard is recomputed only while
     * the store holds a player. `shrinkCells` and `balanceMass` are code
     * that is not shown.
     */
    method GameLoop(topPlayers: seq<TopPlayer>)
      requires Valid()
      modifies this`leaderboard, this`leaderboardChanged
      ensures Valid()
      ensures |players| == 0 ==> leaderboard == old(leaderboard) && leaderboardChanged == old(leaderboardChanged)
      ensures |players| > 0 ==>
                var enriched := Enrich(topPlayers, config.defaultPlayerMass);
                && leaderboard == (if BoardDiffers(old(leaderboard), enriched) then enriched else old(leaderboard))
                && leaderboardChanged == (old(leaderboardChanged) || BoardDiffers(old(leaderboard), enriched))
    {
      if |players| > 0 {
        CalculateLeaderboard(topPlayers);
      }
    }

    /**
     * `sendUpdates`: every spectator, then every player in store order, is
     * told the world state and, when the flag is up, sent the board; then
     * the flag is cleared.
     */
    method SendUpdates()
      requires Valid()
      modifies this`events, this`leaderboardChanged
      ensures Valid()
      ensures events == old(events) + UpdateEvents(spectators + Ids(players), old(leaderboardChanged), |players|, leaderboard)
      ensures forall s :: s in spectators + Ids(players) ==> s in sockets
      ensures !leaderboardChanged
    {
      var updates := Broadcast(spectators, players, leaderboardChanged, leaderboard);
      events := events + updates;
      leaderboardChanged := false;
    }

    /**
     * The 'cashOut' handler of socket `socket`; `sent` is what
     * `solana.sendReward` reports once the request passes both checks.
     */
    method CashOut(socket: string, sent: bool) returns (outcome: CashOutReason)
      requires Valid()
      modifies this`players, this`events
      ensures Valid()
      ensures outcome == CashOutOutcome(old(players), socket, sent)
      ensures players == Payout(old(players), socket, sent)
      ensures events == old(events) + CashOutEvents(socket, outcome)
    {
      var found := FindById(players, socket);
      if found.None? || players[found.value].walletAddress == "" {
        outcome := PlayerOrWalletMissing;
        events := events + [CashOutResult(socket, false, outcome)];
        return;
      }
      var player := players[found.value];
      var amount := player.solBalance;
      if amount <= 0.0 {
        outcome := NothingToCashOut;
        events := events + [CashOutResult(socket, false, outcome)];
        return;
      }
      if sent {
        StoreUpdate(players, sockets, found.value, player.(solBalance := 0.0));
        players := players[found.value := player.(solBalance := 0.0)];
        outcome := CashedOut(amount);
        events := events + [SolBalanceUpdate(socket, 0.0), CashOutResult(socket, true, outcome)];
      } else {
        outcome := SendFailed;
        events := events + [CashOutResult(socket, false, outcome)];
      }
    }

    /**
     * The 'gotit' handler of player socket `socket`. `validNick` is the
     * verdict of `util.validNick` on `name`, `walletParses` whether
     * `new PublicKey(wallet)` succeeds, `spawn` the position
     * `generateSpawnpoint` picked with the radius of the starting mass,
     * `startBalance` the balance of a new player record and `now` the
     * clock. The handler first re-initialises the socket's own player
     * object with one cell of the starting mass at the spawn point; when
     * that object is already in the store (the socket joined before), the
     * stored player is reset that way before the socket is disconnected.
     */
    method Gotit(socket: string, name: string, wallet: string, validNick: bool, walletParses: bool,
                 spawnX: real, spawnY: real, startBalance: real, now: int)
      returns (why: Option<Rejection>)
      requires Valid()
      modifies this`players, this`sockets, this`events, rules
      ensures Valid()
      ensures why == Admission(FindById(old(players), socket).Some?, validNick, wallet, walletParses, HasPaidEntryFee(wallet))
      ensures why.Some? ==>
                && events == old(events) + RejectionEvents(socket, why.value)
                && sockets == old(sockets) && rules.activePlayers == old(rules.activePlayers)
                && players == match FindById(old(players), socket)
                              case None => old(players)
                              case Some(i) => old(players)[i := old(players[i]).(cells := [SpawnCell(spawnX, spawnY)])]
      ensures why.None? ==>
                && players == old(players) + [Player(socket, Sanitize.StripTags(name), wallet, [SpawnCell(spawnX, spawnY)], startBalance)]
                && sockets == old(sockets) + {socket}
                && events == old(events) + [PlayerJoin(Sanitize.StripTags(name)), SolBalanceUpdate(socket, startBalance)]
                && rules.activePlayers == GameRules.Added(old(rules.activePlayers), wallet, now)
    {
      var spawnCell := SpawnCell(spawnX, spawnY);
      var found := FindById(players, socket);
      why := Admission(found.Some?, validNick, wallet, walletParses, HasPaidEntryFee(wallet));
      if found.Some? {
        StoreUpdate(players, sockets, found.value, players[found.value].(cells := [spawnCell]));
        players := players[found.value := players[found.value].(cells := [spawnCell])];
        events := events + [ForcedDisconnect(socket)];
      } else if !validNick {
        events := events + [Kick(socket, "Invalid username."), ForcedDisconnect(socket)];
      } else if wallet == "" {
        events := events + [Kick(socket, "Wallet address required."), ForcedDisconnect(socket)];
      } else if !walletParses {
        events := events + [Kick(socket, "Invalid wallet address format."), ForcedDisconnect(socket)];
      } else if !HasPaidEntryFee(wallet) {
        // The fee check is a stub that accepts every wallet.
        assert false;
      } else {
        rules.AddPlayer(wallet, now);
        var sanitizedName := Sanitize.StripTags(name);
        var currentPlayer := Player(socket, sanitizedName, wallet, [spawnCell], startBalance);
        players := players + [currentPlayer];
        sockets := sockets + {socket};
        events := events + [PlayerJoin(currentPlayer.name), SolBalanceUpdate(socket, currentPlayer.solBalance)];
      }
    }

    /** The spawn cell `currentPlayer.init` creates: the starting mass at the spawn point. */
    function SpawnCell(x: real, y: real): (r: Cell)
      ensures r.mass == config.defaultPlayerMass && r.x == x && r.y == y
      ensures Sized(r, config.massToRadius)
    {
      Cell(x, y, config.defaultPlayerMass, config.massToRadius(config.defaultPlayerMass))
    }

    /** The 'gotit' handler of a spectator socket. */
    method SpectatorJoin(socket: string)
      requires Valid()
      modifies this`sockets, this`spectators, this`events
      ensures Valid()
      ensures sockets == old(sockets) + {socket} && spectators == old(spectators) + [socket]
      ensures events == old(events) + [PlayerJoin("")]
    {
      sockets := sockets + {socket};
      spectators := spectators + [socket];
      events := events + [PlayerJoin("")];
    }

    /**
     * The 'disconnect' handler of a player socket whose player object is
     * named `name`: it only broadcasts; the player stays in the store, with
     * its cells and stake.
     */
    method Disconnect(name: string)
      requires Valid()
      modifies this`events
      ensures Valid()
      ensures players == old(players) && sockets == old(sockets)
      ensures events == old(events) + [PlayerDisconnect(name)]
    {
      events := events + [PlayerDisconnect(name)];
    }

    /**
     * The 'playerChat' handler of a player whose object is named
     * `playerName`: the broadcast line carries that name and the message's
     * sanitised first 35 characters.
     */
    method Chat(playerName: string, message: string)
      requires Valid()
      modifies this`events
      ensures Valid()
      ensures var line := Sanitize.ChatBroadcast(playerName, message);
              events == old(events) + [PlayerChat(line.sender, line.message)]
    {
      var line := Sanitize.ChatBroadcast(playerName, message);
      events := events + [PlayerChat(line.sender, line.message)];
    }

    /**
     * The 'fire food' handler ('1') of socket `socket`: every heavy enough
     * cell of its player ejects one pellet. A socket without a player in the
     * store changes nothing in the store.
     */
    method FireFood(socket: string)
      requires Valid()
      modifies this`players, this`massFood
      ensures Valid()
      ensures match FindById(old(players), socket)
              case None => players == old(players) && massFood == old(massFood)
              case Some(i) =>
                var cells := old(players[i].cells);
                && players == old(players)[i := old(players[i]).(cells := FiredCells(config, cells))]
                && massFood == old(massFood) + Pellets(socket, config, cells, |cells|)
      ensures WorldMass(players, massFood, food, config.foodMass) == old(WorldMass(players, massFood, food, config.foodMass))
    {
      var found := FindById(players, socket);
      if found.Some? {
        var currentPlayer := players[found.value];
        var cells, pellets := FireAll(socket, config, currentPlayer.cells, massFood);
        StoreUpdate(players, sockets, found.value, currentPlayer.(cells := cells));
        players := players[found.value := currentPlayer.(cells := cells)];
        massFood := pellets;
        FireWorldMass(old(players), found.value, old(massFood), food, config);
      }
    }
  }

  /**
   * The messages of `sendUpdates`: `updateSpectator` for every spectator,
   * then the `enumerateWhatPlayersSee` callback for every player of the
   * store, in order.
   */
  method Broadcast(spectators: seq<string>, players: seq<Player>, changed: bool, board: seq<LeaderEntry>)
    returns (out: seq<Event>)
    ensures out == UpdateEvents(spectators + Ids(players), changed, |players|, board)
  {
    var toSpectators := Notify(spectators, changed, |players|, board);
    var toPlayers := Notify(Ids(players), changed, |players|, board);
    out := toSpectators + toPlayers;
    UpdateEventsAppend(spectators, Ids(players), changed, |players|, board);
  }

  /** One of the two loops of `sendUpdates`: each recipient in turn gets its messages. */
  method Notify(recipients: seq<string>, changed: bool, players: nat, board: seq<LeaderEntry>)
    returns (out: seq<Event>)
    ensures out == UpdateEvents(recipients, changed, players, board)
  {
    out := [];
    var i := 0;
    while i < |recipients|
      invariant i <= |recipients|
      invariant out == UpdateEvents(recipients[..i], changed, players, board)
    {
      assert recipients[..i + 1] == recipients[..i] + [recipients[i]];
      UpdateEventsSnoc(recipients[..i], recipients[i], changed, players, board);
      var socketId := recipients[i];
      out := out + [TellPlayerMove(socketId)];
      if changed {
        out := out + [SendLeaderboard(socketId, players, board)];
      }
      i := i + 1;
    }
    assert recipients[..i] == recipients;
  }

  /**
   * The loop of the 'fire food' handler on the cells of player `owner`:
   * `changeCellMass(i, -fireFood)` and `massFood.addNew` for every cell at
   * or above `defaultPlayerMass + fireFood`.
   */
  method FireAll(owner: string, cfg: Config, cells0: seq<Cell>, massFood0: seq<MassFood>)
    returns (cells: seq<Cell>, massFood: seq<MassFood>)
    ensures cells == FiredCells(cfg, cells0)
    ensures massFood == massFood0 + Pellets(owner, cfg, cells0, |cells0|)
  {
    cells, massFood := cells0, massFood0;
    var minCellMass := cfg.defaultPlayerMass + cfg.fireFood;
    var i := 0;
    while i < |cells|
      invariant i <= |cells| == |cells0|
      invariant forall k :: 0 <= k < i ==> cells[k] == Fired(cfg, cells0[k])
      invariant forall k :: i <= k < |cells| ==> cells[k] == cells0[k]
      invariant massFood == massFood0 + Pellets(owner, cfg, cells0, i)
    {
      if cells[i].mass >= minCellMass {
        cells := WithCellMass(cells, i, -cfg.fireFood, cfg.massToRadius);
        massFood := massFood + [MassFood(owner, i, cells[i].x, cells[i].y, cfg.fireFood, cfg.ejectSpeed)];
      }
      i := i + 1;
    }
  }

  /** Firing one player's cells keeps the world's mass. */
  lemma FireWorldMass(ps: seq<Player>, i: nat, massFood: seq<MassFood>, food: seq<Food>, cfg: Config)
    requires i < |ps|
    ensures var cells := ps[i].cells;
            WorldMass(ps[i := ps[i].(cells := FiredCells(cfg, cells))], massFood + Pellets(ps[i].id, cfg, cells, |cells|), food, cfg.foodMass)
            == WorldMass(ps, massFood, food, cfg.foodMass)
  {
    var cells := ps[i].cells;
    var pellets := Pellets(ps[i].id, cfg, cells, |cells|);
    FireConservesMass(ps[i].id, cfg, cells, |cells|);
    assert cells[..|cells|] == cells;
    assert FiredCells(cfg, cells)[..|cells|] == FiredCells(cfg, cells);
    SumOfUpdate(ps, i, ps[i].(cells := FiredCells(cfg, cells)), PlayerMass);
    SumOfConcat(massFood, pellets, PelletMass);
  }

  /**
   * The body of the cell loop of `tickPlayer` for cell `cellIndex` of player
   * `owner`: the eaten food, pellets and (if any) viruses leave the stores,
   * a cell that ate a virus is queued for splitting, and the cell grows by
   * `massGained`.
   */
  method EatWithCell(owner: string, cells: seq<Cell>, cellIndex: nat, stores: Stores, cellsToSplit: seq<nat>, foodMass: real,
                     massToRadius: real -> real)
    returns (massGained: real, grown: seq<Cell>, left: Stores, queued: seq<nat>)
    requires cellIndex < |cells|
    ensures massGained == MealGain(owner, cells[cellIndex], cellIndex, stores.food, stores.massFood, foodMass)
    ensures left == EatStep(owner, cells[cellIndex], cellIndex, stores)
    ensures queued == cellsToSplit + if EatsVirus(cells[cellIndex], stores.viruses) then [cellIndex] else []
    ensures grown == cells[cellIndex := Resized(cells[cellIndex], massGained, massToRadius)]
  {
    var currentCell := cells[cellIndex];
    var eatenFood := Filter(stores.food, EdibleFood(currentCell));
    var eatenMass := Filter(stores.massFood, EdibleMass(owner, currentCell, cellIndex));
    var eatenViruses := Filter(stores.viruses, EdibleVirus(currentCell));

    var viruses := stores.viruses;
    queued := cellsToSplit;
    if |eatenViruses| > 0 {
      queued := queued + [cellIndex];
      viruses := Filter(viruses, InedibleVirus(currentCell));
    }

    massGained := SumOf(eatenMass, PelletMass);
    left := Stores(Filter(stores.food, InedibleFood(currentCell)),
                   Filter(stores.massFood, InedibleMass(owner, currentCell, cellIndex)),
                   viruses);
    massGained := massGained + |eatenFood| as real * foodMass;
    SumOfConstant(eatenFood, FoodPellet(foodMass), foodMass);
    grown := WithCellMass(cells, cellIndex, massGained, massToRadius);
  }

  /**
   * The cell loop of `tickPlayer` for the cells of player `owner`: every
   * cell, in order, eats from the stores the earlier cells left. The grown
   * cells, the indices of the cells that ate a virus and the stores left
   * are those of the specification `TickUpTo`.
   */
  method EatAll(owner: string, cells0: seq<Cell>, st: Stores, foodMass: real, massToRadius: real -> real)
    returns (cells: seq<Cell>, cellsToSplit: seq<nat>, stores: Stores)
    ensures var r := TickUpTo(owner, cells0, |cells0|, st, foodMass);
            && cells == Grown(cells0, r.gains, massToRadius) && cellsToSplit == r.splits && stores == r.stores
  {
    cells := cells0;
    stores := st;
    ghost var gains := Gains(owner, cells0, |cells0|, st, foodMass);
    cellsToSplit := [];
    var cellIndex: nat := 0;
    while cellIndex < |cells|
      invariant cellIndex <= |cells| == |cells0| == |gains|
      invariant cells == PartlyGrown(cells0, gains, cellIndex, massToRadius)
      invariant stores == StoresAfter(owner, cells0, cellIndex, st)
      invariant cellsToSplit == Splits(cells0, cellIndex, st.viruses)
    {
      ghost var before, seen := cells, stores;
      var massGained;
      massGained, cells, stores, cellsToSplit := EatWithCell(owner, cells, cellIndex, stores, cellsToSplit, foodMass, massToRadius);
      LoopStep(owner, cells0, gains, cellIndex, st, foodMass, massToRadius, before, seen, massGained);
      cellIndex := cellIndex + 1;
    }
    PartlyGrownAll(cells0, gains, massToRadius);
  }

  /** The cells while the loop runs: the first `n` have grown by their gains, the rest are as they were. */
  function PartlyGrown(cells0: seq<Cell>, gains: seq<real>, n: nat, massToRadius: real -> real): (r: seq<Cell>)
    requires |gains| == |cells0|
    ensures |r| == |cells0|
  {
    seq(|cells0|, k requires 0 <= k < |cells0| => if k < n then Resized(cells0[k], gains[k], massToRadius) else cells0[k])
  }

  lemma PartlyGrownAll(cells0: seq<Cell>, gains: seq<real>, massToRadius: real -> real)
    requires |gains| == |cells0|
    ensures PartlyGrown(cells0, gains, |cells0|, massToRadius) == Grown(cells0, gains, massToRadius)
  {
    var partly, grown := PartlyGrown(cells0, gains, |cells0|, massToRadius), Grown(cells0, gains, massToRadius);
    forall k | 0 <= k < |cells0| ensures partly[k] == grown[k] {
    }
  }

  /**
   * One turn of the cell loop: if the cells match the specification after
   * `n` cells and cell `n` eats from the stores the earlier cells left, the
   * stores, the split queue and the cells match it after `n + 1` cells.
   */
  lemma LoopStep(owner: string, cells0: seq<Cell>, gains: seq<real>, n: nat, st: Stores, foodMass: real,
                 massToRadius: real -> real, cells: seq<Cell>, seen: Stores, massGained: real)
    requires n < |cells0| && gains == Gains(owner, cells0, |cells0|, st, foodMass)
    requires cells == PartlyGrown(cells0, gains, n, massToRadius) && seen == StoresAfter(owner, cells0, n, st)
    requires massGained == MealGain(owner, cells[n], n, seen.food, seen.massFood, foodMass)
    ensures cells[n] == cells0[n]
    ensures EatStep(owner, cells[n], n, seen) == StoresAfter(owner, cells0, n + 1, st)
    ensures Splits(cells0, n + 1, st.viruses) == Splits(cells0, n, st.viruses) + if EatsVirus(cells[n], seen.viruses) then [n] else []
    ensures cells[n := Resized(cells[n], massGained, massToRadius)] == PartlyGrown(cells0, gains, n + 1, massToRadius)
  {
    assert cells[n] == cells0[n];
    StoresAfterStep(owner, cells0, n, st);
    assert gains[n] == GainAt(owner, cells0, n, st, foodMass);
  }

  /** One `tickPlayer` conserves the world's mass. */
  lemma TickWorldMass(ps: seq<Player>, pi: nat, massFood: seq<MassFood>, food: seq<Food>, viruses: seq<Virus>, foodMass: real,
                      massToRadius: real -> real)
    requires pi < |ps|
    ensures var p := ps[pi];
            var r := TickUpTo(p.id, p.cells, |p.cells|, Stores(food, massFood, viruses), foodMass);
            WorldMass(ps[pi := p.(cells := Grown(p.cells, r.gains, massToRadius))], r.stores.massFood, r.stores.food, foodMass)
            == WorldMass(ps, massFood, food, foodMass)
  {
    var p := ps[pi];
    var st := Stores(food, massFood, viruses);
    var r := TickUpTo(p.id, p.cells, |p.cells|, st, foodMass);
    TickPlayerConservesMass(p.id, p.cells, st, foodMass, massToRadius);
    SumOfUpdate(ps, pi, p.(cells := Grown(p.cells, r.gains, massToRadius)), PlayerMass);
  }

  /** The map after `tickPlayer` has run for the first `n` players of `ps`, in store order. */
  datatype World = World(players: seq<Player>, stores: Stores, splits: seq<SplitRequest>)

  /**
   * The players loop of `tickGame` as a fold: player `n - 1` eats against the
   * stores the first `n - 1` players left, its cells are grown, and its
   * `virusSplit` call follows theirs.
   */
  function TickAll(ps: seq<Player>, n: nat, st: Stores, foodMass: real, massToRadius: real -> real): (w: World)
    requires n <= |ps|
    ensures |w.players| == |ps| && |w.splits| == n
    decreases n
  {
    if n == 0 then World(ps, st, [])
    else
      var w := TickAll(ps, n - 1, st, foodMass, massToRadius);
      var p := w.players[n - 1];
      var r := TickUpTo(p.id, p.cells, |p.cells|, w.stores, foodMass);
      World(w.players[n - 1 := p.(cells := Grown(p.cells, r.gains, massToRadius))], r.stores, w.splits + [SplitRequest(p.id, r.splits)])
  }

  /** One more turn of the players loop, written against the map the earlier turns left. */
  lemma TickAllStep(ps: seq<Player>, n: nat, st: Stores, foodMass: real, massToRadius: real -> real)
    requires n < |ps|
    ensures var w := TickAll(ps, n, st, foodMass, massToRadius);
            var p := w.players[n];
            var r := TickUpTo(p.id, p.cells, |p.cells|, w.stores, foodMass);
            TickAll(ps, n + 1, st, foodMass, massToRadius)
            == World(w.players[n := p.(cells := Grown(p.cells, r.gains, massToRadius))], r.stores, w.splits + [SplitRequest(p.id, r.splits)])
  {
  }

  /**
   * The players loop changes only cells, only of the first `n` players, each
   * of those keeps its number of cells and is sized again, and the split
   * requests come one per player in store order.
   */
  lemma {:induction false} TickAllShape(ps: seq<Player>, n: nat, st: Stores, foodMass: real, massToRadius: real -> real)
    requires n <= |ps|
    ensures forall k :: 0 <= k < |ps| ==> TickAll(ps, n, st, foodMass, massToRadius).players[k] == ps[k].(cells := TickAll(ps, n, st, foodMass, massToRadius).players[k].cells)
    ensures forall k :: n <= k < |ps| ==> TickAll(ps, n, st, foodMass, massToRadius).players[k] == ps[k]
    ensures forall k :: 0 <= k < n ==> var c := TickAll(ps, n, st, foodMass, massToRadius).players[k].cells;
                                       AllSized(c, massToRadius) && |c| == |ps[k].cells|
    ensures forall k :: 0 <= k < n ==> TickAll(ps, n, st, foodMass, massToRadius).splits[k].player == ps[k].id
  {
    if n > 0 {
      TickAllShape(ps, n - 1, st, foodMass, massToRadius);
      var w := TickAll(ps, n - 1, st, foodMass, massToRadius);
      var p := w.players[n - 1];
      var r := TickUpTo(p.id, p.cells, |p.cells|, w.stores, foodMass);
      var grown := p.(cells := Grown(p.cells, r.gains, massToRadius));
      var w' := World(w.players[n - 1 := grown], r.stores, w.splits + [SplitRequest(p.id, r.splits)]);
      assert TickAll(ps, n, st, foodMass, massToRadius) == w';
      assert p == ps[n - 1];
      forall k | 0 <= k < |ps| ensures w'.players[k] == ps[k].(cells := w'.players[k].cells) {
      }
      forall k | 0 <= k < n ensures AllSized(w'.players[k].cells, massToRadius) && |w'.players[k].cells| == |ps[k].cells| {
        if k == n - 1 {
          assert w'.players[k].cells == Grown(p.cells, r.gains, massToRadius);
        } else {
          assert w'.players[k] == w.players[k];
        }
      }
      forall k | 0 <= k < n ensures w'.splits[k].player == ps[k].id {
        if k < n - 1 {
          assert w'.splits[k] == w.splits[k];
        }
      }
    }
  }

  /** The players loop keeps the store's ids, in order. */
  lemma TickAllKeepsIds(ps: seq<Player>, n: nat, st: Stores, foodMass: real, massToRadius: real -> real)
    requires n <= |ps|
    ensures Ids(TickAll(ps, n, st, foodMass, massToRadius).players) == Ids(ps)
  {
    var w := TickAll(ps, n, st, foodMass, massToRadius);
    TickAllShape(ps, n, st, foodMass, massToRadius);
    forall k | 0 <= k < |ps| ensures Ids(w.players)[k] == Ids(ps)[k] {
      assert w.players[k].id == ps[k].id;
    }
  }

  /** A whole players loop conserves the world's mass. */
  lemma {:induction false} TickAllConservesMass(ps: seq<Player>, n: nat, st: Stores, foodMass: real, massToRadius: real -> real)
    requires n <= |ps|
    ensures var w := TickAll(ps, n, st, foodMass, massToRadius);
            WorldMass(w.players, w.stores.massFood, w.stores.food, foodMass) == WorldMass(ps, st.massFood, st.food, foodMass)
  {
    if n > 0 {
      TickAllConservesMass(ps, n - 1, st, foodMass, massToRadius);
      var w := TickAll(ps, n - 1, st, foodMass, massToRadius);
      TickWorldMass(w.players, n - 1, w.stores.massFood, w.stores.food, w.stores.viruses, foodMass, massToRadius);
    }
  }
}
