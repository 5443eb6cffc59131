/**
 * The wallet-keyed registry of active players and the fee rules of
 * public/server/game-rules.js. The module-level `activePlayers` Map is the
 * field of a `Registry` object; each operation is specified by a pure
 * transition function on the map, and the lemmas relate the transitions.
 * `Date.now()` is passed in as `now`.
 */
module GameRules {
  import opened Wrappers

  const ENTRY_FEE: real := 0.1
  const FEE_PERCENTAGE: real := 0.1
  /** Seconds; exported but read by nothing in the modelled code. */
  const GRACE_PERIOD: int := 10
  const MIN_PLAY_TIME: int := 60

  /** One record of `activePlayers`; `null` is `None`. */
  datatype PlayerState = PlayerState(
    isAlive: bool,
    joinTime: int,
    lastHitBy: Option<string>,
    disconnectTime: Option<int>,
    isDisconnected: bool)

  type Records = map<string, PlayerState>

  /** Every record is alive: nothing in the file ever sets `isAlive` to false. */
  ghost predicate AllAlive(m: Records) {
    forall w :: w in m ==> m[w].isAlive
  }

  /** `addPlayer`: a fresh record for `wallet`, replacing any earlier one. */
  function Added(m: Records, wallet: string, now: int): (r: Records)
    ensures r.Keys == m.Keys + {wallet}
    ensures r[wallet].isAlive && r[wallet].joinTime == now && r[wallet].lastHitBy == None
    ensures r[wallet].disconnectTime == None && !r[wallet].isDisconnected
    ensures forall w :: w in m && w != wallet ==> r[w] == m[w]
  {
    m[wallet := PlayerState(true, now, None, None, false)]
  }

  /** `removePlayer`: deletes the record only when it exists and is not alive. */
  function Removed(m: Records, wallet: string): (r: Records)
    ensures r.Keys == if wallet in m && !m[wallet].isAlive then m.Keys - {wallet} else m.Keys
    ensures forall w :: w in r ==> r[w] == m[w]
  {
    if wallet in m && !m[wallet].isAlive then m - {wallet} else m
  }

  /** `updateLastHitBy`: sets `lastHitBy` of an existing record and nothing else. */
  function HitBy(m: Records, wallet: string, hitByWallet: string): (r: Records)
    ensures r.Keys == m.Keys
    ensures wallet in m ==> r[wallet] == m[wallet].(lastHitBy := Some(hitByWallet))
    ensures forall w :: w in m && w != wallet ==> r[w] == m[w]
  {
    if wallet in m then m[wallet := m[wallet].(lastHitBy := Some(hitByWallet))] else m
  }

  /** `handleDisconnect`: marks an existing record as disconnected at `now`. */
  function Disconnected(m: Records, wallet: string, now: int): (r: Records)
    ensures r.Keys == m.Keys
    ensures wallet in m ==> r[wallet] == m[wallet].(isDisconnected := true, disconnectTime := Some(now))
    ensures forall w :: w in m && w != wallet ==> r[w] == m[w]
  {
    if wallet in m then m[wallet := m[wallet].(isDisconnected := true, disconnectTime := Some(now))] else m
  }

  /** `handleReconnect`: clears the disconnection marks of an existing record. */
  function Reconnected(m: Records, wallet: string): (r: Records)
    ensures r.Keys == m.Keys
    ensures wallet in m ==> r[wallet] == m[wallet].(isDisconnected := false, disconnectTime := None)
    ensures forall w :: w in m && w != wallet ==> r[w] == m[w]
  {
    if wallet in m then m[wallet := m[wallet].(isDisconnected := false, disconnectTime := None)] else m
  }

  /** Every transition keeps all records alive. */
  lemma TransitionsKeepAllAlive(m: Records, wallet: string, other: string, now: int)
    requires AllAlive(m)
    ensures AllAlive(Added(m, wallet, now))
    ensures AllAlive(Removed(m, wallet))
    ensures AllAlive(HitBy(m, wallet, other))
    ensures AllAlive(Disconnected(m, wallet, now))
    ensures AllAlive(Reconnected(m, wallet))
  {
  }

  /** The quirk of `removePlayer`: on a map whose records are all alive it deletes nothing. */
  lemma RemoveNeverDeletesLiveRecord(m: Records, wallet: string)
    requires AllAlive(m)
    ensures Removed(m, wallet) == m
  {
  }

  /** In particular a record just created by `addPlayer` survives `removePlayer`. */
  lemma RemoveAfterAddKeepsRecord(m: Records, wallet: string, now: int)
    ensures Removed(Added(m, wallet, now), wallet) == Added(m, wallet, now)
  {
  }

  /** `updateLastHitBy` never creates a record for an unknown wallet. */
  lemma HitByUnknownIsNoOp(m: Records, wallet: string, hitByWallet: string)
    requires wallet !in m
    ensures HitBy(m, wallet, hitByWallet) == m
  {
  }

  /** A disconnect followed by a reconnect leaves every other field as it was. */
  lemma ReconnectUndoesDisconnect(m: Records, wallet: string, now: int)
    ensures Reconnected(Disconnected(m, wallet, now), wallet)
         == Reconnected(m, wallet)
    ensures wallet in m && !m[wallet].isDisconnected && m[wallet].disconnectTime == None ==>
              Reconnected(Disconnected(m, wallet, now), wallet) == m
  {
  }

  /** The activePlayers Map as a mutable object. */
  class Registry {
    var activePlayers: Records

    ghost predicate Valid()
      reads this
    {
      AllAlive(activePlayers)
    }

    constructor ()
      ensures Valid() && activePlayers == map[]
    {
      activePlayers := map[];
    }

    method AddPlayer(wallet: string, now: int)
      requires Valid()
      modifies this
      ensures Valid()
      ensures activePlayers == Added(old(activePlayers), wallet, now)
    {
      activePlayers := activePlayers[wallet := PlayerState(
        isAlive := true,
        joinTime := now,
        lastHitBy := None,
        disconnectTime := None,
        isDisconnected := false)];
    }

    /** Works on any map; on a valid one (all records alive) it changes nothing. */
    method RemovePlayer(wallet: string)
      modifies this
      ensures old(Valid()) ==> Valid()
      ensures activePlayers == Removed(old(activePlayers), wallet)
      ensures old(Valid()) ==> activePlayers == old(activePlayers)
    {
      if wallet in activePlayers {
        var player := activePlayers[wallet];
        if !player.isAlive {
          activePlayers := activePlayers - {wallet};
        }
      }
    }

    method UpdateLastHitBy(wallet: string, hitByWallet: string)
      requires Valid()
      modifies this
      ensures Valid()
      ensures activePlayers == HitBy(old(activePlayers), wallet, hitByWallet)
    {
      if wallet in activePlayers {
        activePlayers := activePlayers[wallet := activePlayers[wallet].(lastHitBy := Some(hitByWallet))];
      }
    }

    method HandleDisconnect(wallet: string, now: int)
      requires Valid()
      modifies this
      ensures Valid()
      ensures activePlayers == Disconnected(old(activePlayers), wallet, now)
    {
      if wallet in activePlayers {
        var player := activePlayers[wallet];
        player := player.(isDisconnected := true);
        player := player.(disconnectTime := Some(now));
        activePlayers := activePlayers[wallet := player];
      }
    }

    method HandleReconnect(wallet: string)
      requires Valid()
      modifies this
      ensures Valid()
      ensures activePlayers == Reconnected(old(activePlayers), wallet)
    {
      if wallet in activePlayers {
        var player := activePlayers[wallet];
        player := player.(isDisconnected := false);
        player := player.(disconnectTime := None);
        activePlayers := activePlayers[wallet := player];
      }
    }
  }

  /** Stubbed: the grace period is always in force. */
  function IsInGracePeriod(wallet: string): (r: bool)
    ensures r
  {
    true
  }

  /** Stubbed: every player may always quit. */
  function CanQuit(wallet: string): (r: bool)
    ensures r
  {
    true
  }

  datatype RewardSplit = RewardSplit(reward: real, fee: real)

  /** The house keeps FEE_PERCENTAGE of a payout; the rest is the reward. */
  function CalculateRewardWithFee(amount: real): (r: RewardSplit)
    ensures r.reward + r.fee == amount
    ensures 10.0 * r.fee == amount && r.reward == 9.0 * r.fee
    ensures amount >= 0.0 ==> 0.0 <= r.fee <= r.reward <= amount
    ensures amount > 0.0 ==> r.reward < amount
  {
    var fee := amount * FEE_PERCENTAGE;
    var reward := amount - fee;
    RewardSplit(reward, fee)
  }
}
