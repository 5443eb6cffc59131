/**
 * The collision callback of `tickGame` (src/server/server.js): one cell of
 * player `eatenPlayer` is eaten by one cell of a different player. When both
 * players have a wallet, the whole stake of the eaten player moves to the
 * eater. The eater's cell grows by the eaten cell's mass, the eaten cell is
 * removed, and the eaten player's record goes with its last cell.
 */
module Settlement {
  import opened Seqs
  import opened Entities

  /** The pair `gotEaten`, `eater` handed to the callback by `handleCollisions`. */
  datatype Collision = Collision(eatenPlayer: nat, eatenCell: nat, eaterPlayer: nat, eaterCell: nat)

  /** Both indices pairs point into the store, at two different players. */
  predicate ValidCollision(ps: seq<Player>, c: Collision) {
    && c.eatenPlayer < |ps| && c.eaterPlayer < |ps| && c.eatenPlayer != c.eaterPlayer
    && c.eatenCell < |ps[c.eatenPlayer].cells| && c.eaterCell < |ps[c.eaterPlayer].cells|
  }

  /** The stake moves only when both players have a wallet address. */
  predicate StakeMoves(ps: seq<Player>, c: Collision)
    requires ValidCollision(ps, c)
  {
    ps[c.eatenPlayer].walletAddress != "" && ps[c.eaterPlayer].walletAddress != ""
  }

  /** `removeCell` reports that the eaten cell was the player's last. */
  predicate Dies(ps: seq<Player>, c: Collision)
    requires ValidCollision(ps, c)
  {
    |ps[c.eatenPlayer].cells| == 1
  }

  /** The eater after the callback: its stake grown if it moves, its cell grown by the prey's mass. */
  function EaterAfter(ps: seq<Player>, c: Collision, massToRadius: real -> real): Player
    requires ValidCollision(ps, c)
  {
    var eater := ps[c.eaterPlayer];
    var prey := ps[c.eatenPlayer].cells[c.eatenCell];
    eater.(solBalance := if StakeMoves(ps, c) then eater.solBalance + ps[c.eatenPlayer].solBalance else eater.solBalance,
           cells := WithCellMass(eater.cells, c.eaterCell, prey.mass, massToRadius))
  }

  /** The eaten player after the callback: stake zeroed if it moves, eaten cell removed. */
  function EatenAfter(ps: seq<Player>, c: Collision): Player
    requires ValidCollision(ps, c)
  {
    var eaten := ps[c.eatenPlayer];
    eaten.(solBalance := if StakeMoves(ps, c) then 0.0 else eaten.solBalance,
           cells := RemoveAt(eaten.cells, c.eatenCell))
  }

  /** The player store after the callback. */
  function Settle(ps: seq<Player>, c: Collision, massToRadius: real -> real): (r: seq<Player>)
    requires ValidCollision(ps, c)
    ensures |r| == if Dies(ps, c) then |ps| - 1 else |ps|
  {
    var updated := ps[c.eaterPlayer := EaterAfter(ps, c, massToRadius)][c.eatenPlayer := EatenAfter(ps, c)];
    if Dies(ps, c) then RemoveAt(updated, c.eatenPlayer) else updated
  }

  /** Where a player at index `i` is found after the callback (indices shift when the eaten record goes). */
  function IndexAfter(ps: seq<Player>, c: Collision, i: nat): nat
    requires ValidCollision(ps, c)
  {
    if Dies(ps, c) && i > c.eatenPlayer then i - 1 else i
  }

  /**
   * Every player other than the eater and the eaten is unchanged, only
   * moved down by one place when the eaten record is removed before it.
   */
  lemma SettleKeepsBystanders(ps: seq<Player>, c: Collision, massToRadius: real -> real, i: nat)
    requires ValidCollision(ps, c)
    requires i < |ps| && i != c.eatenPlayer && i != c.eaterPlayer
    ensures IndexAfter(ps, c, i) < |Settle(ps, c, massToRadius)|
    ensures Settle(ps, c, massToRadius)[IndexAfter(ps, c, i)] == ps[i]
  {
  }

  /**
   * The eater's stake grows by the eaten player's stake when both have a
   * wallet, and is untouched otherwise; its eating cell grows by exactly
   * the prey's mass and its other cells are unchanged.
   */
  lemma SettleRewardsEater(ps: seq<Player>, c: Collision, massToRadius: real -> real)
    requires ValidCollision(ps, c)
    ensures IndexAfter(ps, c, c.eaterPlayer) < |Settle(ps, c, massToRadius)|
    ensures var e := Settle(ps, c, massToRadius)[IndexAfter(ps, c, c.eaterPlayer)];
            && e.id == ps[c.eaterPlayer].id
            && e.solBalance == (if StakeMoves(ps, c) then ps[c.eaterPlayer].solBalance + ps[c.eatenPlayer].solBalance
                                else ps[c.eaterPlayer].solBalance)
            && |e.cells| == |ps[c.eaterPlayer].cells|
            && e.cells[c.eaterCell].mass == ps[c.eaterPlayer].cells[c.eaterCell].mass + ps[c.eatenPlayer].cells[c.eatenCell].mass
            && Sized(e.cells[c.eaterCell], massToRadius)
            && (forall k :: 0 <= k < |e.cells| && k != c.eaterCell ==> e.cells[k] == ps[c.eaterPlayer].cells[k])
  {
  }

  /**
   * The eaten player survives exactly when it had another cell; then its
   * stake is zero if it moved and untouched otherwise, and it has lost
   * exactly the eaten cell.
   */
  lemma SettleChargesEaten(ps: seq<Player>, c: Collision, massToRadius: real -> real)
    requires ValidCollision(ps, c)
    ensures Dies(ps, c) && (forall i :: 0 <= i < |ps| && i != c.eatenPlayer ==> ps[i].id != ps[c.eatenPlayer].id) ==>
              forall i :: 0 <= i < |Settle(ps, c, massToRadius)| ==> Settle(ps, c, massToRadius)[i].id != ps[c.eatenPlayer].id
    ensures !Dies(ps, c) ==>
              var e := Settle(ps, c, massToRadius)[c.eatenPlayer];
              && e.id == ps[c.eatenPlayer].id
              && e.solBalance == (if StakeMoves(ps, c) then 0.0 else ps[c.eatenPlayer].solBalance)
              && e.cells == RemoveAt(ps[c.eatenPlayer].cells, c.eatenCell)
  {
    if Dies(ps, c) {
      var updated := ps[c.eaterPlayer := EaterAfter(ps, c, massToRadius)][c.eatenPlayer := EatenAfter(ps, c)];
      forall i | 0 <= i < |Settle(ps, c, massToRadius)|
        ensures (forall j :: 0 <= j < |ps| && j != c.eatenPlayer ==> ps[j].id != ps[c.eatenPlayer].id) ==>
                Settle(ps, c, massToRadius)[i].id != ps[c.eatenPlayer].id
      {
        var j := if i < c.eatenPlayer then i else i + 1;
        assert Settle(ps, c, massToRadius)[i] == updated[j];
      }
    }
  }

  /**
   * The stakes in the store add up as before, except that the stake of an
   * eaten player that dies without a stake transfer leaves with its record.
   */
  lemma SettleConservesStakes(ps: seq<Player>, c: Collision, massToRadius: real -> real)
    requires ValidCollision(ps, c)
    ensures SumOf(Settle(ps, c, massToRadius), Balance)
            == SumOf(ps, Balance) - if Dies(ps, c) && !StakeMoves(ps, c) then ps[c.eatenPlayer].solBalance else 0.0
  {
    var step := ps[c.eaterPlayer := EaterAfter(ps, c, massToRadius)];
    var updated := step[c.eatenPlayer := EatenAfter(ps, c)];
    SumOfUpdate(ps, c.eaterPlayer, EaterAfter(ps, c, massToRadius), Balance);
    SumOfUpdate(step, c.eatenPlayer, EatenAfter(ps, c), Balance);
    if Dies(ps, c) {
      SumOfRemoveAt(updated, c.eatenPlayer, Balance);
    }
  }

  /** No cell mass is created or lost: the eater gains what the eaten player loses. */
  lemma SettleConservesMass(ps: seq<Player>, c: Collision, massToRadius: real -> real)
    requires ValidCollision(ps, c)
    ensures SumOf(Settle(ps, c, massToRadius), PlayerMass) == SumOf(ps, PlayerMass)
  {
    var eaten := ps[c.eatenPlayer];
    var prey := eaten.cells[c.eatenCell];
    var step := ps[c.eaterPlayer := EaterAfter(ps, c, massToRadius)];
    var updated := step[c.eatenPlayer := EatenAfter(ps, c)];
    assert PlayerMass(EaterAfter(ps, c, massToRadius)) == PlayerMass(ps[c.eaterPlayer]) + prey.mass;
    SumOfRemoveAt(eaten.cells, c.eatenCell, CellMass);
    assert PlayerMass(EatenAfter(ps, c)) == PlayerMass(eaten) - prey.mass;
    SumOfUpdate(ps, c.eaterPlayer, EaterAfter(ps, c, massToRadius), PlayerMass);
    SumOfUpdate(step, c.eatenPlayer, EatenAfter(ps, c), PlayerMass);
    if Dies(ps, c) {
      assert EatenAfter(ps, c).cells == [];
      SumOfRemoveAt(updated, c.eatenPlayer, PlayerMass);
    }
  }

  /** Radii keep matching masses: the grown cell takes the radius of its new mass, and removal touches no other cell. */
  lemma SettleKeepsSized(ps: seq<Player>, c: Collision, massToRadius: real -> real)
    requires ValidCollision(ps, c) && PlayersSized(ps, massToRadius)
    ensures PlayersSized(Settle(ps, c, massToRadius), massToRadius)
  {
    var eaten := ps[c.eatenPlayer];
    var updated := ps[c.eaterPlayer := EaterAfter(ps, c, massToRadius)][c.eatenPlayer := EatenAfter(ps, c)];
    assert AllSized(ps[c.eaterPlayer].cells, massToRadius);
    assert AllSized(EatenAfter(ps, c).cells, massToRadius) by {
      assert AllSized(eaten.cells, massToRadius);
    }
    assert PlayersSized(updated, massToRadius);
    if Dies(ps, c) {
      var r := RemoveAt(updated, c.eatenPlayer);
      forall i | 0 <= i < |r| ensures AllSized(r[i].cells, massToRadius) {
        assert r[i] == updated[if i < c.eatenPlayer then i else i + 1];
      }
    }
  }

  /** The stake part of the callback: the eater's stake grows by the eaten player's, which drops to zero. */
  function StakeSettled(ps: seq<Player>, c: Collision): (r: seq<Player>)
    requires ValidCollision(ps, c)
    ensures ValidCollision(r, c)
  {
    if StakeMoves(ps, c) then
      var eaten := ps[c.eatenPlayer];
      var eater := ps[c.eaterPlayer];
      ps[c.eaterPlayer := eater.(solBalance := eater.solBalance + eaten.solBalance)][c.eatenPlayer := eaten.(solBalance := 0.0)]
    else ps
  }

  /** The stake messages: each player's new balance, then the broadcast reward. */
  function StakeEvents(ps: seq<Player>, c: Collision): (r: seq<Event>)
    requires ValidCollision(ps, c)
    ensures |r| == if StakeMoves(ps, c) then 3 else 0
  {
    var eaten := ps[c.eatenPlayer];
    var eater := ps[c.eaterPlayer];
    if StakeMoves(ps, c)
    then [SolBalanceUpdate(eater.id, eater.solBalance + eaten.solBalance), SolBalanceUpdate(eaten.id, 0.0),
          RewardEarned(eater.name, eaten.solBalance, 0.0, eaten.name)]
    else []
  }

  /** The death messages: the broadcast death and the eaten player's 'RIP'. */
  function DeathEvents(ps: seq<Player>, c: Collision): (r: seq<Event>)
    requires ValidCollision(ps, c)
    ensures |r| == if Dies(ps, c) then 2 else 0
  {
    if Dies(ps, c) then [PlayerDied(ps[c.eatenPlayer].name), Rip(ps[c.eatenPlayer].id)] else []
  }

  /**
   * The messages of the callback, in order: when the stake moves, each
   * player's new balance and the broadcast reward; when the eaten player
   * dies, the broadcast death and its 'RIP'.
   */
  function CollisionEvents(ps: seq<Player>, c: Collision): (r: seq<Event>)
    requires ValidCollision(ps, c)
    ensures |r| == (if StakeMoves(ps, c) then 3 else 0) + (if Dies(ps, c) then 2 else 0)
  {
    StakeEvents(ps, c) + DeathEvents(ps, c)
  }

  /**
   * The growth and removal part of the callback, applied after the stake
   * part, gives the whole callback.
   */
  lemma SettleAfterStake(ps: seq<Player>, c: Collision, massToRadius: real -> real)
    requires ValidCollision(ps, c)
    ensures var s := StakeSettled(ps, c);
            var eater := s[c.eaterPlayer].(cells := WithCellMass(s[c.eaterPlayer].cells, c.eaterCell, s[c.eatenPlayer].cells[c.eatenCell].mass, massToRadius));
            var eaten := s[c.eatenPlayer].(cells := RemoveAt(s[c.eatenPlayer].cells, c.eatenCell));
            && eater == EaterAfter(ps, c, massToRadius) && eaten == EatenAfter(ps, c)
            && s[c.eaterPlayer := eater][c.eatenPlayer := eaten] == ps[c.eaterPlayer := EaterAfter(ps, c, massToRadius)][c.eatenPlayer := EatenAfter(ps, c)]
            && DeathEvents(s, c) == DeathEvents(ps, c)
  {
  }

  /**
   * The messages agree with the new state: the balances sent are the
   * players' balances after the callback, the reward announced is exactly
   * what the eater's stake grew by, with no fee, and a 'RIP' goes out
   * exactly when the eaten record is removed.
   */
  lemma CollisionEventsAgree(ps: seq<Player>, c: Collision, massToRadius: real -> real)
    requires ValidCollision(ps, c)
    ensures var r := CollisionEvents(ps, c);
            var after := Settle(ps, c, massToRadius);
            && (StakeMoves(ps, c) ==>
                  && r[0] == SolBalanceUpdate(ps[c.eaterPlayer].id, after[IndexAfter(ps, c, c.eaterPlayer)].solBalance)
                  && r[1].SolBalanceUpdate? && r[1].socket == ps[c.eatenPlayer].id
                  && (!Dies(ps, c) ==> r[1].balance == after[c.eatenPlayer].solBalance)
                  && r[2].RewardEarned? && r[2].fee == 0.0
                  && r[2].amount == after[IndexAfter(ps, c, c.eaterPlayer)].solBalance - ps[c.eaterPlayer].solBalance)
            && (forall e :: e in r && e.RewardEarned? ==> StakeMoves(ps, c))
            && (Rip(ps[c.eatenPlayer].id) in r <==> Dies(ps, c))
  {
    SettleRewardsEater(ps, c, massToRadius);
    SettleChargesEaten(ps, c, massToRadius);
    var r := CollisionEvents(ps, c);
    assert r == StakeEvents(ps, c) + DeathEvents(ps, c);
    if Dies(ps, c) {
      assert r[|r| - 1] == Rip(ps[c.eatenPlayer].id);
    }
  }
}
