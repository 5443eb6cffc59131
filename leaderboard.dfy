/**
 * Leaderboard values of src/server/server.js: the enrichment of the top list
 * with wallet and SOL valuation in `calculateLeaderboard`, its change test,
 * and the messages `sendUpdates` emits to every spectator and player.
 */
module Leaderboard {
  import opened Seqs
  import opened Entities
  import GameRules

  /** A player's worth in SOL: its mass measured in starting masses, each worth the entry fee. */
  function Valuation(massTotal: real, defaultPlayerMass: real): real
    requires defaultPlayerMass != 0.0
  {
    massTotal * GameRules.ENTRY_FEE / defaultPlayerMass
  }

  /** A player at the starting mass is worth exactly the entry fee. */
  lemma ValuationOfStartingMass(defaultPlayerMass: real)
    requires defaultPlayerMass != 0.0
    ensures Valuation(defaultPlayerMass, defaultPlayerMass) == GameRules.ENTRY_FEE
  {
  }

  /** Valuation is additive in mass and grows with it. */
  lemma ValuationLinear(m1: real, m2: real, defaultPlayerMass: real)
    requires defaultPlayerMass > 0.0
    ensures Valuation(m1 + m2, defaultPlayerMass) == Valuation(m1, defaultPlayerMass) + Valuation(m2, defaultPlayerMass)
    ensures m1 <= m2 ==> Valuation(m1, defaultPlayerMass) <= Valuation(m2, defaultPlayerMass)
  {
    var d := defaultPlayerMass;
    assert (m1 + m2) * GameRules.ENTRY_FEE / d == m1 * GameRules.ENTRY_FEE / d + m2 * GameRules.ENTRY_FEE / d;
    if m1 <= m2 {
      assert m1 * GameRules.ENTRY_FEE <= m2 * GameRules.ENTRY_FEE;
    }
  }

  /** The enriched top list, in the order `getTopPlayers` returned it. */
  function Enrich(top: seq<TopPlayer>, defaultPlayerMass: real): (r: seq<LeaderEntry>)
    requires defaultPlayerMass != 0.0
    ensures |r| == |top|
    ensures forall i :: 0 <= i < |top| ==>
              r[i] == LeaderEntry(top[i].id, top[i].name, top[i].walletAddress, top[i].massTotal,
                                  Valuation(top[i].massTotal, defaultPlayerMass))
  {
    seq(|top|, i requires 0 <= i < |top| =>
      LeaderEntry(top[i].id, top[i].name, top[i].walletAddress, top[i].massTotal,
                  Valuation(top[i].massTotal, defaultPlayerMass)))
  }

  /** The ids of a board, in order. */
  function BoardIds(b: seq<LeaderEntry>): (r: seq<string>)
    ensures |r| == |b|
    ensures forall i :: 0 <= i < |b| ==> r[i] == b[i].id
  {
    Project(b, (e: LeaderEntry) => e.id)
  }

  /** The change test of `calculateLeaderboard`: a different length, or a different id at some place. */
  predicate BoardDiffers(old_: seq<LeaderEntry>, new_: seq<LeaderEntry>) {
    |old_| != |new_| || exists i :: 0 <= i < |old_| && old_[i].id != new_[i].id
  }

  /** The boards differ exactly when their id lists differ; names, masses and valuations are not compared. */
  lemma BoardDiffersIffIds(old_: seq<LeaderEntry>, new_: seq<LeaderEntry>)
    ensures BoardDiffers(old_, new_) <==> BoardIds(old_) != BoardIds(new_)
  {
    if BoardIds(old_) != BoardIds(new_) && |old_| == |new_| {
      var i :| 0 <= i < |old_| && BoardIds(old_)[i] != BoardIds(new_)[i];
    }
  }

  /** The messages one recipient gets from `sendUpdates`. */
  function UpdateFor(socket: string, changed: bool, players: nat, board: seq<LeaderEntry>): seq<Event> {
    [TellPlayerMove(socket)] + if changed then [SendLeaderboard(socket, players, board)] else []
  }

  /** The messages of `sendUpdates`, recipient by recipient. */
  function UpdateEvents(recipients: seq<string>, changed: bool, players: nat, board: seq<LeaderEntry>): (r: seq<Event>)
    decreases |recipients|
  {
    if |recipients| == 0 then []
    else UpdateEvents(recipients[..|recipients| - 1], changed, players, board)
         + UpdateFor(recipients[|recipients| - 1], changed, players, board)
  }

  /** Serving one more recipient appends exactly its messages. */
  lemma UpdateEventsSnoc(recipients: seq<string>, last: string, changed: bool, players: nat, board: seq<LeaderEntry>)
    ensures UpdateEvents(recipients + [last], changed, players, board)
            == UpdateEvents(recipients, changed, players, board) + UpdateFor(last, changed, players, board)
  {
    assert (recipients + [last])[..|recipients|] == recipients;
  }

  /** Serving two lists of recipients one after the other is serving their concatenation. */
  lemma {:induction false} UpdateEventsAppend(a: seq<string>, b: seq<string>, changed: bool, players: nat, board: seq<LeaderEntry>)
    ensures UpdateEvents(a + b, changed, players, board)
            == UpdateEvents(a, changed, players, board) + UpdateEvents(b, changed, players, board)
    decreases |b|
  {
    if |b| == 0 {
      assert a + b == a;
    } else {
      var front := b[..|b| - 1];
      assert (a + b)[..|a + b| - 1] == a + front;
      assert (a + b)[|a + b| - 1] == b[|b| - 1];
      UpdateEventsAppend(a, front, changed, players, board);
    }
  }

  /**
   * One message per recipient, two when the board changed, and nothing but
   * move messages and the current board addressed to recipients;
   * `UpdateEventsAt` says which message sits where.
   */
  lemma {:induction false} UpdateEventsShape(recipients: seq<string>, changed: bool, players: nat, board: seq<LeaderEntry>)
    ensures |UpdateEvents(recipients, changed, players, board)| == if changed then 2 * |recipients| else |recipients|
    ensures forall e :: e in UpdateEvents(recipients, changed, players, board) ==>
              (e.TellPlayerMove? && e.socket in recipients)
              || (changed && e.SendLeaderboard? && e == SendLeaderboard(e.socket, players, board) && e.socket in recipients)
    decreases |recipients|
  {
    if |recipients| > 0 {
      var front := recipients[..|recipients| - 1];
      var last := recipients[|recipients| - 1];
      UpdateEventsShape(front, changed, players, board);
      forall e | e in UpdateEvents(recipients, changed, players, board)
        ensures (e.TellPlayerMove? && e.socket in recipients)
                || (changed && e.SendLeaderboard? && e == SendLeaderboard(e.socket, players, board) && e.socket in recipients)
      {
        if e in UpdateEvents(front, changed, players, board) {
          assert e.socket in front;
          assert forall s :: s in front ==> s in recipients;
        } else {
          assert e in UpdateFor(last, changed, players, board);
        }
      }
    }
  }

  /** Recipient `i`'s messages, at place `2 * i` and `2 * i + 1` when the board changed and at place `i` otherwise. */
  lemma {:induction false} UpdateEventsAt(recipients: seq<string>, changed: bool, players: nat, board: seq<LeaderEntry>)
    ensures |UpdateEvents(recipients, changed, players, board)| == if changed then 2 * |recipients| else |recipients|
    ensures changed ==> forall i :: 0 <= i < |recipients| ==>
              && UpdateEvents(recipients, changed, players, board)[2 * i] == TellPlayerMove(recipients[i])
              && UpdateEvents(recipients, changed, players, board)[2 * i + 1] == SendLeaderboard(recipients[i], players, board)
    ensures !changed ==> forall i :: 0 <= i < |recipients| ==>
              UpdateEvents(recipients, changed, players, board)[i] == TellPlayerMove(recipients[i])
    decreases |recipients|
  {
    if |recipients| > 0 {
      var n := |recipients| - 1;
      var front := recipients[..n];
      UpdateEventsAt(front, changed, players, board);
      var all, earlier := UpdateEvents(recipients, changed, players, board), UpdateEvents(front, changed, players, board);
      assert all == earlier + UpdateFor(recipients[n], changed, players, board);
      forall i | 0 <= i < |recipients|
        ensures changed ==> all[2 * i] == TellPlayerMove(recipients[i]) && all[2 * i + 1] == SendLeaderboard(recipients[i], players, board)
        ensures !changed ==> all[i] == TellPlayerMove(recipients[i])
      {
        if i < n {
          assert recipients[i] == front[i];
          if changed {
            assert all[2 * i] == earlier[2 * i] && all[2 * i + 1] == earlier[2 * i + 1];
          } else {
            assert all[i] == earlier[i];
          }
        }
      }
    }
  }
}
