/**
 * Two per-socket commands of src/server/server.js: 'fire food' (message
 * '1'), in which every heavy enough cell ejects one pellet, and the join gate
 * of 'gotit', an ordered series of rejection checks.
 */
module Commands {
  import opened Wrappers
  import opened Seqs
  import opened Entities

  // ----- Fire food -----

  /** A cell fires when its mass is at least `defaultPlayerMass + fireFood`. */
  predicate Fires(cfg: Config, c: Cell) {
    c.mass >= cfg.defaultPlayerMass + cfg.fireFood
  }

  function FiresAt(cfg: Config, cells: seq<Cell>): nat -> bool {
    (k: nat) => k < |cells| && Fires(cfg, cells[k])
  }

  /** The cell after the command: `changeCellMass(i, -fireFood)` when it fires. */
  function Fired(cfg: Config, c: Cell): (r: Cell)
    ensures r.x == c.x && r.y == c.y
    ensures r.mass == if Fires(cfg, c) then c.mass - cfg.fireFood else c.mass
    ensures Fires(cfg, c) ==> Sized(r, cfg.massToRadius)
    ensures !Fires(cfg, c) ==> r == c
  {
    if Fires(cfg, c) then Resized(c, -cfg.fireFood, cfg.massToRadius) else c
  }

  function FiredCells(cfg: Config, cells: seq<Cell>): (r: seq<Cell>)
    ensures |r| == |cells|
    ensures forall k :: 0 <= k < |cells| ==> r[k] == Fired(cfg, cells[k])
    ensures AllSized(cells, cfg.massToRadius) ==> AllSized(r, cfg.massToRadius)
  {
    seq(|cells|, k requires 0 <= k < |cells| => Fired(cfg, cells[k]))
  }

  /** The pellet `massFood.addNew(currentPlayer, k, fireFood)` adds for cell k. */
  function Pellet(owner: string, cfg: Config, cells: seq<Cell>, k: nat): MassFood
    requires k < |cells|
  {
    MassFood(owner, k, cells[k].x, cells[k].y, cfg.fireFood, cfg.ejectSpeed)
  }

  /** The pellets added while the loop visits the first `n` cells, in that order. */
  function Pellets(owner: string, cfg: Config, cells: seq<Cell>, n: nat): seq<MassFood>
    requires n <= |cells|
    decreases n
  {
    if n == 0 then []
    else Pellets(owner, cfg, cells, n - 1) + if Fires(cfg, cells[n - 1]) then [Pellet(owner, cfg, cells, n - 1)] else []
  }

  /**
   * One pellet per firing cell, in cell order: pellet j belongs to `owner`,
   * weighs `fireFood` and carries the index of the cell that fired it.
   */
  lemma {:induction false} PelletsOfFiringCells(owner: string, cfg: Config, cells: seq<Cell>, n: nat)
    requires n <= |cells|
    ensures |Pellets(owner, cfg, cells, n)| == |Filter(Range(n), FiresAt(cfg, cells))|
    ensures forall j :: 0 <= j < |Pellets(owner, cfg, cells, n)| ==>
              var p := Pellets(owner, cfg, cells, n)[j];
              p.id == owner && p.mass == cfg.fireFood && p.num == Filter(Range(n), FiresAt(cfg, cells))[j]
    decreases n
  {
    if n > 0 {
      PelletsOfFiringCells(owner, cfg, cells, n - 1);
      assert Range(n) == Range(n - 1) + [n - 1];
      FilterAppend<nat>(Range(n - 1), n - 1, FiresAt(cfg, cells));
    }
  }

  /** Firing moves mass from the cells into the pellets without creating or losing any. */
  lemma {:induction false} FireConservesMass(owner: string, cfg: Config, cells: seq<Cell>, n: nat)
    requires n <= |cells|
    ensures SumOf(FiredCells(cfg, cells)[..n], CellMass) + SumOf(Pellets(owner, cfg, cells, n), PelletMass)
            == SumOf(cells[..n], CellMass)
    decreases n
  {
    if n > 0 {
      FireConservesMass(owner, cfg, cells, n - 1);
      var fired := FiredCells(cfg, cells);
      assert fired[..n] == fired[..n - 1] + [fired[n - 1]];
      assert cells[..n] == cells[..n - 1] + [cells[n - 1]];
      SumOfConcat(fired[..n - 1], [fired[n - 1]], CellMass);
      SumOfConcat(cells[..n - 1], [cells[n - 1]], CellMass);
      var added := if Fires(cfg, cells[n - 1]) then [Pellet(owner, cfg, cells, n - 1)] else [];
      SumOfConcat(Pellets(owner, cfg, cells, n - 1), added, PelletMass);
    }
  }

  // ----- The join gate -----

  /** Why `gotit` turned a player away, in the order the checks run. */
  datatype Rejection = AlreadyConnected | InvalidNick | MissingWallet | MalformedWallet | FeeNotPaid

  /**
   * The outcome of the checks of `gotit`: `present` is whether the socket id
   * is already in the player store, `validNick` the verdict of
   * `util.validNick`, `walletParses` whether `new PublicKey(wallet)` succeeds
   * and `paid` the verdict of `hasPaidEntryFee`. The first failing check wins.
   */
  function Admission(present: bool, validNick: bool, wallet: string, walletParses: bool, paid: bool): (r: Option<Rejection>)
    ensures r == None <==> !present && validNick && wallet != "" && walletParses && paid
    ensures r == Some(AlreadyConnected) <==> present
    ensures r == Some(InvalidNick) <==> !present && !validNick
    ensures r == Some(MissingWallet) <==> !present && validNick && wallet == ""
    ensures r == Some(MalformedWallet) <==> !present && validNick && wallet != "" && !walletParses
    ensures r == Some(FeeNotPaid) <==> !present && validNick && wallet != "" && walletParses && !paid
  {
    if present then Some(AlreadyConnected)
    else if !validNick then Some(InvalidNick)
    else if wallet == "" then Some(MissingWallet)
    else if !walletParses then Some(MalformedWallet)
    else if !paid then Some(FeeNotPaid)
    else None
  }

  /** The 'kick' message sent before the disconnect; an id already present is disconnected silently. */
  function KickMessage(why: Rejection): (r: Option<string>)
    ensures r.None? <==> why == AlreadyConnected
  {
    match why
    case AlreadyConnected => None
    case InvalidNick => Some("Invalid username.")
    case MissingWallet => Some("Wallet address required.")
    case MalformedWallet => Some("Invalid wallet address format.")
    case FeeNotPaid => Some("Entry fee not paid.")
  }

  /** The messages a rejected socket receives: the kick, if any, then the disconnect. */
  function RejectionEvents(socket: string, why: Rejection): (r: seq<Event>)
    ensures |r| >= 1 && r[|r| - 1] == ForcedDisconnect(socket)
    ensures |r| == 2 <==> KickMessage(why).Some?
    ensures |r| == 2 ==> r[0] == Kick(socket, KickMessage(why).value)
  {
    match KickMessage(why)
    case None => [ForcedDisconnect(socket)]
    case Some(msg) => [Kick(socket, msg), ForcedDisconnect(socket)]
  }

  /** The entry-fee check is a stub that accepts every wallet. */
  function HasPaidEntryFee(wallet: string): (r: bool)
    ensures r
  {
    true
  }

  /** With the stub in place, no player is ever turned away for the fee. */
  lemma FeeNeverRejects(present: bool, validNick: bool, wallet: string, walletParses: bool)
    ensures Admission(present, validNick, wallet, walletParses, HasPaidEntryFee(wallet)) != Some(FeeNotPaid)
  {
  }

  // ----- Cash-out -----

  /**
   * The outcome of a 'cashOut' request from socket `socket`: `sent` is what
   * `solana.sendReward` reports, consulted only once the request has passed
   * both checks.
   */
  function CashOutOutcome(ps: seq<Player>, socket: string, sent: bool): (r: CashOutReason)
    ensures r == PlayerOrWalletMissing <==> FindById(ps, socket).None? || ps[FindById(ps, socket).value].walletAddress == ""
    ensures r == NothingToCashOut <==>
              FindById(ps, socket).Some? && ps[FindById(ps, socket).value].walletAddress != ""
              && ps[FindById(ps, socket).value].solBalance <= 0.0
    ensures r.CashedOut? <==>
              FindById(ps, socket).Some? && ps[FindById(ps, socket).value].walletAddress != ""
              && ps[FindById(ps, socket).value].solBalance > 0.0 && sent
    ensures r.CashedOut? ==> r.amount == ps[FindById(ps, socket).value].solBalance && r.amount > 0.0
  {
    match FindById(ps, socket)
    case None => PlayerOrWalletMissing
    case Some(i) =>
      if ps[i].walletAddress == "" then PlayerOrWalletMissing
      else if ps[i].solBalance <= 0.0 then NothingToCashOut
      else if sent then CashedOut(ps[i].solBalance)
      else SendFailed
  }

  /** The player store after the request: the requester's balance is zeroed only on a payout. */
  function Payout(ps: seq<Player>, socket: string, sent: bool): (r: seq<Player>)
    ensures |r| == |ps|
    ensures forall j :: 0 <= j < |ps| ==>
              r[j] == if CashOutOutcome(ps, socket, sent).CashedOut? && FindById(ps, socket) == Some(j)
                      then ps[j].(solBalance := 0.0) else ps[j]
  {
    if CashOutOutcome(ps, socket, sent).CashedOut? then
      var i := FindById(ps, socket).value;
      ps[i := ps[i].(solBalance := 0.0)]
    else ps
  }

  /** The messages of the request: a balance update on a payout, then the result. */
  function CashOutEvents(socket: string, outcome: CashOutReason): (r: seq<Event>)
    ensures |r| >= 1 && r[|r| - 1] == CashOutResult(socket, outcome.CashedOut?, outcome)
    ensures |r| == 2 <==> outcome.CashedOut?
    ensures |r| == 2 ==> r[0] == SolBalanceUpdate(socket, 0.0)
  {
    if outcome.CashedOut? then [SolBalanceUpdate(socket, 0.0), CashOutResult(socket, true, outcome)]
    else [CashOutResult(socket, false, outcome)]
  }

  /**
   * `solana.sendReward` as far as its own code decides: without a game
   * wallet it reports failure at once; otherwise it reports whether the
   * transfer was sent and confirmed, which the ledger decides.
   */
  function SendReward(gameWalletSet: bool, transferConfirmed: bool): (r: bool)
    ensures r ==> gameWalletSet
    ensures gameWalletSet ==> r == transferConfirmed
  {
    if !gameWalletSet then false else transferConfirmed
  }

  /** Without a game wallet no cash-out succeeds, and every stake stays in place. */
  lemma NoGameWalletNoPayout(ps: seq<Player>, socket: string, transferConfirmed: bool)
    ensures !CashOutOutcome(ps, socket, SendReward(false, transferConfirmed)).CashedOut?
    ensures Payout(ps, socket, SendReward(false, transferConfirmed)) == ps
  {
  }

  /** The stakes in the store fall by exactly the amount paid out, and by nothing otherwise. */
  lemma PayoutConservesStakes(ps: seq<Player>, socket: string, sent: bool)
    ensures var outcome := CashOutOutcome(ps, socket, sent);
            SumOf(Payout(ps, socket, sent), Balance) + (if outcome.CashedOut? then outcome.amount else 0.0)
            == SumOf(ps, Balance)
  {
    if CashOutOutcome(ps, socket, sent).CashedOut? {
      var i := FindById(ps, socket).value;
      SumOfUpdate(ps, i, ps[i].(solBalance := 0.0), Balance);
    }
  }
}
