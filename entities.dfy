/**
 * The entities of the authoritative game in src/server/server.js: the
 * configuration it reads, player cells, food, ejected mass pellets, viruses,
 * players with their SOL stake, and the notifications the server emits.
 * Masses, positions and balances are JavaScript doubles, modelled as reals.
 */
module Entities {
  import opened Wrappers
  import opened Seqs

  /** The fields of the static `config` object that the modelled code reads. */
  datatype Config = Config(
    foodMass: real,
    defaultPlayerMass: real,
    fireFood: real,
    limitSplit: nat,
    /** Speed given to a pellet by `massFood.addNew`, whose code is not shown. */
    ejectSpeed: real,
    /** `util.massToRadius`, whose code is not shown: the radius of a cell of a given mass. */
    massToRadius: real -> real)

  datatype Cell = Cell(x: real, y: real, mass: real, radius: real)

  datatype Food = Food(x: real, y: real)

  /** A pellet ejected by cell `num` of player `id`; it drifts while `speed > 0`. */
  datatype MassFood = MassFood(id: string, num: int, x: real, y: real, mass: real, speed: real)

  datatype Virus = Virus(x: real, y: real, mass: real)

  /** A player record in the store; an empty `walletAddress` is a missing wallet. */
  datatype Player = Player(
    id: string,
    name: string,
    walletAddress: string,
    cells: seq<Cell>,
    solBalance: real)

  /** What `getTopPlayers` reports for one player. */
  datatype TopPlayer = TopPlayer(id: string, name: string, walletAddress: string, massTotal: real)

  /** A leaderboard line: the top player with its wallet and SOL valuation. */
  datatype LeaderEntry = LeaderEntry(id: string, name: string, walletAddress: string, massTotal: real, valuation: real)

  datatype CashOutReason = PlayerOrWalletMissing | NothingToCashOut | CashedOut(amount: real) | SendFailed

  /** Socket messages, appended to a log in the order the server emits them. */
  datatype Event =
    | Kick(socket: string, reason: string)
    | ForcedDisconnect(socket: string)
    | PlayerJoin(name: string)
    | SolBalanceUpdate(socket: string, balance: real)
    | RewardEarned(player: string, amount: real, fee: real, eatenPlayer: string)
    | PlayerDied(name: string)
    | Rip(socket: string)
    | CashOutResult(socket: string, success: bool, outcome: CashOutReason)
    | PlayerDisconnect(name: string)
    | PlayerChat(sender: string, message: string)
    | TellPlayerMove(socket: string)
    | SendLeaderboard(socket: string, players: nat, board: seq<LeaderEntry>)

  /** `SAT.pointInCircle`: the point lies in the closed disc of the cell. */
  predicate Inside(px: real, py: real, c: Cell) {
    (px - c.x) * (px - c.x) + (py - c.y) * (py - c.y) <= c.radius * c.radius
  }

  /** `canEatMass` of player `owner`'s cell number `cellIndex`. */
  function CanEatMass(owner: string, cell: Cell, cellIndex: int, m: MassFood): (r: bool)
    ensures r <==> Inside(m.x, m.y, cell)
                   && !(m.id == owner && m.speed > 0.0 && m.num == cellIndex)
                   && cell.mass > m.mass * 1.1
  {
    if Inside(m.x, m.y, cell) then
      if m.id == owner && m.speed > 0.0 && cellIndex == m.num then false
      else cell.mass > m.mass * 1.1
    else false
  }

  /** `canEatVirus`. */
  predicate CanEatVirus(cell: Cell, v: Virus) {
    v.mass < cell.mass && Inside(v.x, v.y, cell)
  }

  // The selectors handed to `util.getIndexes` and their complements, the
  // entities that stay in their store.
  function EdibleFood(cell: Cell): Food -> bool { (f: Food) => Inside(f.x, f.y, cell) }
  function InedibleFood(cell: Cell): Food -> bool { (f: Food) => !Inside(f.x, f.y, cell) }
  function EdibleMass(owner: string, cell: Cell, ci: int): MassFood -> bool { (m: MassFood) => CanEatMass(owner, cell, ci, m) }
  function InedibleMass(owner: string, cell: Cell, ci: int): MassFood -> bool { (m: MassFood) => !CanEatMass(owner, cell, ci, m) }
  function EdibleVirus(cell: Cell): Virus -> bool { (v: Virus) => CanEatVirus(cell, v) }
  function InedibleVirus(cell: Cell): Virus -> bool { (v: Virus) => !CanEatVirus(cell, v) }

  function PelletMass(m: MassFood): real { m.mass }
  /** Every food pellet weighs `foodMass`. */
  function FoodPellet(foodMass: real): Food -> real { (f: Food) => foodMass }
  function CellMass(c: Cell): real { c.mass }
  function PlayerMass(p: Player): real { SumOf(p.cells, CellMass) }
  function Balance(p: Player): real { p.solBalance }

  /** The cell's radius is the one `massToRadius` gives for its mass. */
  predicate Sized(c: Cell, massToRadius: real -> real) {
    c.radius == massToRadius(c.mass)
  }

  /** Every cell's radius matches its mass. */
  predicate AllSized(cells: seq<Cell>, massToRadius: real -> real) {
    forall k :: 0 <= k < |cells| ==> Sized(cells[k], massToRadius)
  }

  /** Every cell of every player's radius matches its mass. */
  predicate PlayersSized(ps: seq<Player>, massToRadius: real -> real) {
    forall i :: 0 <= i < |ps| ==> AllSized(ps[i].cells, massToRadius)
  }

  /** A cell whose mass changes by `delta`: its radius follows the new mass, its position stays. */
  function Resized(c: Cell, delta: real, massToRadius: real -> real): (r: Cell)
    ensures r.x == c.x && r.y == c.y
    ensures r.mass == c.mass + delta
    ensures Sized(r, massToRadius)
  {
    c.(mass := c.mass + delta, radius := massToRadius(c.mass + delta))
  }

  /**
   * `changeCellMass(i, delta)` as its call sites use it: cell `i` gains
   * `delta` and takes the radius of its new mass; the other cells stay.
   */
  function WithCellMass(cells: seq<Cell>, i: nat, delta: real, massToRadius: real -> real): (r: seq<Cell>)
    requires i < |cells|
    ensures |r| == |cells|
    ensures r[i].mass == cells[i].mass + delta && Sized(r[i], massToRadius)
    ensures r[i].x == cells[i].x && r[i].y == cells[i].y
    ensures forall k :: 0 <= k < |cells| && k != i ==> r[k] == cells[k]
    ensures AllSized(cells, massToRadius) ==> AllSized(r, massToRadius)
    ensures SumOf(r, CellMass) == SumOf(cells, CellMass) + delta
  {
    SumOfUpdate(cells, i, Resized(cells[i], delta, massToRadius), CellMass);
    cells[i := Resized(cells[i], delta, massToRadius)]
  }

  /** `Array.prototype.find` on the player store by id. */
  function FindById(ps: seq<Player>, id: string): (r: Option<nat>)
    ensures r.Some? ==> r.value < |ps| && ps[r.value].id == id
    ensures r.Some? ==> forall j :: 0 <= j < r.value ==> ps[j].id != id
    ensures r.None? <==> forall j :: 0 <= j < |ps| ==> ps[j].id != id
    decreases |ps|
  {
    if |ps| == 0 then None
    else if ps[0].id == id then Some(0)
    else match FindById(ps[1..], id)
      case None => None
      case Some(k) => Some(k + 1)
  }

  /** The ids of the store, in order. */
  function Ids(ps: seq<Player>): (r: seq<string>)
    ensures |r| == |ps|
    ensures forall i :: 0 <= i < |ps| ==> r[i] == ps[i].id
  {
    Project(ps, (p: Player) => p.id)
  }
}
