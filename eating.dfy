/**
 * The cell loop of `tickPlayer` (src/server/server.js): each cell in turn
 * eats the food whose centre it contains, the pellets `canEatMass` allows and
 * the viruses `canEatVirus` allows, from the stores as the earlier cells left
 * them. `TickUpTo` is that loop as a function of the cells processed so far;
 * the lemmas characterise its outcome without reference to the order.
 */
module Eating {
  import opened Seqs
  import opened Entities

  datatype Stores = Stores(food: seq<Food>, massFood: seq<MassFood>, viruses: seq<Virus>)

  /** After the first cells of the loop: the stores, each cell's gain, the queued split indices. */
  datatype Progress = Progress(stores: Stores, gains: seq<real>, splits: seq<nat>)

  /** The food left once the first `n` cells have eaten. */
  function FoodLeft(cells: seq<Cell>, n: nat, food: seq<Food>): seq<Food>
    requires n <= |cells|
    decreases n
  {
    if n == 0 then food else Filter(FoodLeft(cells, n - 1, food), InedibleFood(cells[n - 1]))
  }

  /** The pellets left once the first `n` cells of player `owner` have eaten. */
  function MassLeft(owner: string, cells: seq<Cell>, n: nat, massFood: seq<MassFood>): seq<MassFood>
    requires n <= |cells|
    decreases n
  {
    if n == 0 then massFood
    else Filter(MassLeft(owner, cells, n - 1, massFood), InedibleMass(owner, cells[n - 1], n - 1))
  }

  /** The viruses left; the store is rewritten only when a cell eats at least one. */
  function VirusesLeft(cells: seq<Cell>, n: nat, viruses: seq<Virus>): seq<Virus>
    requires n <= |cells|
    decreases n
  {
    if n == 0 then viruses
    else
      var vs := VirusesLeft(cells, n - 1, viruses);
      if |Filter(vs, EdibleVirus(cells[n - 1]))| > 0 then Filter(vs, InedibleVirus(cells[n - 1])) else vs
  }

  /** `massGained` of one cell: the pellets it may eat plus `foodMass` per food inside it. */
  function MealGain(owner: string, cell: Cell, ci: nat, food: seq<Food>, massFood: seq<MassFood>, foodMass: real): real {
    SumOf(Filter(massFood, EdibleMass(owner, cell, ci)), PelletMass) + SumOf(Filter(food, EdibleFood(cell)), FoodPellet(foodMass))
  }

  /** The gains of the first `n` cells, each from the stores the earlier cells left. */
  function Gains(owner: string, cells: seq<Cell>, n: nat, st: Stores, foodMass: real): (r: seq<real>)
    requires n <= |cells|
    ensures |r| == n
  {
    seq(n, k requires 0 <= k < n => GainAt(owner, cells, k, st, foodMass))
  }

  /** The gain of cell k, from the stores cells 0 .. k - 1 left. */
  function GainAt(owner: string, cells: seq<Cell>, k: nat, st: Stores, foodMass: real): real
    requires k < |cells|
  {
    MealGain(owner, cells[k], k, FoodLeft(cells, k, st.food), MassLeft(owner, cells, k, st.massFood), foodMass)
  }

  /** `cellsToSplit` after the first `n` cells: the indices of the cells that ate a virus. */
  function Splits(cells: seq<Cell>, n: nat, viruses: seq<Virus>): seq<nat>
    requires n <= |cells|
    decreases n
  {
    if n == 0 then []
    else Splits(cells, n - 1, viruses)
         + if |Filter(VirusesLeft(cells, n - 1, viruses), EdibleVirus(cells[n - 1]))| > 0 then [n - 1] else []
  }

  /** The stores once the first `n` cells have eaten. */
  function StoresAfter(owner: string, cells: seq<Cell>, n: nat, st: Stores): Stores
    requires n <= |cells|
  {
    Stores(FoodLeft(cells, n, st.food), MassLeft(owner, cells, n, st.massFood), VirusesLeft(cells, n, st.viruses))
  }

  /** Whether a cell eats at least one of the viruses (`eatenVirusIndexes.length > 0`). */
  predicate EatsVirus(cell: Cell, viruses: seq<Virus>) {
    |Filter(viruses, EdibleVirus(cell))| > 0
  }

  /** The stores after cell `ci` of player `owner` has eaten from `s`. */
  function EatStep(owner: string, cell: Cell, ci: nat, s: Stores): Stores {
    Stores(Filter(s.food, InedibleFood(cell)), Filter(s.massFood, InedibleMass(owner, cell, ci)),
           if EatsVirus(cell, s.viruses) then Filter(s.viruses, InedibleVirus(cell)) else s.viruses)
  }

  /** One more cell: the stores are those the previous cells left, after that cell's meal. */
  lemma StoresAfterStep(owner: string, cells: seq<Cell>, n: nat, st: Stores)
    requires n < |cells|
    ensures StoresAfter(owner, cells, n + 1, st) == EatStep(owner, cells[n], n, StoresAfter(owner, cells, n, st))
    ensures Splits(cells, n + 1, st.viruses)
            == Splits(cells, n, st.viruses) + if EatsVirus(cells[n], StoresAfter(owner, cells, n, st).viruses) then [n] else []
  {
  }

  /** The loop of `tickPlayer` after its first `n` cells, starting from the stores `st`. */
  function TickUpTo(owner: string, cells: seq<Cell>, n: nat, st: Stores, foodMass: real): (r: Progress)
    requires n <= |cells|
    ensures |r.gains| == n
  {
    Progress(StoresAfter(owner, cells, n, st), Gains(owner, cells, n, st, foodMass), Splits(cells, n, st.viruses))
  }

  /** The player's cells once each has gained its share (`changeCellMass(cellIndex, massGained)`). */
  function Grown(cells: seq<Cell>, gains: seq<real>, massToRadius: real -> real): (r: seq<Cell>)
    requires |gains| == |cells|
    ensures |r| == |cells|
    ensures forall k :: 0 <= k < |cells| ==> r[k] == Resized(cells[k], gains[k], massToRadius)
    ensures AllSized(r, massToRadius)
    ensures SumOf(r, CellMass) == SumOf(cells, CellMass) + Total(gains)
    decreases |cells|
  {
    if |cells| == 0 then []
    else [Resized(cells[0], gains[0], massToRadius)] + Grown(cells[1..], gains[1..], massToRadius)
  }

  // Entities no cell among the first n can eat, and entities that cell k eats
  // first (no earlier cell could eat them).

  function FoodSurvivor(cells: seq<Cell>, n: nat): Food -> bool {
    (f: Food) => forall j :: 0 <= j < n && j < |cells| ==> !Inside(f.x, f.y, cells[j])
  }
  function MassSurvivor(owner: string, cells: seq<Cell>, n: nat): MassFood -> bool {
    (m: MassFood) => forall j :: 0 <= j < n && j < |cells| ==> !CanEatMass(owner, cells[j], j, m)
  }
  function VirusSurvivor(cells: seq<Cell>, n: nat): Virus -> bool {
    (v: Virus) => forall j :: 0 <= j < n && j < |cells| ==> !CanEatVirus(cells[j], v)
  }
  function FoodFirstEaten(cells: seq<Cell>, k: nat): Food -> bool {
    (f: Food) => k < |cells| && Inside(f.x, f.y, cells[k]) && FoodSurvivor(cells, k)(f)
  }
  function MassFirstEaten(owner: string, cells: seq<Cell>, k: nat): MassFood -> bool {
    (m: MassFood) => k < |cells| && CanEatMass(owner, cells[k], k, m) && MassSurvivor(owner, cells, k)(m)
  }
  function VirusFirstEaten(cells: seq<Cell>, k: nat): Virus -> bool {
    (v: Virus) => k < |cells| && CanEatVirus(cells[k], v) && VirusSurvivor(cells, k)(v)
  }

  // One more cell: survivors of n cells are the survivors of n - 1 that cell n - 1 cannot eat.

  lemma FoodSurvivorStep(cells: seq<Cell>, n: nat)
    requires 0 < n <= |cells|
    ensures forall f :: FoodSurvivor(cells, n)(f) == (FoodSurvivor(cells, n - 1)(f) && InedibleFood(cells[n - 1])(f))
  {
    forall f ensures FoodSurvivor(cells, n)(f) ==> !Inside(f.x, f.y, cells[n - 1]) {
      if FoodSurvivor(cells, n)(f) {
        assert !Inside(f.x, f.y, cells[n - 1]);
      }
    }
  }

  lemma MassSurvivorStep(owner: string, cells: seq<Cell>, n: nat)
    requires 0 < n <= |cells|
    ensures forall m :: MassSurvivor(owner, cells, n)(m)
                        == (MassSurvivor(owner, cells, n - 1)(m) && InedibleMass(owner, cells[n - 1], n - 1)(m))
  {
    forall m ensures MassSurvivor(owner, cells, n)(m) ==> !CanEatMass(owner, cells[n - 1], n - 1, m) {
      if MassSurvivor(owner, cells, n)(m) {
        assert !CanEatMass(owner, cells[n - 1], n - 1, m);
      }
    }
  }

  lemma VirusSurvivorStep(cells: seq<Cell>, n: nat)
    requires 0 < n <= |cells|
    ensures forall v :: VirusSurvivor(cells, n)(v) == (VirusSurvivor(cells, n - 1)(v) && InedibleVirus(cells[n - 1])(v))
  {
    forall v ensures VirusSurvivor(cells, n)(v) ==> !CanEatVirus(cells[n - 1], v) {
      if VirusSurvivor(cells, n)(v) {
        assert !CanEatVirus(cells[n - 1], v);
      }
    }
  }

  /** The virus store after one cell: deleting nothing is the same as keeping the inedible ones. */
  lemma VirusStepFilters(vs: seq<Virus>, cell: Cell)
    ensures (if |Filter(vs, EdibleVirus(cell))| > 0 then Filter(vs, InedibleVirus(cell)) else vs)
            == Filter(vs, InedibleVirus(cell))
  {
    if |Filter(vs, EdibleVirus(cell))| == 0 {
      FilterMembers(vs, EdibleVirus(cell));
      forall v | v in vs ensures InedibleVirus(cell)(v) {
        assert v !in Filter(vs, EdibleVirus(cell));
      }
      FilterKeepsAll(vs, InedibleVirus(cell));
    }
  }

  /** The food left is exactly, in its original order, the food inside none of the cells processed. */
  lemma {:induction false} FoodLeftSurvivors(cells: seq<Cell>, n: nat, food: seq<Food>)
    requires n <= |cells|
    ensures FoodLeft(cells, n, food) == Filter(food, FoodSurvivor(cells, n))
    decreases n
  {
    if n == 0 {
      FilterKeepsAll(food, FoodSurvivor(cells, 0));
    } else {
      FoodLeftSurvivors(cells, n - 1, food);
      FoodSurvivorStep(cells, n);
      FilterFilter(food, FoodSurvivor(cells, n - 1), InedibleFood(cells[n - 1]), FoodSurvivor(cells, n));
    }
  }

  /** The pellets left are exactly those no cell processed may eat. */
  lemma {:induction false} MassLeftSurvivors(owner: string, cells: seq<Cell>, n: nat, massFood: seq<MassFood>)
    requires n <= |cells|
    ensures MassLeft(owner, cells, n, massFood) == Filter(massFood, MassSurvivor(owner, cells, n))
    decreases n
  {
    if n == 0 {
      FilterKeepsAll(massFood, MassSurvivor(owner, cells, 0));
    } else {
      MassLeftSurvivors(owner, cells, n - 1, massFood);
      var cell := cells[n - 1];
      MassSurvivorStep(owner, cells, n);
      FilterFilter(massFood, MassSurvivor(owner, cells, n - 1), InedibleMass(owner, cell, n - 1),
                   MassSurvivor(owner, cells, n));
    }
  }

  /** The viruses left are exactly those no cell processed may eat. */
  lemma {:induction false} VirusesLeftSurvivors(cells: seq<Cell>, n: nat, viruses: seq<Virus>)
    requires n <= |cells|
    ensures VirusesLeft(cells, n, viruses) == Filter(viruses, VirusSurvivor(cells, n))
    decreases n
  {
    if n == 0 {
      FilterKeepsAll(viruses, VirusSurvivor(cells, 0));
    } else {
      VirusesLeftSurvivors(cells, n - 1, viruses);
      var cell := cells[n - 1];
      VirusStepFilters(VirusesLeft(cells, n - 1, viruses), cell);
      VirusSurvivorStep(cells, n);
      FilterFilter(viruses, VirusSurvivor(cells, n - 1), InedibleVirus(cell), VirusSurvivor(cells, n));
    }
  }

  /**
   * After the loop, each store holds exactly the entities, in their original
   * order, that none of the cells processed could eat.
   */
  lemma TickLeavesSurvivors(owner: string, cells: seq<Cell>, n: nat, st: Stores, foodMass: real)
    requires n <= |cells|
    ensures TickUpTo(owner, cells, n, st, foodMass).stores == Stores(
              Filter(st.food, FoodSurvivor(cells, n)),
              Filter(st.massFood, MassSurvivor(owner, cells, n)),
              Filter(st.viruses, VirusSurvivor(cells, n)))
  {
    FoodLeftSurvivors(cells, n, st.food);
    MassLeftSurvivors(owner, cells, n, st.massFood);
    VirusesLeftSurvivors(cells, n, st.viruses);
  }

  /** Cell k's gain in the loop's outcome is its meal from the stores the earlier cells left. */
  lemma TickGainAt(owner: string, cells: seq<Cell>, n: nat, st: Stores, foodMass: real, k: nat)
    requires k < n <= |cells|
    ensures TickUpTo(owner, cells, n, st, foodMass).gains[k]
            == MealGain(owner, cells[k], k, FoodLeft(cells, k, st.food), MassLeft(owner, cells, k, st.massFood), foodMass)
  {
    assert Gains(owner, cells, n, st, foodMass)[k] == GainAt(owner, cells, k, st, foodMass);
  }

  /**
   * Cell k gains the mass of the pellets it may eat that no earlier cell
   * could, plus `foodMass` for each food pellet inside it and inside no
   * earlier cell.
   */
  lemma TickGain(owner: string, cells: seq<Cell>, n: nat, st: Stores, foodMass: real, k: nat)
    requires k < n <= |cells|
    ensures TickUpTo(owner, cells, n, st, foodMass).gains[k]
            == SumOf(Filter(st.massFood, MassFirstEaten(owner, cells, k)), PelletMass)
               + SumOf(Filter(st.food, FoodFirstEaten(cells, k)), FoodPellet(foodMass))
  {
    FoodLeftSurvivors(cells, k, st.food);
    MassLeftSurvivors(owner, cells, k, st.massFood);
    var cell := cells[k];
    forall f ensures FoodFirstEaten(cells, k)(f) == (FoodSurvivor(cells, k)(f) && EdibleFood(cell)(f)) {
    }
    FilterFilter(st.food, FoodSurvivor(cells, k), EdibleFood(cell), FoodFirstEaten(cells, k));
    forall m ensures MassFirstEaten(owner, cells, k)(m)
                     == (MassSurvivor(owner, cells, k)(m) && EdibleMass(owner, cell, k)(m)) {
    }
    FilterFilter(st.massFood, MassSurvivor(owner, cells, k), EdibleMass(owner, cell, k), MassFirstEaten(owner, cells, k));
  }

  /** Cell k eats a virus from the store it sees exactly when some virus is edible by it and by no earlier cell. */
  lemma VirusesSeenByCell(cells: seq<Cell>, k: nat, viruses: seq<Virus>)
    requires k < |cells|
    ensures (|Filter(VirusesLeft(cells, k, viruses), EdibleVirus(cells[k]))| > 0)
            == (|Filter(viruses, VirusFirstEaten(cells, k))| > 0)
  {
    VirusesLeftSurvivors(cells, k, viruses);
    forall v ensures VirusFirstEaten(cells, k)(v) == (VirusSurvivor(cells, k)(v) && EdibleVirus(cells[k])(v)) {
    }
    FilterFilter(viruses, VirusSurvivor(cells, k), EdibleVirus(cells[k]), VirusFirstEaten(cells, k));
  }

  /** Cell k is the first cell to which some virus of the original store is edible. */
  function FirstVirusEater(cells: seq<Cell>, viruses: seq<Virus>): nat -> bool {
    (k: nat) => |Filter(viruses, VirusFirstEaten(cells, k))| > 0
  }

  /** One step of the split queue, with the test stated on the original virus store. */
  lemma SplitsStep(cells: seq<Cell>, n: nat, viruses: seq<Virus>)
    requires 0 < n <= |cells|
    ensures Splits(cells, n, viruses)
            == Splits(cells, n - 1, viruses) + if FirstVirusEater(cells, viruses)(n - 1) then [n - 1] else []
  {
    VirusesSeenByCell(cells, n - 1, viruses);
  }

  /** The split queue is the increasing list of the cells that are first to be able to eat some virus. */
  lemma {:induction false} SplitsAreFirstEaters(cells: seq<Cell>, n: nat, viruses: seq<Virus>)
    requires n <= |cells|
    ensures Splits(cells, n, viruses) == Filter(Range(n), FirstVirusEater(cells, viruses))
    decreases n
  {
    if n > 0 {
      SplitsStep(cells, n, viruses);
      SplitsAreFirstEaters(cells, n - 1, viruses);
      assert Range(n) == Range(n - 1) + [n - 1];
      FilterAppend<nat>(Range(n - 1), n - 1, FirstVirusEater(cells, viruses));
    }
  }

  /**
   * `cellsToSplit` lists cell indices in increasing order, each once, and
   * holds k exactly when some virus is edible by cell k and by no earlier cell.
   */
  lemma TickSplits(owner: string, cells: seq<Cell>, n: nat, st: Stores, foodMass: real)
    requires n <= |cells|
    ensures TickUpTo(owner, cells, n, st, foodMass).splits == Filter(Range(n), FirstVirusEater(cells, st.viruses))
    ensures Increasing(TickUpTo(owner, cells, n, st, foodMass).splits)
    ensures forall k :: k in TickUpTo(owner, cells, n, st, foodMass).splits <==>
                          0 <= k < n && |Filter(st.viruses, VirusFirstEaten(cells, k))| > 0
  {
    SplitsAreFirstEaters(cells, n, st.viruses);
    FilterIncreasing(Range(n), FirstVirusEater(cells, st.viruses));
    FilterMembers(Range(n), FirstVirusEater(cells, st.viruses));
    forall k ensures k in Range(n) <==> 0 <= k < n {
      if 0 <= k < n {
        assert Range(n)[k] == k;
      }
    }
  }

  /**
   * One cell's meal moves mass without creating or losing any: its gain plus
   * the pellets and food it leaves equals what was there before.
   */
  lemma MealConservesMass(owner: string, cell: Cell, ci: nat, food: seq<Food>, massFood: seq<MassFood>, foodMass: real)
    ensures MealGain(owner, cell, ci, food, massFood, foodMass)
            + SumOf(Filter(massFood, InedibleMass(owner, cell, ci)), PelletMass)
            + SumOf(Filter(food, InedibleFood(cell)), FoodPellet(foodMass))
            == SumOf(massFood, PelletMass) + SumOf(food, FoodPellet(foodMass))
  {
    FilterSplit(massFood, EdibleMass(owner, cell, ci), InedibleMass(owner, cell, ci), PelletMass);
    FilterSplit(food, EdibleFood(cell), InedibleFood(cell), FoodPellet(foodMass));
  }

  /** One more cell: the gains list grows by that cell's meal. */
  lemma GainsStep(owner: string, cells: seq<Cell>, n: nat, st: Stores, foodMass: real)
    requires 0 < n <= |cells|
    ensures Total(Gains(owner, cells, n, st, foodMass))
            == Total(Gains(owner, cells, n - 1, st, foodMass)) + GainAt(owner, cells, n - 1, st, foodMass)
  {
    var gain := GainAt(owner, cells, n - 1, st, foodMass);
    assert Gains(owner, cells, n, st, foodMass) == Gains(owner, cells, n - 1, st, foodMass) + [gain];
    TotalAppend(Gains(owner, cells, n - 1, st, foodMass), gain);
  }

  /**
   * Nothing is created or lost: the mass the cells gain is exactly the mass
   * of the pellets and food that leave the stores.
   */
  lemma {:induction false} LoopConservesMass(owner: string, cells: seq<Cell>, n: nat, st: Stores, foodMass: real)
    requires n <= |cells|
    ensures Total(Gains(owner, cells, n, st, foodMass))
            + SumOf(MassLeft(owner, cells, n, st.massFood), PelletMass)
            + SumOf(FoodLeft(cells, n, st.food), FoodPellet(foodMass))
            == SumOf(st.massFood, PelletMass) + SumOf(st.food, FoodPellet(foodMass))
    decreases n
  {
    if n == 0 {
      assert Gains(owner, cells, 0, st, foodMass) == [];
    } else {
      LoopConservesMass(owner, cells, n - 1, st, foodMass);
      var food := FoodLeft(cells, n - 1, st.food);
      var massFood := MassLeft(owner, cells, n - 1, st.massFood);
      var cell := cells[n - 1];
      GainsStep(owner, cells, n, st, foodMass);
      assert GainAt(owner, cells, n - 1, st, foodMass) == MealGain(owner, cell, n - 1, food, massFood, foodMass);
      MealConservesMass(owner, cell, n - 1, food, massFood, foodMass);
      // The actors of this step, named so that what remains is linear arithmetic.
      var before := Total(Gains(owner, cells, n - 1, st, foodMass));
      var after := Total(Gains(owner, cells, n, st, foodMass));
      var gain := MealGain(owner, cell, n - 1, food, massFood, foodMass);
      var massKept := SumOf(MassLeft(owner, cells, n, st.massFood), PelletMass);
      var foodKept := SumOf(FoodLeft(cells, n, st.food), FoodPellet(foodMass));
      assert after == before + gain;
      assert massKept == SumOf(Filter(massFood, InedibleMass(owner, cell, n - 1)), PelletMass);
      assert foodKept == SumOf(Filter(food, InedibleFood(cell)), FoodPellet(foodMass));
      assert gain + massKept + foodKept == SumOf(massFood, PelletMass) + SumOf(food, FoodPellet(foodMass));
    }
  }

  lemma TickConservesMass(owner: string, cells: seq<Cell>, n: nat, st: Stores, foodMass: real)
    requires n <= |cells|
    ensures var r := TickUpTo(owner, cells, n, st, foodMass);
            Total(r.gains) + SumOf(r.stores.massFood, PelletMass) + SumOf(r.stores.food, FoodPellet(foodMass))
            == SumOf(st.massFood, PelletMass) + SumOf(st.food, FoodPellet(foodMass))
  {
    LoopConservesMass(owner, cells, n, st, foodMass);
  }

  /**
   * Over a whole `tickPlayer`, the player's cell mass plus the pellet mass
   * plus the food mass in the world is unchanged.
   */
  lemma TickPlayerConservesMass(owner: string, cells: seq<Cell>, st: Stores, foodMass: real, massToRadius: real -> real)
    ensures var r := TickUpTo(owner, cells, |cells|, st, foodMass);
            SumOf(Grown(cells, r.gains, massToRadius), CellMass) + SumOf(r.stores.massFood, PelletMass)
              + SumOf(r.stores.food, FoodPellet(foodMass))
            == SumOf(cells, CellMass) + SumOf(st.massFood, PelletMass) + SumOf(st.food, FoodPellet(foodMass))
  {
    TickConservesMass(owner, cells, |cells|, st, foodMass);
  }
}
