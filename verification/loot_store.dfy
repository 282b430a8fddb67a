/** The loot store: the static item catalog and loot tables, the per-location
    loot lists, and the loot generator. Every `Math.random()` draw of the
    generator is an explicit argument. */
module LootStore {
  import opened Wrappers
  import opened Seqs

  datatype Category = Weapon | Medical | Food | Ammo | Tool | Clothing | Misc

  /** The category's key as the game writes it. */
  function CategoryKey(c: Category): string {
    match c
    case Weapon => "weapon"
    case Medical => "medical"
    case Food => "food"
    case Ammo => "ammo"
    case Tool => "tool"
    case Clothing => "clothing"
    case Misc => "misc"
  }

  /** A catalog record; `condition` is present only for items that wear out. */
  datatype Item = Item(id: string, category: Category, rarity: int, usable: bool, condition: Option<int>)

  /** Every item of the game, keyed by id. */
  const Catalog: map<string, Item> := map[
    "pistol" := Item("pistol", Weapon, 2, false, Some(60)),
    "rifle" := Item("rifle", Weapon, 3, false, Some(45)),
    "medkit" := Item("medkit", Medical, 2, true, None),
    "bandage" := Item("bandage", Medical, 1, true, None),
    "antibiotics" := Item("antibiotics", Medical, 3, true, None),
    "canned-meat" := Item("canned-meat", Food, 1, true, None),
    "water" := Item("water", Food, 1, true, None),
    "dried-fruits" := Item("dried-fruits", Food, 2, true, None),
    "pistol-ammo" := Item("pistol-ammo", Ammo, 2, false, None),
    "rifle-ammo" := Item("rifle-ammo", Ammo, 3, false, None),
    "flashlight" := Item("flashlight", Tool, 2, true, Some(70)),
    "toolkit" := Item("toolkit", Tool, 3, false, None),
    "jacket" := Item("jacket", Clothing, 2, false, Some(50)),
    "gas-mask" := Item("gas-mask", Clothing, 4, false, Some(40)),
    "cigarettes" := Item("cigarettes", Misc, 1, true, None),
    "radio" := Item("radio", Tool, 3, true, Some(60)),
    "fuel" := Item("fuel", Misc, 2, false, None),
    "batteries" := Item("batteries", Misc, 2, false, None),
    "map-fragment" := Item("map-fragment", Misc, 4, true, None)
  ]

  /** Three pools of item ids, from the most to the least frequent. */
  datatype LootTable = LootTable(common: seq<string>, uncommon: seq<string>, rare: seq<string>)

  const CityTable := LootTable(
    ["water", "canned-meat", "bandage", "cigarettes", "batteries"],
    ["pistol-ammo", "medkit", "flashlight", "jacket"],
    ["pistol", "radio", "map-fragment", "gas-mask"])

  const RuinsTable := LootTable(
    ["water", "bandage", "batteries"],
    ["canned-meat", "flashlight", "cigarettes"],
    ["toolkit", "medkit", "pistol"])

  const ForestTable := LootTable(
    ["bandage", "water"],
    ["dried-fruits", "jacket"],
    ["rifle", "rifle-ammo"])

  const MilitaryTable := LootTable(
    ["pistol-ammo", "bandage"],
    ["pistol", "medkit", "gas-mask"],
    ["rifle", "rifle-ammo", "toolkit", "radio"])

  const HospitalTable := LootTable(
    ["bandage", "water"],
    ["medkit", "antibiotics"],
    ["gas-mask"])

  const GasStationTable := LootTable(
    ["water", "batteries", "cigarettes"],
    ["fuel", "toolkit"],
    ["pistol-ammo"])

  /** The loot table of each location type. */
  const LootTables: map<string, LootTable> := map[
    "city" := CityTable,
    "ruins" := RuinsTable,
    "forest" := ForestTable,
    "military" := MilitaryTable,
    "hospital" := HospitalTable,
    "gas-station" := GasStationTable
  ]

  /** Each record of a catalog is stored under its own id. */
  ghost predicate KeyedById(items: map<string, Item>) {
    forall id :: id in items ==> items[id].id == id
  }

  lemma CatalogKeyedById()
    ensures KeyedById(Catalog)
  {
  }

  /** Every id a table can yield, in any pool. */
  function TableIds(t: LootTable): seq<string> {
    t.common + t.uncommon + t.rare
  }

  /** A table from which every pick yields an item of the catalog: its common
      pool is non-empty and all its ids are non-empty catalog keys. */
  predicate TableWellFormed(t: LootTable, items: map<string, Item>) {
    |t.common| > 0 &&
    forall i :: 0 <= i < |TableIds(t)| ==> TableIds(t)[i] != "" && TableIds(t)[i] in items
  }

  lemma CityTableWellFormed()
    ensures TableWellFormed(CityTable, Catalog)
  {
  }

  lemma RuinsTableWellFormed()
    ensures TableWellFormed(RuinsTable, Catalog)
  {
  }

  lemma ForestTableWellFormed()
    ensures TableWellFormed(ForestTable, Catalog)
  {
  }

  lemma MilitaryTableWellFormed()
    ensures TableWellFormed(MilitaryTable, Catalog)
  {
  }

  lemma HospitalTableWellFormed()
    ensures TableWellFormed(HospitalTable, Catalog)
  {
  }

  lemma GasStationTableWellFormed()
    ensures TableWellFormed(GasStationTable, Catalog)
  {
  }

  /** Every loot table of the game is well formed, and there is a "ruins" table. */
  lemma LootTablesWellFormed()
    ensures "ruins" in LootTables
    ensures forall k :: k in LootTables ==> TableWellFormed(LootTables[k], Catalog)
  {
    CityTableWellFormed();
    RuinsTableWellFormed();
    ForestTableWellFormed();
    MilitaryTableWellFormed();
    HospitalTableWellFormed();
    GasStationTableWellFormed();
  }

  /** `lootTables[locationType] || lootTables['ruins']`. */
  function ResolveTable(locationType: string): (t: LootTable)
    ensures locationType in LootTables ==> t == LootTables[locationType]
    ensures locationType !in LootTables ==> t == LootTables["ruins"]
    ensures TableWellFormed(t, Catalog)
  {
    LootTablesWellFormed();
    if locationType in LootTables then LootTables[locationType] else LootTables["ruins"]
  }

  /** The store's state: a loot list per location id, and the catalog. */
  datatype LootState = LootState(locationInventories: map<string, seq<Item>>, items: map<string, Item>)

  const InitialLoot := LootState(map[], Catalog)

  /** `state.locationInventories[locationId] || []`. */
  function LocationLoot(s: LootState, loc: string): seq<Item> {
    if loc in s.locationInventories then s.locationInventories[loc] else []
  }

  /** The stored entry for a location, if any. */
  function Entry(s: LootState, loc: string): Option<seq<Item>> {
    if loc in s.locationInventories then Some(s.locationInventories[loc]) else None
  }

  /** `r` agrees with `s` on every location other than `loc`. */
  ghost predicate SameElsewhere(s: LootState, r: LootState, loc: string) {
    r.items == s.items &&
    forall other :: other != loc ==> Entry(r, other) == Entry(s, other)
  }

  /** Number of entries with the given id. */
  function CountId(items: seq<Item>, id: string): nat
    decreases |items|
  {
    if |items| == 0 then 0 else (if items[0].id == id then 1 else 0) + CountId(items[1..], id)
  }

  lemma {:induction false} CountIdAppend(a: seq<Item>, b: seq<Item>, id: string)
    ensures CountId(a + b, id) == CountId(a, id) + CountId(b, id)
    decreases |a|
  {
    if |a| == 0 {
      assert a + b == b;
    } else {
      CountIdAppend(a[1..], b, id);
      assert (a + b)[1..] == a[1..] + b;
    }
  }

  /** `addItemToLocation(locationId, itemId)`: an unknown id is ignored; a known
      one has its catalog record appended to the location's list. */
  function AddItemToLocation(s: LootState, loc: string, id: string): (r: LootState)
    ensures id !in s.items ==> r == s
    ensures id in s.items ==> loc in r.locationInventories
    ensures id in s.items ==> LocationLoot(r, loc) == LocationLoot(s, loc) + [s.items[id]]
    ensures SameElsewhere(s, r, loc)
  {
    if id !in s.items then s
    else s.(locationInventories := s.locationInventories[loc := LocationLoot(s, loc) + [s.items[id]]])
  }

  /** No merging: each add of a known id adds one more entry with that id. */
  lemma AddAccumulates(s: LootState, loc: string, id: string)
    requires KeyedById(s.items) && id in s.items
    ensures CountId(LocationLoot(AddItemToLocation(s, loc, id), loc), id) == CountId(LocationLoot(s, loc), id) + 1
    ensures |LocationLoot(AddItemToLocation(s, loc, id), loc)| == |LocationLoot(s, loc)| + 1
  {
    CountIdAppend(LocationLoot(s, loc), [s.items[id]], id);
  }

  /** The test that keeps entries whose id differs from `id`. */
  function IdIsNot(id: string): Item -> bool {
    (item: Item) => item.id != id
  }

  /** `removeItemFromLocation(locationId, itemId)`: drops every entry with that
      id from the location's list and keeps the others in order. */
  function RemoveItemFromLocation(s: LootState, loc: string, id: string): (r: LootState)
    ensures loc in r.locationInventories
    ensures forall item :: item in LocationLoot(r, loc) ==> item.id != id
    ensures IsSubsequence(LocationLoot(r, loc), LocationLoot(s, loc))
    ensures forall item: Item :: item.id != id ==>
      multiset(LocationLoot(r, loc))[item] == multiset(LocationLoot(s, loc))[item]
    ensures SameElsewhere(s, r, loc)
  {
    var kept := Filter(IdIsNot(id), LocationLoot(s, loc));
    FilterIsSubsequence(IdIsNot(id), LocationLoot(s, loc));
    FilterMultiplicities(IdIsNot(id), LocationLoot(s, loc));
    s.(locationInventories := s.locationInventories[loc := kept])
  }

  /** Removing twice is removing once. */
  lemma RemoveIdempotent(s: LootState, loc: string, id: string)
    ensures RemoveItemFromLocation(RemoveItemFromLocation(s, loc, id), loc, id) == RemoveItemFromLocation(s, loc, id)
  {
    FilterIdempotent(IdIsNot(id), LocationLoot(s, loc));
  }

  /** Removing an id undoes any number of earlier adds of it: adding then
      removing is the same as removing. */
  lemma AddThenRemove(s: LootState, loc: string, id: string)
    requires KeyedById(s.items)
    ensures RemoveItemFromLocation(AddItemToLocation(s, loc, id), loc, id) == RemoveItemFromLocation(s, loc, id)
  {
    if id in s.items {
      var added := AddItemToLocation(s, loc, id);
      var before := LocationLoot(s, loc);
      assert LocationLoot(added, loc) == before + [s.items[id]];
      DropAppendedId(before, s.items[id], id);
      assert added.locationInventories[loc := Filter(IdIsNot(id), LocationLoot(added, loc))]
          == s.locationInventories[loc := Filter(IdIsNot(id), before)];
    }
  }

  lemma DropAppendedId(before: seq<Item>, item: Item, id: string)
    requires item.id == id
    ensures Filter(IdIsNot(id), before + [item]) == Filter(IdIsNot(id), before)
  {
    FilterAppend(IdIsNot(id), before, [item]);
    assert Filter(IdIsNot(id), [item]) == [] by {
      assert [item][1..] == [];
    }
  }

  /** `moveItemToPlayer(locationId, itemId)`: in this revision only removes the
      entries from the location; nothing is credited to the player. */
  function MoveItemToPlayer(s: LootState, loc: string, id: string): (r: LootState)
    ensures r == RemoveItemFromLocation(s, loc, id)
  {
    RemoveItemFromLocation(s, loc, id)
  }

  /** `clearLocationLoot(locationId)`: empties one location's list. */
  function ClearLocationLoot(s: LootState, loc: string): (r: LootState)
    ensures loc in r.locationInventories && LocationLoot(r, loc) == []
    ensures SameElsewhere(s, r, loc)
  {
    s.(locationInventories := s.locationInventories[loc := []])
  }

  // ---------------------------------------------------------------------------
  // Loot generation

  /** A value of `Math.random()`. */
  predicate IsDraw(r: real) {
    0.0 <= r < 1.0
  }

  /** The draws one iteration of the generator loop makes: the tier roll, the
      pick within the pool, and the condition variance (used only by items
      that have a condition). */
  datatype SlotDraw = SlotDraw(tier: real, pick: real, variance: real)

  predicate ValidSlot(d: SlotDraw) {
    IsDraw(d.tier) && IsDraw(d.pick) && IsDraw(d.variance)
  }

  /** A draw scales a positive bound to a value in [0, bound). */
  lemma DrawTimesBelow(draw: real, bound: real)
    ensures IsDraw(draw) && bound > 0.0 ==> 0.0 <= draw * bound < bound
  {
    if IsDraw(draw) && bound > 0.0 {
      assert (1.0 - draw) * bound > 0.0;
    }
  }

  function MinReal(a: real, b: real): real {
    if a <= b then a else b
  }

  /** The floor of a value in [1, 4) is 1, 2 or 3, and 1 below 2. */
  lemma FloorOneToThree(x: real)
    ensures 1.0 <= x < 4.0 ==> 1 <= x.Floor <= 3
    ensures 1.0 <= x < 2.0 ==> x.Floor == 1
  {
  }

  /** `Math.floor(1 + draw * Math.min(3, searchEfficiency))`. */
  function ItemCount(draw: real, efficiency: real): (n: int)
    ensures IsDraw(draw) && efficiency > 0.0 ==> 1 <= n <= 3
    ensures IsDraw(draw) && 0.0 < efficiency <= 1.0 ==> n == 1
  {
    var m := MinReal(3.0, efficiency);
    var scaled := draw * m;
    DrawTimesBelow(draw, m);
    FloorOneToThree(1.0 + scaled);
    (1.0 + scaled).Floor
  }

  datatype Tier = Common | Uncommon | Rare

  function TierRank(t: Tier): int {
    match t
    case Common => 0
    case Uncommon => 1
    case Rare => 2
  }

  /** The rarity tier for `roll = Math.random() * 100`; the thresholds scale
      with the efficiency and are not capped at 100. */
  function RollTier(roll: real, efficiency: real): (t: Tier)
    ensures t == Rare <==> roll < 10.0 * efficiency
    ensures t == Uncommon <==> 10.0 * efficiency <= roll < 40.0 * efficiency
    ensures t == Common <==> roll >= 10.0 * efficiency && roll >= 40.0 * efficiency
  {
    if roll < 10.0 * efficiency then Rare
    else if roll < 40.0 * efficiency then Uncommon
    else Common
  }

  /** A higher efficiency never gives a more common tier for the same roll;
      from efficiency 10 on every roll in [0,100) is rare, and at efficiency
      0 or below every such roll is common. */
  lemma RollTierMonotone(roll: real, e1: real, e2: real)
    requires 0.0 <= roll < 100.0
    requires e1 <= e2
    ensures TierRank(RollTier(roll, e1)) <= TierRank(RollTier(roll, e2))
    ensures e2 >= 10.0 ==> RollTier(roll, e2) == Rare
    ensures e1 <= 0.0 ==> RollTier(roll, e1) == Common
  {
  }

  function PoolOf(t: LootTable, tier: Tier): seq<string> {
    match tier
    case Common => t.common
    case Uncommon => t.uncommon
    case Rare => t.rare
  }

  /** The pool of the tier, or the common pool when that one is empty. */
  function SelectPool(t: LootTable, tier: Tier): (pool: seq<string>)
    ensures |PoolOf(t, tier)| > 0 ==> pool == PoolOf(t, tier)
    ensures |PoolOf(t, tier)| == 0 ==> pool == t.common
  {
    var pool := PoolOf(t, tier);
    if |pool| == 0 then t.common else pool
  }

  /** `Math.floor(draw * n)`, the index of the pick within a pool of size n. */
  function PickIndex(draw: real, n: nat): (i: int)
    ensures IsDraw(draw) && n > 0 ==> 0 <= i < n
  {
    DrawTimesBelow(draw, n as real);
    (draw * (n as real)).Floor
  }

  /** `Math.floor(draw * 30) - 15`. */
  function Variance(draw: real): (v: int)
    ensures IsDraw(draw) ==> -15 <= v <= 14
  {
    (draw * 30.0).Floor - 15
  }

  /** Both ends of the variance range are reachable. */
  lemma VarianceExtremes()
    ensures Variance(0.0) == -15 && Variance(0.99) == 14
  {
  }

  /** `Math.max(5, Math.min(100, x))`: a condition pulled into 5..100. */
  function ClampCondition(x: int): (c: int)
    ensures 5 <= c <= 100
    ensures 5 <= x <= 100 ==> c == x
    ensures x > 100 ==> c == 100
    ensures x < 5 ==> c == 5
  {
    if x > 100 then 100 else if x < 5 then 5 else x
  }

  /** A clamped condition never moves against its argument. */
  lemma ClampConditionMonotone(x: int, y: int)
    requires x <= y
    ensures ClampCondition(x) <= ClampCondition(y)
  {
  }

  /** `Math.max(5, Math.min(100, base + variance))`: the rolled condition lies
      between the clamped ends of the variance range around the base. */
  function RollCondition(base: int, draw: real): (c: int)
    ensures 5 <= c <= 100
    ensures IsDraw(draw) ==> ClampCondition(base - 15) <= c <= ClampCondition(base + 14)
    ensures IsDraw(draw) && 5 < c < 100 ==> base - 15 <= c <= base + 14
  {
    ClampCondition(base + Variance(draw))
  }

  /** Away from the clamp, the rolled condition is the base moved by the
      variance; in particular a base in 20..86 is never clamped. */
  lemma RollConditionUnclamped(base: int, draw: real)
    requires IsDraw(draw) && 20 <= base <= 86
    ensures RollCondition(base, draw) == base + Variance(draw)
    ensures base - 15 <= RollCondition(base, draw) <= base + 14
  {
  }

  /** The rolled copy is the catalog record with, at most, a new condition. */
  predicate IsRolledCopy(found: Item, base: Item) {
    found.(condition := base.condition) == base &&
    (base.condition.None? ==> found.condition.None?) &&
    (base.condition.Some? ==>
      found.condition.Some? && 5 <= found.condition.value <= 100 &&
      ClampCondition(base.condition.value - 15) <= found.condition.value <= ClampCondition(base.condition.value + 14) &&
      (5 < found.condition.value < 100 ==>
        base.condition.value - 15 <= found.condition.value <= base.condition.value + 14))
  }

  /** The copy of a catalog record returned to the caller: with a condition,
      the condition is re-rolled; without one, the record itself. */
  function FoundCopy(item: Item, draw: real): (found: Item)
    requires IsDraw(draw)
    ensures IsRolledCopy(found, item)
  {
    match item.condition
    case None => item
    case Some(base) => item.(condition := Some(RollCondition(base, draw)))
  }

  /** Result of a generator run: the items it returns and the new state. */
  datatype Generated = Generated(found: seq<Item>, state: LootState)

  /** The location's list grew by one catalog record per returned item, in
      order, and nothing before it changed. */
  ghost predicate Appended(s: LootState, r: LootState, loc: string, found: seq<Item>) {
    var before := LocationLoot(s, loc);
    var after := LocationLoot(r, loc);
    |after| == |before| + |found| &&
    after[..|before|] == before &&
    forall i :: 0 <= i < |found| ==> found[i].id in s.items && after[|before| + i] == s.items[found[i].id]
  }

  /** Each returned item is a rolled copy of the catalog record of an id of
      the table. */
  ghost predicate FoundFrom(t: LootTable, items: map<string, Item>, found: seq<Item>) {
    forall i :: 0 <= i < |found| ==>
      found[i].id in TableIds(t) && found[i].id in items && IsRolledCopy(found[i], items[found[i].id])
  }

  /** The item a slot yields has an id of the pool its rarity roll selects. */
  predicate FromRolledPool(t: LootTable, efficiency: real, d: SlotDraw, item: Item) {
    item.id in SelectPool(t, RollTier(d.tier * 100.0, efficiency))
  }

  /** One iteration of the generator loop. */
  function GenerateSlot(s: LootState, loc: string, t: LootTable, efficiency: real, d: SlotDraw): (g: Generated)
    requires KeyedById(s.items)
    requires ValidSlot(d)
    ensures |g.found| <= 1
    ensures |g.found| == 1 ==> FromRolledPool(t, efficiency, d, g.found[0])
    ensures TableWellFormed(t, s.items) ==> |g.found| == 1
    ensures Appended(s, g.state, loc, g.found)
    ensures FoundFrom(t, s.items, g.found)
    ensures SameElsewhere(s, g.state, loc)
  {
    var pool := SelectPool(t, RollTier(d.tier * 100.0, efficiency));
    if |pool| == 0 then Generated([], s)
    else
      var id := pool[PickIndex(d.pick, |pool|)];
      assert id in TableIds(t);
      if id == "" || id !in s.items then Generated([], s)
      else Generated([FoundCopy(s.items[id], d.variance)], AddItemToLocation(s, loc, id))
  }

  lemma AppendedTrans(s: LootState, m: LootState, r: LootState, loc: string, f1: seq<Item>, f2: seq<Item>)
    requires Appended(s, m, loc, f1) && Appended(m, r, loc, f2) && m.items == s.items
    ensures Appended(s, r, loc, f1 + f2)
  {
    var before := LocationLoot(s, loc);
    var mid := LocationLoot(m, loc);
    var after := LocationLoot(r, loc);
    assert after[..|before|] == mid[..|before|];
    forall i | 0 <= i < |f1 + f2|
      ensures (f1 + f2)[i].id in s.items && after[|before| + i] == s.items[(f1 + f2)[i].id]
    {
      if i < |f1| {
        assert after[|before| + i] == mid[|before| + i];
      } else {
        assert after[|before| + i] == after[|mid| + (i - |f1|)];
      }
    }
  }

  lemma FoundFromAppend(t: LootTable, items: map<string, Item>, f1: seq<Item>, f2: seq<Item>)
    requires FoundFrom(t, items, f1) && FoundFrom(t, items, f2)
    ensures FoundFrom(t, items, f1 + f2)
  {
    forall i | 0 <= i < |f1 + f2|
      ensures (f1 + f2)[i] == if i < |f1| then f1[i] else f2[i - |f1|]
    {
    }
  }

  lemma SameElsewhereTrans(s: LootState, m: LootState, r: LootState, loc: string)
    requires SameElsewhere(s, m, loc) && SameElsewhere(m, r, loc)
    ensures SameElsewhere(s, r, loc)
  {
  }

  /** Pool membership of one slot's item and of the later slots' items
      together gives pool membership slot by slot. */
  lemma FromRolledPoolCons(t: LootTable, efficiency: real, slots: seq<SlotDraw>, f1: seq<Item>, f2: seq<Item>)
    requires |slots| > 0 && |f1| == 1 && FromRolledPool(t, efficiency, slots[0], f1[0])
    requires |f2| == |slots| - 1
    requires forall i :: 0 <= i < |slots| - 1 ==> FromRolledPool(t, efficiency, slots[1..][i], f2[i])
    ensures forall i :: 0 <= i < |slots| ==> FromRolledPool(t, efficiency, slots[i], (f1 + f2)[i])
  {
    forall i | 0 <= i < |slots|
      ensures FromRolledPool(t, efficiency, slots[i], (f1 + f2)[i])
    {
      if i > 0 {
        assert (f1 + f2)[i] == f2[i - 1] && slots[i] == slots[1..][i - 1];
      }
    }
  }

  /** The generator loop over the given slot draws. */
  function GenerateSlots(s: LootState, loc: string, t: LootTable, efficiency: real, slots: seq<SlotDraw>): (g: Generated)
    requires KeyedById(s.items)
    requires forall i :: 0 <= i < |slots| ==> ValidSlot(slots[i])
    ensures |g.found| <= |slots|
    ensures TableWellFormed(t, s.items) ==> |g.found| == |slots|
    ensures TableWellFormed(t, s.items) ==>
      forall i :: 0 <= i < |slots| ==> FromRolledPool(t, efficiency, slots[i], g.found[i])
    ensures Appended(s, g.state, loc, g.found)
    ensures FoundFrom(t, s.items, g.found)
    ensures SameElsewhere(s, g.state, loc)
    decreases |slots|
  {
    if |slots| == 0 then Generated([], s)
    else
      var first := GenerateSlot(s, loc, t, efficiency, slots[0]);
      var rest := GenerateSlots(first.state, loc, t, efficiency, slots[1..]);
      AppendedTrans(s, first.state, rest.state, loc, first.found, rest.found);
      FoundFromAppend(t, s.items, first.found, rest.found);
      SameElsewhereTrans(s, first.state, rest.state, loc);
      var found := first.found + rest.found;
      if TableWellFormed(t, s.items) then
        FromRolledPoolCons(t, efficiency, slots, first.found, rest.found);
        Generated(found, rest.state)
      else
        Generated(found, rest.state)
  }

  /** `generateLoot(locationId, locationType, searchEfficiency)`: rolls the
      item count, then one item per slot from the location type's table; the
      returned copies carry re-rolled conditions, while the location's list
      receives the catalog records. */
  function GenerateLoot(s: LootState, loc: string, locationType: string, efficiency: real,
                        countDraw: real, slots: seq<SlotDraw>): (g: Generated)
    requires KeyedById(s.items)
    requires IsDraw(countDraw)
    requires forall i :: 0 <= i < |slots| ==> ValidSlot(slots[i])
    requires |slots| >= ItemCount(countDraw, efficiency)
    ensures |g.found| <= if ItemCount(countDraw, efficiency) > 0 then ItemCount(countDraw, efficiency) else 0
    ensures s.items == Catalog ==>
      |g.found| == if ItemCount(countDraw, efficiency) > 0 then ItemCount(countDraw, efficiency) else 0
    ensures s.items == Catalog && efficiency > 0.0 ==> 1 <= |g.found| <= 3
    ensures TableWellFormed(ResolveTable(locationType), s.items) ==>
      forall i :: 0 <= i < |g.found| ==> FromRolledPool(ResolveTable(locationType), efficiency, slots[i], g.found[i])
    ensures Appended(s, g.state, loc, g.found)
    ensures FoundFrom(ResolveTable(locationType), s.items, g.found)
    ensures SameElsewhere(s, g.state, loc)
  {
    var n := ItemCount(countDraw, efficiency);
    var used := if n <= 0 then [] else slots[..n];
    GenerateSlots(s, loc, ResolveTable(locationType), efficiency, used)
  }
}
