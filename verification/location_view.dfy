/** The location screen's logic: searching for loot, taking or using found
    items, and the helpers that pick an entry's condition class, icon and
    category label. The component's own state is `ViewState`; the loot store
    it calls into is `LootStore.LootState`. */
module LocationView {
  import opened Wrappers
  import opened Seqs
  import opened LootStore
  import MapView
  import InventoryView

  /** Whether the found-loot panel is open, and the selected entry. */
  datatype ViewState = ViewState(showLoot: bool, selected: Option<Item>)

  /** The location on screen: its id and its type key. */
  datatype Place = Place(id: string, kind: string)

  /** A handler's effect on the loot store and on the view. */
  datatype Outcome = Outcome(loot: LootState, view: ViewState)

  // ---------------------------------------------------------------------------
  // Searching

  const SearchMinutes := 30
  const SearchEfficiency := 1.0

  /** What a search does: the minutes it asks the clock to advance, the
      items the generator returned (which the screen ignores), and its
      outcome. */
  datatype Search = Search(minutes: int, found: seq<Item>, outcome: Outcome)

  /** `handleSearch`: asks for 30 minutes to pass, generates loot at the
      location with efficiency 1 and opens the loot panel. With efficiency 1
      the generator rolls a single slot, so the location gains at most one
      entry, and exactly one with the game's catalog, drawn from the pool the
      first slot's rarity roll selects. */
  function HandleSearch(v: ViewState, s: LootState, place: Place, countDraw: real, slots: seq<SlotDraw>): (r: Search)
    requires KeyedById(s.items)
    requires IsDraw(countDraw)
    requires forall i :: 0 <= i < |slots| ==> ValidSlot(slots[i])
    requires |slots| >= 1
    ensures r.minutes == SearchMinutes
    ensures r.outcome.view == v.(showLoot := true)
    ensures |r.found| <= 1
    ensures s.items == Catalog ==> |r.found| == 1
    ensures Appended(s, r.outcome.loot, place.id, r.found)
    ensures FoundFrom(ResolveTable(place.kind), s.items, r.found)
    ensures s.items == Catalog && |r.found| == 1 ==>
      FromRolledPool(ResolveTable(place.kind), SearchEfficiency, slots[0], r.found[0])
    ensures SameElsewhere(s, r.outcome.loot, place.id)
  {
    var g := GenerateLoot(s, place.id, place.kind, SearchEfficiency, countDraw, slots);
    Search(SearchMinutes, g.found, Outcome(g.state, v.(showLoot := true)))
  }

  /** Every location type of the map has a loot table of its own, so a search
      never falls back to the ruins table for a map location. */
  lemma EveryMapTypeHasTable(t: MapView.LocationType)
    ensures MapView.TypeKey(t) in LootTables
    ensures ResolveTable(MapView.TypeKey(t)) == LootTables[MapView.TypeKey(t)]
  {
  }

  // ---------------------------------------------------------------------------
  // Taking and using

  /** The ids of a list of entries, in order. */
  function Ids(items: seq<Item>): (ids: seq<string>)
    ensures |ids| == |items|
    ensures forall i :: 0 <= i < |items| ==> ids[i] == items[i].id
    decreases |items|
  {
    if |items| == 0 then [] else [items[0].id] + Ids(items[1..])
  }

  /** `moveItemToPlayer` for each id in turn. */
  function MoveEach(s: LootState, loc: string, ids: seq<string>): (r: LootState)
    ensures SameElsewhere(s, r, loc)
    ensures forall item {:trigger item in LocationLoot(r, loc)} :: item in LocationLoot(r, loc) ==>
      item in LocationLoot(s, loc) && item.id !in ids
    decreases |ids|
  {
    if |ids| == 0 then s
    else
      var m := MoveItemToPlayer(s, loc, ids[0]);
      SubsequenceMembers(LocationLoot(m, loc), LocationLoot(s, loc));
      var r := MoveEach(m, loc, ids[1..]);
      SameElsewhereTrans(s, m, r, loc);
      assert forall item :: item in LocationLoot(r, loc) ==> item in LocationLoot(m, loc);
      r
  }

  /** `handleTakeAll`: nothing when the location has no loot; otherwise every
      entry of the list on screen is moved out, and the panel closes with
      nothing selected. */
  function HandleTakeAll(v: ViewState, s: LootState, loc: string): (o: Outcome)
    ensures |LocationLoot(s, loc)| == 0 ==> o == Outcome(s, v)
    ensures |LocationLoot(s, loc)| > 0 ==>
      LocationLoot(o.loot, loc) == [] && o.view == ViewState(false, None) && SameElsewhere(s, o.loot, loc)
  {
    var shown := LocationLoot(s, loc);
    if |shown| == 0 then Outcome(s, v)
    else
      var r := MoveEach(s, loc, Ids(shown));
      var after := LocationLoot(r, loc);
      assert forall j :: 0 <= j < |shown| ==> shown[j].id in Ids(shown);
      HeadIsMember(after);
      Outcome(r, ViewState(false, None))
  }

  /** What taking or using a single selected entry does to the view: the
      selection is cleared, and the panel closes when the list on screen had
      at most one entry. */
  function AfterSingle(v: ViewState, shownCount: nat): ViewState {
    ViewState(if shownCount <= 1 then false else v.showLoot, None)
  }

  /** `handleTakeItem`: with an entry selected, every entry with its id leaves
      the location (entries have no stack size in this revision, so the
      quantity picker is never opened). */
  function HandleTakeItem(v: ViewState, s: LootState, loc: string): (o: Outcome)
    ensures v.selected.None? ==> o == Outcome(s, v)
    ensures v.selected.Some? ==>
      (forall item :: item in LocationLoot(o.loot, loc) ==> item.id != v.selected.value.id) &&
      IsSubsequence(LocationLoot(o.loot, loc), LocationLoot(s, loc)) &&
      (forall item: Item :: item.id != v.selected.value.id ==>
        multiset(LocationLoot(o.loot, loc))[item] == multiset(LocationLoot(s, loc))[item]) &&
      SameElsewhere(s, o.loot, loc) &&
      o.view.selected.None? &&
      (o.view.showLoot <==> v.showLoot && |LocationLoot(s, loc)| > 1)
  {
    match v.selected
    case None => Outcome(s, v)
    case Some(item) =>
      Outcome(MoveItemToPlayer(s, loc, item.id), AfterSingle(v, |LocationLoot(s, loc)|))
  }

  /** `handleUseItem`: like taking, but only for a usable entry; anything
      else leaves everything as it was. */
  function HandleUseItem(v: ViewState, s: LootState, loc: string): (o: Outcome)
    ensures v.selected.None? || !v.selected.value.usable ==> o == Outcome(s, v)
    ensures v.selected.Some? && v.selected.value.usable ==>
      (forall item :: item in LocationLoot(o.loot, loc) ==> item.id != v.selected.value.id) &&
      IsSubsequence(LocationLoot(o.loot, loc), LocationLoot(s, loc)) &&
      (forall item: Item :: item.id != v.selected.value.id ==>
        multiset(LocationLoot(o.loot, loc))[item] == multiset(LocationLoot(s, loc))[item]) &&
      SameElsewhere(s, o.loot, loc) &&
      o.view.selected.None? &&
      (o.view.showLoot <==> v.showLoot && |LocationLoot(s, loc)| > 1)
  {
    match v.selected
    case Some(item) =>
      if item.usable then Outcome(RemoveItemFromLocation(s, loc, item.id), AfterSingle(v, |LocationLoot(s, loc)|))
      else Outcome(s, v)
    case None => Outcome(s, v)
  }

  /** Taking and using a usable entry have the same effect: in this revision
      nothing is credited to the player for either. */
  lemma TakeAndUseAgree(v: ViewState, s: LootState, loc: string)
    requires v.selected.Some? && v.selected.value.usable
    ensures HandleTakeItem(v, s, loc) == HandleUseItem(v, s, loc)
  {
  }

  /** Taking an entry whose id occurs twice empties a two-entry list while
      the panel stays open: the close test counts the list on screen, not
      the list left behind. */
  lemma PanelOutlivesDuplicateEntries(item: Item, s: LootState, loc: string)
    requires LocationLoot(s, loc) == [item, item]
    ensures var o := HandleTakeItem(ViewState(true, Some(item)), s, loc);
      LocationLoot(o.loot, loc) == [] && o.view.showLoot
  {
  }

  // ---------------------------------------------------------------------------
  // Display helpers

  /** `getConditionClass`: no class without a condition, then good above 70,
      fair above 30, poor otherwise. The classes partition the conditions:
      each is given for exactly one range. */
  function ConditionClass(condition: Option<int>): (cls: string)
    ensures cls == "" <==> condition.None?
    ensures cls == "condition-good" <==> condition.Some? && condition.value > 70
    ensures cls == "condition-fair" <==> condition.Some? && 30 < condition.value <= 70
    ensures cls == "condition-poor" <==> condition.Some? && condition.value <= 30
  {
    match condition
    case None => ""
    case Some(c) =>
      if c > 70 then "condition-good"
      else if c > 30 then "condition-fair"
      else "condition-poor"
  }

  /** A better condition never gets a worse class. */
  lemma ConditionClassMonotone(a: int, b: int)
    requires a <= b
    ensures ConditionClass(Some(a)) == "condition-good" ==> ConditionClass(Some(b)) == "condition-good"
    ensures ConditionClass(Some(b)) == "condition-poor" ==> ConditionClass(Some(a)) == "condition-poor"
  {
  }

  /** `getItemIcon` of the location screen, keyed by category. It shows the
      same icon as the inventory for every category. */
  function ItemIcon(category: string): (icon: string)
    ensures icon == InventoryView.IconFor(category)
  {
    if category == "weapon" then "🔫"
    else if category == "medical" then "💊"
    else if category == "food" then "🍖"
    else if category == "ammo" then "🧨"
    else if category == "tool" then "🔧"
    else if category == "clothing" then "👕"
    else "📦"
  }

  /** `getCategoryLabel`: the category's heading on the details panel. It
      agrees with the inventory's heading for every category except medical
      and food, and falls back to "Разное" for exactly the categories other
      than the six named ones. */
  function CategoryLabel(category: string): (heading: string)
    ensures heading == InventoryView.CategoryName(category) <==> category != "medical" && category != "food"
    ensures heading == "Разное" <==> category !in {"weapon", "food", "medical", "ammo", "clothing", "tool"}
    ensures category == "medical" ==> heading == "Медицина"
    ensures category == "food" ==> heading == "Еда и вода"
  {
    if category == "weapon" then "Оружие"
    else if category == "medical" then "Медицина"
    else if category == "food" then "Еда и вода"
    else if category == "ammo" then "Боеприпасы"
    else if category == "tool" then "Инструменты"
    else if category == "clothing" then "Одежда"
    else "Разное"
  }

  /** Every loot category has its own icon and label except `misc`, which
      shares the fallback ones. */
  lemma EveryCategoryIsNamed(c: Category)
    ensures ItemIcon(CategoryKey(c)) == InventoryView.DefaultIcon <==> c == Misc
    ensures CategoryLabel(CategoryKey(c)) == "Разное" <==> c == Misc
  {
  }
}
