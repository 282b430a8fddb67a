# Post-Apocalypse Elysium — a Dafny model of the game's state and screens

This project models the logic of the browser game *Post-Apocalypse Elysium*.
It covers the four zustand stores and the pure parts of four React screens:

- **Loot store** (`LootStore`, `loot_store.dfy`): the item catalog and the loot
  tables, plus each location's loot list. It models adding, removing, moving
  and clearing entries, and the random loot generator. Random numbers are
  given to the generator as draws in [0, 1).
- **Player store** (`PlayerStore`): name, health, hunger and radiation, and an
  inventory of item ids.
- **Time store** (`TimeStore`): the day/hour/minute clock and its day phase.
  `advanceTime` is a method with the two carry loops of the source, proved
  equal to a div/mod reference. `formatTime` and `formatDayTime` are also
  modelled.
- **Location store** (`LocationStore`): the 29 seeded locations, and the
  discover, make-accessible and set-current actions.
- **Map screen** (`MapView`): the location record and `createRoutes`. Each
  discovered location is joined to its (at most three) nearest discovered
  neighbours closer than 25 units, and the same road is never drawn twice.
- **Inventory overlay** (`InventoryView`, with the generic `Grouping`
  module): grouping entries by the category before `:`, the shown name, the
  heading, the icon, the description, and kebab-case name formatting.
- **Quantity picker** (`QuantitySelector`): the initial quantity, the bounds
  effect, typing, and the +/- buttons.
- **Location screen** (`LocationView`): the search, take-all, take and use
  handlers, and the condition-class, icon and category-label helpers.

Helper modules:

- `Wrappers`: `Option`.
- `Seqs`: `filter`, and the subsequence relation.
- `Text`: JavaScript's `split`, `join`, `toString`, `parseInt` and
  `padStart`, on `seq<char>`.

Conventions:

- Numbers the game keeps whole are `int`.
- Random draws are `real`, and arithmetic on them is exact.
- Distances on the map are compared squared. For whole coordinates this
  orders pairs exactly as `Math.sqrt` does. It also admits exactly the pairs
  whose distance is below 25.

One thing the model brings out: the inventory and the loot store do not
share a vocabulary.

- Player inventory entries are plain ids such as `pistol`.
- The inventory overlay reads a category from a `category:name` prefix.
- So every real entry lands in the single `misc` section, with the box icon
  and the generic description (`StartingInventoryIsOneMiscGroup`).

Behaviour of this revision worth knowing:

- Loot entries have no stack size and no per-instance id. Adding always
  appends the catalog record, even when the id is present
  (`LootStore.AddAccumulates`). Removing drops every entry with the id.
- The player inventory is a list of ids without quantities. `addItem`
  appends duplicates. `removeItem` drops every copy. `hasItem` takes no
  quantity.
- The store has no `consumeItem` and no `getItemQuantity`.
- `moveItemToPlayer` credits nothing to the player: it is exactly the
  location removal (`LootStore.MoveItemToPlayer`).
- The condition variance is `floor(random * 30) - 15`. That lies in -15..14,
  not ±15 (`LootStore.VarianceExtremes`).

## Model

| member | source | states |
|---|---|---|
| LootStore.CatalogKeyedById | src/store/lootStore.ts:50-228 | every catalog record is stored under its own id |
| LootStore.LootTablesWellFormed | src/store/lootStore.ts:231-262 | there is a `ruins` table, and every id in every pool of every table names a catalog item, with a non-empty common pool |
| LootStore.ResolveTable | src/store/lootStore.ts:301 | a known location type gets its own table, and any other type gets the ruins table; either way every pick names a catalog item |
| LootStore.AddItemToLocation | src/store/lootStore.ts:268-279 | an unknown id changes nothing; a known id appends that catalog record to the location's list (created if missing); other locations are untouched |
| LootStore.AddAccumulates | src/store/lootStore.ts:268-279 | adding never merges: the count of that id and the list length each grow by exactly one |
| LootStore.CountIdAppend | src/store/lootStore.ts:268-279 | the number of entries with an id is additive over concatenation |
| LootStore.RemoveItemFromLocation | src/store/lootStore.ts:281-289 | afterwards no entry has the id; the rest is a subsequence of the old list with every other entry's multiplicity kept; other locations untouched |
| LootStore.RemoveIdempotent | src/store/lootStore.ts:281-289 | removing an id twice is removing it once |
| LootStore.AddThenRemove | src/store/lootStore.ts:268-289 | removing an id cancels a preceding add of it |
| LootStore.DropAppendedId | src/store/lootStore.ts:281-289 | filtering an id out of a list ending in an entry with that id drops that entry |
| LootStore.MoveItemToPlayer | src/store/lootStore.ts:291-297 | moving an item to the player has exactly the effect of removing it from the location |
| LootStore.ClearLocationLoot | src/store/lootStore.ts:356-361 | the location's list becomes empty and every other location is untouched |
| LootStore.DrawTimesBelow | src/store/lootStore.ts:305-331 | a draw in [0, 1) times a positive bound lies in [0, bound) |
| LootStore.ItemCount | src/store/lootStore.ts:305 | with a positive efficiency the generator rolls 1 to 3 slots, and exactly 1 when the efficiency is at most 1 |
| LootStore.RollTier | src/store/lootStore.ts:311-323 | the roll bands that give rare, uncommon and common items, as if-and-only-ifs, scaled by the efficiency |
| LootStore.RollTierMonotone | src/store/lootStore.ts:311-323 | a higher efficiency never gives a more common tier for the same roll; efficiency 10 or more always gives rare, and 0 or less always common |
| LootStore.SelectPool | src/store/lootStore.ts:326-328 | an empty tier pool falls back to the common pool |
| LootStore.PickIndex | src/store/lootStore.ts:331 | the pick is a valid index into a non-empty pool |
| LootStore.Variance | src/store/lootStore.ts:338 | the condition variance lies in -15..14 |
| LootStore.VarianceExtremes | src/store/lootStore.ts:338 | both ends of the variance range are reachable |
| LootStore.ClampCondition | src/store/lootStore.ts:341 | a condition is pulled into 5..100: kept when inside, 100 above, 5 below |
| LootStore.ClampConditionMonotone | src/store/lootStore.ts:341 | clamping never reverses the order of two conditions |
| LootStore.RollCondition | src/store/lootStore.ts:338-341 | a rolled condition lies in 5..100, between the clamped base − 15 and the clamped base + 14, and, unless clamped, within -15..+14 of the base |
| LootStore.RollConditionUnclamped | src/store/lootStore.ts:338-341 | for a base in 20..86 the clamp never acts: the condition is the base plus the variance |
| LootStore.FoundCopy | src/store/lootStore.ts:337-348 | a returned item is the catalog record, with at most its condition changed, and only if it has one; a re-rolled condition lies between the clamped base − 15 and the clamped base + 14 |
| LootStore.GenerateSlot | src/store/lootStore.ts:311-350 | one loop iteration yields at most one item, and exactly one from a well-formed table; the item has an id of the pool the rarity roll selects (its tier pool, or common when that is empty); the location gains that item's catalog record; other locations untouched |
| LootStore.GenerateSlots | src/store/lootStore.ts:310-351 | the loop yields one item per slot from a well-formed table, item i from the pool slot i's rarity roll selects; each is a rolled copy of a table id's record; the location's list grows by those records in order |
| LootStore.AppendedTrans | src/store/lootStore.ts:310-351 | two successive appends to a location's list are one append of both lists of items |
| LootStore.FoundFromAppend | src/store/lootStore.ts:310-351 | the items of two generator runs together are still rolled copies of table ids |
| LootStore.SameElsewhereTrans | src/store/lootStore.ts:268-297 | leaving the other locations untouched is preserved under composition |
| LootStore.GenerateLoot | src/store/lootStore.ts:299-354 | with the game's catalog the generator returns exactly the rolled count of items (1 to 3 for a positive efficiency); item i comes from the pool slot i's rarity roll selects in the resolved table; only the searched location changes |
| PlayerStore.InitialPlayerWellFormed | src/store/playerStore.ts:18-30 | the starting vitals are within 0..100, and the six starting items are distinct catalog ids |
| PlayerStore.SetName | src/store/playerStore.ts:31 | only the name changes, to the given one |
| PlayerStore.TakeDamage | src/store/playerStore.ts:32-33 | health drops by the amount but never below 0, and nothing else changes |
| PlayerStore.TakeDamageHasNoUpperClamp | src/store/playerStore.ts:32-33 | a negative amount can raise health past 100 |
| PlayerStore.Eat | src/store/playerStore.ts:34-35 | hunger drops by the amount but never below 0, and nothing else changes |
| PlayerStore.AddItem | src/store/playerStore.ts:36-37 | the id is appended at the end, the old inventory is kept as a prefix, and duplicates are allowed |
| PlayerStore.AddThenHas | src/store/playerStore.ts:36-42 | after adding an id the player has it |
| PlayerStore.HasItem | src/store/playerStore.ts:42 | true exactly when some inventory slot holds the id |
| PlayerStore.Includes | src/store/playerStore.ts:42 | the scan is true exactly when the id is in the list |
| PlayerStore.RemoveItem | src/store/playerStore.ts:38-41 | afterwards the player lacks the id; the rest is a subsequence with every other id's multiplicity kept |
| PlayerStore.RemoveKeepsOthers | src/store/playerStore.ts:38-42 | removing one id does not change whether the player has any other id |
| PlayerStore.RemoveIdempotent | src/store/playerStore.ts:38-41 | removing twice is removing once |
| PlayerStore.RemoveUndoesAdd | src/store/playerStore.ts:36-41 | adding an id the player lacks and removing it again restores the state |
| TimeStore.GetDayPhase | src/store/timeStore.ts:19-24 | the hour ranges of the four phases, as if-and-only-ifs; hours outside 0..23 are night |
| TimeStore.InitialTimeWellFormed | src/store/timeStore.ts:27-31 | the game starts on a normalised clock whose phase matches its hour, running |
| TimeStore.Carry | src/store/timeStore.ts:39-48 | one carry step splits a value into whole units and a remainder below the base |
| TimeStore.Advance | src/store/timeStore.ts:33-58 | advancing adds exactly the minutes to the clock's total, never moves the day back, keeps the pause flag, and leaves a normalised clock (for non-negative fields) with the phase of the new hour |
| TimeStore.AdvanceTime | src/store/timeStore.ts:33-58 | the two carry loops compute the same clock as the div/mod reference |
| TimeStore.NormalizedUnique | src/store/timeStore.ts:33-58 | two normalised clocks with the same total are the same clock |
| TimeStore.AdvanceAdditive | src/store/timeStore.ts:33-58 | advancing by a and then by b is advancing by a + b |
| TimeStore.AdvanceZero | src/store/timeStore.ts:33-58 | advancing a well-formed clock by zero changes nothing |
| TimeStore.AdvanceAcrossMidnight | src/store/timeStore.ts:39-48 | day 1, 23:50 plus 75 minutes is day 2, 01:05, night |
| TimeStore.TogglePause | src/store/timeStore.ts:60 | only the pause flag changes, and it flips |
| TimeStore.TogglePauseTwice | src/store/timeStore.ts:60 | toggling twice restores the state |
| TimeStore.SetTime | src/store/timeStore.ts:62-67 | the fields are stored as given, with the phase of the given hour, and the pause flag is kept |
| TimeStore.SetTimeThenAdvanceZero | src/store/timeStore.ts:62-67 | setTime does not normalise; a later advance by zero does, and it changes nothing for in-range values |
| TimeStore.Pad2 | src/store/timeStore.ts:72 | a two-digit field is written as its tens and units digits |
| TimeStore.FormatTime | src/store/timeStore.ts:71-73 | "HH:MM" is five characters with the colon in the middle |
| TimeStore.FormatTimeRoundTrip | src/store/timeStore.ts:71-73 | both fields of the formatted time read back as the hour and the minute |
| TimeStore.FormatDayTime | src/store/timeStore.ts:75-77 | the text is "День ", the day number, ", ", then the formatted time |
| TimeStore.FormatDayTimeDay | src/store/timeStore.ts:75-77 | `parseInt` of the text after "День " reads back the day |
| TimeStore.FormatDayTimeRoundTrip | src/store/timeStore.ts:71-77 | the day, the hour and the minute all read back from the formatted text |
| LocationStore.SetFlagWhere | src/store/locationStore.ts:356-362 | every location with the id gets the flag set, and every other location is unchanged |
| LocationStore.SetFlag | src/store/locationStore.ts:356-374 | the flag is raised, the other flag keeps its value, and no other field changes |
| LocationStore.SetFlagEffect | src/store/locationStore.ts:356-374 | afterwards every entry with the id has the flag; flags are never cleared; no other field changes |
| LocationStore.SetFlagKeepsIds | src/store/locationStore.ts:356-374 | setting a flag changes no location's id and keeps the list's length |
| LocationStore.SetFlagUnknownId | src/store/locationStore.ts:356-374 | an id no location has leaves the list as it is |
| LocationStore.SetFlagsCommute | src/store/locationStore.ts:356-374 | setting two flags on one location commutes |
| LocationStore.SetFlagIdempotent | src/store/locationStore.ts:356-374 | setting a flag twice is setting it once |
| LocationStore.SetFlagCommutes | src/store/locationStore.ts:356-374 | two flag settings, for any ids, commute |
| LocationStore.DiscoverLocation | src/store/locationStore.ts:356-362 | locations with the id become discovered, others are unchanged, and the current location is kept |
| LocationStore.MakeLocationAccessible | src/store/locationStore.ts:368-374 | locations with the id become accessible, others are unchanged, and the current location is kept |
| LocationStore.DiscoverAndAccessCommute | src/store/locationStore.ts:356-374 | discovering and making accessible commute |
| LocationStore.DiscoverIdempotent | src/store/locationStore.ts:356-362 | discovering twice is discovering once |
| LocationStore.MakeAccessibleIdempotent | src/store/locationStore.ts:368-374 | making accessible twice is doing it once |
| LocationStore.UnknownIdChangesNothing | src/store/locationStore.ts:356-374 | an id no location has leaves the state as it is |
| LocationStore.SetCurrentLocation | src/store/locationStore.ts:364-366 | the current id is stored as given and the locations are untouched |
| LocationStore.CurrentLocationIsUnchecked | src/store/locationStore.ts:364-366 | the current location can be set to an id no location has |
| LocationStore.SeedIdsUnique | src/store/locationStore.ts:13-350 | no two seeded locations share an id |
| LocationStore.SeedHasHome | src/store/locationStore.ts:16-24 | the first seeded location is `home`, discovered and accessible, and the starting current id names a seeded location |
| LocationStore.SeedRanges | src/store/locationStore.ts:13-350 | there are 29 seeded locations, with danger levels in 0..5 and coordinates in 0..100 |
| LocationStore.SeedRoutesAtMostThreeFrom | src/components/Map.tsx:34-66 | on the seeded map no location starts more than three routes |
| MapView.DiscoveredLocations | src/components/Map.tsx:31 | exactly the discovered locations are kept |
| MapView.Candidates | src/components/Map.tsx:40-48 | a location is a candidate exactly when it has another id and lies closer than 25 |
| MapView.SortByDistance | src/components/Map.tsx:49 | the result is sorted by distance and has the same members and length |
| MapView.SortPermutes | src/components/Map.tsx:49 | the sort is a permutation |
| MapView.SortStable | src/components/Map.tsx:49 | locations at equal distance keep their relative order |
| MapView.SortedPairwise | src/components/Map.tsx:49 | a list sorted step by step is sorted pairwise |
| MapView.InsertByDistance | src/components/Map.tsx:49 | inserting into a sorted list keeps it sorted and adds exactly the new location |
| MapView.TakeThree | src/components/Map.tsx:50 | the result is the first three entries, or the whole list when shorter |
| MapView.Nearby | src/components/Map.tsx:40-50 | at most three locations, each another location closer than 25 |
| MapView.KeptNoFarther | src/components/Map.tsx:49-50 | in a sorted list no entry left out of a prefix is nearer than one kept in it |
| MapView.NearbyAreNearest | src/components/Map.tsx:40-50 | the nearby list is sorted and as long as the candidate list, up to three; no left-out candidate is closer than a kept one |
| MapView.ConnectOne | src/components/Map.tsx:52-61 | the route is pushed only if the pair is not yet joined in either direction; afterwards it is joined |
| MapView.ConnectOneNoDuplicates | src/components/Map.tsx:52-61 | pushing a route never joins a pair a second time |
| MapView.Connect | src/components/Map.tsx:52-61 | the routes pushed for one location start at it, end at one of its nearby locations, and the old routes are kept as a prefix |
| MapView.ConnectNoDuplicates | src/components/Map.tsx:52-61 | connecting one location's nearby list keeps every pair joined at most once |
| MapView.ConnectJoins | src/components/Map.tsx:52-61 | afterwards the location is joined to each of its nearby locations |
| MapView.RouteExistsAt | src/components/Map.tsx:54-57 | the scan finds a route exactly when some route joins the pair in either direction |
| MapView.RoutesAfterNoDuplicates | src/components/Map.tsx:38-63 | no unordered pair of ids is ever joined twice |
| MapView.RoutesAfterValid | src/components/Map.tsx:38-63 | every route built so far joins two distinct discovered locations closer than 25 |
| MapView.RoutesOf | src/components/Map.tsx:38-63 | the routes of a discovered list are valid, end at one of their start's nearby locations, and join no pair twice |
| MapView.RoutesAfter | src/components/Map.tsx:38-63 | after the loop has handled n locations there are at most 3n routes |
| MapView.RoutesAfterToNearby | src/components/Map.tsx:38-63 | every route drawn so far ends at one of its start's nearby locations |
| MapView.NearestJoined | src/components/Map.tsx:38-63 | each location handled so far is joined to each of its nearby locations |
| MapView.CreateRoutes | src/components/Map.tsx:34-66 | every route joins two distinct discovered locations closer than 25 and ends at one of its start's (at most three) nearest locations; no pair is joined twice |
| MapView.CreateRoutesJoinsNearest | src/components/Map.tsx:38-63 | every discovered location is joined to each of its nearby locations |
| MapView.RoutesIgnoreUndiscovered | src/components/Map.tsx:31 | only the discovered locations matter |
| MapView.AddUndiscovered | src/components/Map.tsx:31 | adding an undiscovered location changes no route |
| MapView.AtMostThreeFrom | src/components/Map.tsx:38-63 | with unique ids, no location starts more than three routes |
| MapView.FilterKeepsUniqueIds | src/components/Map.tsx:31 | filtering a list with unique ids keeps the ids unique |
| MapView.CountFromAppend | src/components/Map.tsx:38-63 | routes starting at an id are counted additively over concatenation |
| MapView.RoutesAfterStep | src/components/Map.tsx:38-63 | each location adds at most three routes, all starting at it, after the earlier ones |
| MapView.RoutesFromStep | src/components/Map.tsx:38-63 | a location adds routes only to its own count, at most three |
| MapView.RoutesFromOneHolder | src/components/Map.tsx:38-63 | when at most one location has an id, at most three routes start at it |
| MapView.SquareIsProduct | src/components/Map.tsx:44-46 | the squared coordinate difference is the product |
| MapView.SqDistSymmetric | src/components/Map.tsx:44-46 | the distance is symmetric |
| Grouping.GroupByKeys | src/components/Inventory.tsx:16-24 | the sections come in order of each key's first appearance |
| Grouping.GroupBy | src/components/Inventory.tsx:16-24 | there are never more sections than entries, and at least one when there is an entry |
| Grouping.Keys | src/components/Inventory.tsx:16-24 | the keys are the sections' keys, in order |
| Grouping.Add | src/components/Inventory.tsx:19-22 | filing a value keeps every section's key and opens a section only for a new key |
| Grouping.AddKeys | src/components/Inventory.tsx:19-22 | after filing, the keys are unchanged or gain the new key at the end |
| Grouping.AddAt | src/components/Inventory.tsx:19-22 | filing a value pushes it onto the key's first section and changes no other section |
| Grouping.GroupByOldSection | src/components/Inventory.tsx:16-24 | a section opened earlier still holds exactly its key's values after one more entry |
| Grouping.GroupByNewSection | src/components/Inventory.tsx:16-24 | the section the last entry opens holds just its value |
| Grouping.MembersOfAbsent | src/components/Inventory.tsx:16-24 | a key no entry carries has no values |
| Grouping.AddTotal | src/components/Inventory.tsx:19-22 | filing a value adds exactly one value over all sections |
| Grouping.FirstKeysCover | src/components/Inventory.tsx:16-24 | a key has a section exactly when some entry carries it |
| Grouping.FirstKeysDistinct | src/components/Inventory.tsx:16-24 | no key has two sections |
| Grouping.GroupByMembers | src/components/Inventory.tsx:16-24 | each section holds exactly its key's values, in list order |
| Grouping.GroupByTotal | src/components/Inventory.tsx:16-24 | the sections together hold as many values as there are entries |
| InventoryView.CategoryOf | src/components/Inventory.tsx:18 | the category is the `:`-free text before the first `:`, or `misc` when there is none |
| InventoryView.DisplayName | src/components/Inventory.tsx:47 | the shown name is the `:`-free text between the first `:` and the next `:` (or the end), or the whole entry |
| InventoryView.CategoryAndNameRoundTrip | src/components/Inventory.tsx:18-47 | `category:name` reads back as that category and that name |
| InventoryView.Tagged | src/components/Inventory.tsx:18 | each entry is paired with its category, in order |
| InventoryView.MembersAreFiltered | src/components/Inventory.tsx:16-24 | the values filed under a category are the entries of that category, in order |
| InventoryView.GroupContents | src/components/Inventory.tsx:16-24 | each section holds exactly the inventory filtered by its category |
| InventoryView.GroupCategories | src/components/Inventory.tsx:16-24 | a category has a section exactly when some entry has it, and no category has two |
| InventoryView.GroupItems | src/components/Inventory.tsx:16-24 | every entry is shown once: the sections hold as many entries as the inventory |
| InventoryView.CategoryName | src/components/Inventory.tsx:84-96 | a category of the table gets its heading; the six named categories are exactly those not headed "Разное"; no heading is empty |
| InventoryView.IconFor | src/components/Inventory.tsx:98-113 | a category of the table gets its icon; the box is shown exactly for categories other than the six named ones |
| InventoryView.ItemIcon | src/components/Inventory.tsx:98-113 | an entry gets its category's table icon, the box exactly when the category is not one of the six named ones, and always the box without `:` |
| InventoryView.ItemDescription | src/components/Inventory.tsx:123-136 | a key of the table gets its text; only the seven keys get a text other than the default; an entry without `:` gets the default |
| InventoryView.FormatItemNamePointwise | src/components/Inventory.tsx:115-121 | the formatted name keeps the length; hyphens become spaces; each word's first letter is upper-cased; every other character is kept |
| InventoryView.Capitalize | src/components/Inventory.tsx:119 | capitalising upper-cases a word's first character and keeps the rest |
| InventoryView.CapitalizeAll | src/components/Inventory.tsx:118-120 | every word is capitalised, in order |
| InventoryView.FormatItemNameStep | src/components/Inventory.tsx:115-121 | a name with a hyphen is its first word capitalised, a space, and the rest formatted |
| InventoryView.FormatItemName | src/components/Inventory.tsx:115-121 | a formatted name has no hyphen |
| InventoryView.StartingInventoryIsOneMiscGroup | src/components/Inventory.tsx:16-136 | the starting inventory is one `misc` section; each entry shows under its own id, with the box icon and the default description |
| InventoryView.PlainIdsAreOneMiscGroup | src/components/Inventory.tsx:16-24 | a non-empty inventory with no `:` in any entry is one `misc` section holding all of it |
| InventoryView.DescriptionsAreOwn | src/components/Inventory.tsx:123-136 | every description of the table is non-empty and differs from the default |
| InventoryView.DescriptionKeysHaveColon | src/components/Inventory.tsx:123-133 | every key of the description table has a `:` |
| Text.SplitJoin | src/components/Inventory.tsx:118-120 | joining separator-free pieces and splitting again gives the pieces back |
| Text.IndexOf | src/components/Inventory.tsx:18 | the first position of the character, or none exactly when it does not occur |
| Text.Split | src/components/Inventory.tsx:18 | split gives at least one piece, and no piece contains the separator |
| Text.Join | src/components/Inventory.tsx:120 | every character of the joined text is the separator or a character of one of the parts |
| Text.JoinSplit | src/components/Inventory.tsx:118-120 | splitting and joining with the same separator gives the string back |
| Text.SplitCount | src/components/Inventory.tsx:118 | `split` gives one more piece than there are separators |
| Text.ParseInt | src/components/QuantitySelector.tsx:30 | `parseInt` gives a number exactly when a digit follows the optional sign |
| Text.NatToString | src/components/QuantitySelector.tsx:30 | the decimal text of a natural number is a non-empty run of digits, one digit exactly for numbers below 10 |
| Text.ParseNatToString | src/components/QuantitySelector.tsx:30 | reading the digits of a natural number gives it back |
| Text.IntToString | src/components/QuantitySelector.tsx:30 | a negative number is written as `-` and the digits of its magnitude |
| Text.DigitRun | src/components/QuantitySelector.tsx:30 | the length of the longest prefix of digits |
| Text.ParseIntToString | src/components/QuantitySelector.tsx:30 | `parseInt` reads back what `toString` wrote, whatever text not starting with a digit follows |
| Text.PadStart | src/store/timeStore.ts:72 | the result has length max(n, \|s\|), fill characters in front, and `s` at the end |
| Text.ToUpperAscii | src/components/Inventory.tsx:119 | lower-case ASCII letters become upper-case, everything else is kept |
| Seqs.Filter | src/store/lootStore.ts:286 | the kept entries are exactly the entries that pass the test, and there are no more of them |
| Seqs.FilterIsSubsequence | src/store/playerStore.ts:40 | filtering keeps the order of what it keeps |
| Seqs.FilterIdempotent | src/store/playerStore.ts:40 | filtering twice is filtering once |
| Seqs.FilterAppend | src/store/lootStore.ts:286 | filtering distributes over concatenation |
| Seqs.FilterKeepsAll | src/store/lootStore.ts:286 | when every entry passes, the list is unchanged |
| Seqs.FilterMultiplicity | src/store/playerStore.ts:40 | an entry that passes keeps its multiplicity; any other has none |
| Seqs.SubsequenceMembers | src/store/playerStore.ts:40 | a subsequence holds only members of the list |
| QuantitySelector.InitialQuantity | src/components/QuantitySelector.tsx:21 | without a default the picker opens at 1 when the maximum allows it and out of range otherwise; a non-zero default is taken as given |
| QuantitySelector.Correct | src/components/QuantitySelector.tsx:24-27 | the bounds effect leaves the quantity alone exactly when it is in 1..max |
| QuantitySelector.CorrectSettles | src/components/QuantitySelector.tsx:24-27 | with max ≥ 1 one effect run brings any quantity to the nearer end of the range, and the next run changes nothing |
| QuantitySelector.CorrectOscillatesBelowOne | src/components/QuantitySelector.tsx:24-27 | with max < 1 no quantity is stable: the effect alternates between 1 and max |
| QuantitySelector.HandleChange | src/components/QuantitySelector.tsx:29-34 | unparsable text is ignored; an in-range number is taken; other numbers are clamped to the nearer end |
| QuantitySelector.TypedNumberIsSelected | src/components/QuantitySelector.tsx:29-34 | typing an in-range number selects exactly that number |
| QuantitySelector.Increment | src/components/QuantitySelector.tsx:36-40 | + adds one below the maximum, does nothing at it, and keeps an in-range quantity in range |
| QuantitySelector.Decrement | src/components/QuantitySelector.tsx:42-46 | - takes one above 1, does nothing at 1, and keeps an in-range quantity in range |
| QuantitySelector.IncrementDecrementInverse | src/components/QuantitySelector.tsx:36-46 | away from the ends of the range, + and - undo each other |
| QuantitySelector.RunStaysInBounds | src/components/QuantitySelector.tsx:24-46 | once in range, the quantity stays in range under any sequence of clicks, typing and effect runs |
| QuantitySelector.OpenedPickerStaysInBounds | src/components/QuantitySelector.tsx:21-46 | with max ≥ 1 the quantity is in range after the first effect run and stays there |
| LocationView.HandleSearch | src/components/LocationView.tsx:44-50 | a search asks for 30 minutes and opens the panel; with efficiency 1 the location gains at most one catalog record (exactly one with the game's catalog, from the pool the first slot's rarity roll selects in the location type's table); other locations are untouched |
| LocationView.EveryMapTypeHasTable | src/components/LocationView.tsx:47 | every map location type has its own loot table |
| LocationView.MoveEach | src/components/LocationView.tsx:57-59 | moving a list of ids leaves only old entries whose id is none of them, and other locations untouched |
| LocationView.HandleTakeAll | src/components/LocationView.tsx:53-64 | with loot present the list ends empty and the panel closes with nothing selected; with none, nothing happens |
| LocationView.HandleTakeItem | src/components/LocationView.tsx:66-82 | the selected id leaves the list, the other entries stay in their order with their multiplicity, the selection clears, and the panel stays open only if the shown list had more than one entry |
| LocationView.HandleUseItem | src/components/LocationView.tsx:84-100 | as taking, but only for a usable selection; otherwise nothing happens |
| LocationView.TakeAndUseAgree | src/components/LocationView.tsx:66-100 | taking and using a usable entry have the same effect |
| LocationView.PanelOutlivesDuplicateEntries | src/components/LocationView.tsx:77-79 | taking an entry whose id occurs twice empties the list while the panel stays open |
| LocationView.ConditionClass | src/components/LocationView.tsx:128-133 | each condition class is given for exactly one range of conditions: none without a condition, good above 70, fair above 30, poor otherwise |
| LocationView.ConditionClassMonotone | src/components/LocationView.tsx:128-133 | a better condition never gets a worse class |
| LocationView.ItemIcon | src/components/LocationView.tsx:136-146 | the location screen shows the inventory's icon for every category |
| LocationView.CategoryLabel | src/components/LocationView.tsx:312-322 | the details label agrees with the inventory heading for every category except medical and food, which are labelled "Медицина" and "Еда и вода", and is "Разное" exactly for categories other than the six named ones |
| LocationView.EveryCategoryIsNamed | src/components/LocationView.tsx:136-146 | every loot category except misc has its own icon and label |

## Left out

- Floating point: random draws and efficiencies are exact reals, so the model does not represent rounding in `Math.random() * n`.
- Item weights, names, descriptions and the km text of the map are display data and are not modelled; localised names are left out.
- `parseInt`: leading white space, and `NaN` as a value, are not modelled. Text with no digit after the sign is `None`.
- Record lookups: JavaScript prototype keys (`"constructor"` and the like) are not modelled. The order `Object.entries` gives integer-like keys is not modelled either; sections keep first-appearance order.
- Entries have no `stackable` or `quantity` field in this revision. So the quantity branch of the take and use handlers, and `handleQuantityConfirm`, can never run; they are left out.
- Rendering, CSS classes other than the condition class, and the reset effect on a location change are left out.
- `Capitalize` upper-cases ASCII letters only; `toUpperCase` on other scripts is not modelled.
- The search's clock call is modelled as the number of minutes it requests. The call goes through a callback prop, and the screen's caller is not part of this model.
- LootStore.GenerateLoot: the exact item count is stated only for the game's catalog, whose tables are well formed. For another catalog only the upper bound is stated.
- TimeStore.Advance: negative minutes are not modelled; every caller passes a positive count (30 for a search, 480 for a rest).
- Grouping.GroupBy: its own contract bounds the number of sections only; the sections themselves are stated by GroupByKeys, GroupByMembers and GroupByTotal.
- InventoryView.FormatItemName: its own contract states only that no hyphen survives; the character-by-character result is stated by FormatItemNamePointwise.
- MapView.RoutesAfter: its own contract bounds the number of routes only; what the routes are is stated by RoutesAfterValid, RoutesAfterToNearby, RoutesAfterNoDuplicates and NearestJoined.
- I/O, timers, React scheduling and the zustand subscription machinery are not modelled.
