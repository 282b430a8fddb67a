/** The registry of world locations: the seeded list, the current location
    id, and the actions that set one flag on the entries with a given id. */
module LocationStore {
  import opened MapView

  datatype LocationState = LocationState(locations: seq<Location>, currentLocationId: string)

  /** The 29 seeded locations, in list order. */
  const InitialLocations: seq<Location> := [
    Location("home", 50, 50, Ruins, true, 0, true),
    Location("abandoned-city", 62, 45, City, true, 3, true),
    Location("forest-camp", 40, 38, Forest, true, 1, true),
    Location("military-base", 70, 65, Military, false, 4, false),
    Location("military-outpost", 65, 58, Military, true, 2, true),
    Location("underground-bunker", 75, 42, Military, false, 3, false),
    Location("hospital", 35, 60, Hospital, false, 5, true),
    Location("clinic", 30, 65, Hospital, true, 2, true),
    Location("pharmacy", 38, 48, Hospital, true, 1, true),
    Location("supermarket", 55, 58, City, true, 2, true),
    Location("police-station", 60, 52, City, false, 3, false),
    Location("apartment-block", 68, 48, City, true, 2, true),
    Location("shopping-mall", 72, 55, City, true, 4, true),
    Location("gas-station", 55, 30, GasStation, true, 2, true),
    Location("truck-stop", 48, 25, GasStation, false, 3, false),
    Location("deep-forest", 25, 30, Forest, true, 3, true),
    Location("ranger-station", 32, 22, Forest, false, 1, false),
    Location("hunting-lodge", 20, 40, Forest, true, 2, true),
    Location("abandoned-village", 15, 50, Ruins, true, 2, false),
    Location("old-factory", 45, 68, Ruins, true, 3, true),
    Location("collapsed-bridge", 38, 75, Ruins, false, 2, false),
    Location("train-station", 60, 70, Ruins, true, 2, true),
    Location("radio-tower", 80, 30, Military, false, 1, false),
    Location("underground-lab", 85, 75, Military, false, 5, false),
    Location("water-treatment", 25, 65, Ruins, false, 2, false),
    Location("power-plant", 15, 70, Ruins, false, 4, false),
    Location("survivor-camp", 40, 15, City, false, 0, false),
    Location("bandit-hideout", 78, 20, Ruins, false, 5, false),
    Location("crashed-plane", 12, 30, Ruins, true, 3, true)

  ]

  const InitialState := LocationState(InitialLocations, "home")

  /** The two flags the actions can set. */
  datatype Flag = Discovered | Accessible

  /** Raises one flag of a location; the other flag and every other field
      are kept. */
  function SetFlag(l: Location, f: Flag): (r: Location)
    ensures HasFlag(r, f)
    ensures forall g :: g != f ==> (HasFlag(r, g) <==> HasFlag(l, g))
    ensures r.(discovered := l.discovered, accessible := l.accessible) == l
  {
    match f
    case Discovered => l.(discovered := true)
    case Accessible => l.(accessible := true)
  }

  predicate HasFlag(l: Location, f: Flag) {
    match f
    case Discovered => l.discovered
    case Accessible => l.accessible
  }

  /** `locations.map(l => l.id === id ? { ...l, <flag>: true } : l)`. */
  function SetFlagWhere(locs: seq<Location>, id: string, f: Flag): (r: seq<Location>)
    ensures |r| == |locs|
    ensures forall i :: 0 <= i < |locs| && locs[i].id == id ==> r[i] == SetFlag(locs[i], f)
    ensures forall i :: 0 <= i < |locs| && locs[i].id != id ==> r[i] == locs[i]
    decreases |locs|
  {
    if |locs| == 0 then []
    else
      var head := if locs[0].id == id then SetFlag(locs[0], f) else locs[0];
      [head] + SetFlagWhere(locs[1..], id, f)
  }

  /** Setting a flag changes no id, so the list keeps its ids in order. */
  lemma SetFlagKeepsIds(locs: seq<Location>, id: string, f: Flag)
    ensures var r := SetFlagWhere(locs, id, f);
      |r| == |locs| && forall i :: 0 <= i < |r| ==> r[i].id == locs[i].id
  {
  }

  /** Afterwards every entry with the id has the flag; every field of every
      entry other than that flag is as before. */
  lemma SetFlagEffect(locs: seq<Location>, id: string, f: Flag)
    ensures var r := SetFlagWhere(locs, id, f);
      forall i :: 0 <= i < |r| ==>
        (locs[i].id == id ==> HasFlag(r[i], f)) &&
        (HasFlag(locs[i], f) ==> HasFlag(r[i], f)) &&
        r[i].id == locs[i].id && r[i].x == locs[i].x && r[i].y == locs[i].y &&
        r[i].kind == locs[i].kind && r[i].dangerLevel == locs[i].dangerLevel &&
        (f == Discovered ==> r[i].accessible == locs[i].accessible) &&
        (f == Accessible ==> r[i].discovered == locs[i].discovered)
  {
  }

  /** An id no entry has leaves the list as it is. */
  lemma {:induction false} SetFlagUnknownId(locs: seq<Location>, id: string, f: Flag)
    requires forall i :: 0 <= i < |locs| ==> locs[i].id != id
    ensures SetFlagWhere(locs, id, f) == locs
    decreases |locs|
  {
    if |locs| > 0 {
      SetFlagUnknownId(locs[1..], id, f);
      assert locs == [locs[0]] + locs[1..];
    }
  }

  lemma SetFlagIdempotent(locs: seq<Location>, id: string, f: Flag)
    ensures SetFlagWhere(SetFlagWhere(locs, id, f), id, f) == SetFlagWhere(locs, id, f)
  {
    var once := SetFlagWhere(locs, id, f);
    var twice := SetFlagWhere(once, id, f);
    assert forall i :: 0 <= i < |once| ==> twice[i] == once[i];
  }

  /** Setting two flags, for any two ids, gives the same list in either order. */
  lemma SetFlagCommutes(locs: seq<Location>, id1: string, f1: Flag, id2: string, f2: Flag)
    ensures SetFlagWhere(SetFlagWhere(locs, id1, f1), id2, f2) == SetFlagWhere(SetFlagWhere(locs, id2, f2), id1, f1)
  {
    var m1 := SetFlagWhere(locs, id1, f1);
    var m2 := SetFlagWhere(locs, id2, f2);
    var a := SetFlagWhere(m1, id2, f2);
    var b := SetFlagWhere(m2, id1, f1);
    forall i | 0 <= i < |locs|
      ensures a[i] == b[i]
    {
      assert m1[i].id == locs[i].id && m2[i].id == locs[i].id;
      SetFlagsCommute(locs[i], f1, f2);
    }
  }

  /** Two flags can be set in either order. */
  lemma SetFlagsCommute(l: Location, f1: Flag, f2: Flag)
    ensures SetFlag(SetFlag(l, f1), f2) == SetFlag(SetFlag(l, f2), f1)
  {
  }

  /** `discoverLocation(locationId)`. */
  function DiscoverLocation(s: LocationState, id: string): (r: LocationState)
    ensures r.currentLocationId == s.currentLocationId
    ensures |r.locations| == |s.locations|
    ensures forall i :: 0 <= i < |s.locations| && s.locations[i].id == id ==>
      r.locations[i] == s.locations[i].(discovered := true)
    ensures forall i :: 0 <= i < |s.locations| && s.locations[i].id != id ==>
      r.locations[i] == s.locations[i]
  {
    s.(locations := SetFlagWhere(s.locations, id, Discovered))
  }

  /** `makeLocationAccessible(locationId)`. */
  function MakeLocationAccessible(s: LocationState, id: string): (r: LocationState)
    ensures r.currentLocationId == s.currentLocationId
    ensures |r.locations| == |s.locations|
    ensures forall i :: 0 <= i < |s.locations| && s.locations[i].id == id ==>
      r.locations[i] == s.locations[i].(accessible := true)
    ensures forall i :: 0 <= i < |s.locations| && s.locations[i].id != id ==>
      r.locations[i] == s.locations[i]
  {
    s.(locations := SetFlagWhere(s.locations, id, Accessible))
  }

  /** `setCurrentLocation(locationId)`: stored as given, with no check that
      such a location exists or is accessible. */
  function SetCurrentLocation(s: LocationState, id: string): (r: LocationState)
    ensures r.currentLocationId == id && r.locations == s.locations
  {
    s.(currentLocationId := id)
  }

  lemma DiscoverIdempotent(s: LocationState, id: string)
    ensures DiscoverLocation(DiscoverLocation(s, id), id) == DiscoverLocation(s, id)
  {
    SetFlagIdempotent(s.locations, id, Discovered);
  }

  lemma MakeAccessibleIdempotent(s: LocationState, id: string)
    ensures MakeLocationAccessible(MakeLocationAccessible(s, id), id) == MakeLocationAccessible(s, id)
  {
    SetFlagIdempotent(s.locations, id, Accessible);
  }

  lemma DiscoverAndAccessCommute(s: LocationState, id1: string, id2: string)
    ensures MakeLocationAccessible(DiscoverLocation(s, id1), id2) == DiscoverLocation(MakeLocationAccessible(s, id2), id1)
  {
    SetFlagCommutes(s.locations, id1, Discovered, id2, Accessible);
  }

  lemma UnknownIdChangesNothing(s: LocationState, id: string)
    requires forall i :: 0 <= i < |s.locations| ==> s.locations[i].id != id
    ensures DiscoverLocation(s, id) == s
    ensures MakeLocationAccessible(s, id) == s
  {
    SetFlagUnknownId(s.locations, id, Discovered);
    SetFlagUnknownId(s.locations, id, Accessible);
  }

  // ---------------------------------------------------------------------------
  // Seed invariants

  /** The seeded ids, in list order. */
  const SeedIds: seq<string> := [
    "home",
    "abandoned-city",
    "forest-camp",
    "military-base",
    "military-outpost",
    "underground-bunker",
    "hospital",
    "clinic",
    "pharmacy",
    "supermarket",
    "police-station",
    "apartment-block",
    "shopping-mall",
    "gas-station",
    "truck-stop",
    "deep-forest",
    "ranger-station",
    "hunting-lodge",
    "abandoned-village",
    "old-factory",
    "collapsed-bridge",
    "train-station",
    "radio-tower",
    "underground-lab",
    "water-treatment",
    "power-plant",
    "survivor-camp",
    "bandit-hideout",
    "crashed-plane"
  ]

  lemma SeedIdsMatch()
    ensures |InitialLocations| == |SeedIds|
    ensures forall i :: 0 <= i < |SeedIds| ==> InitialLocations[i].id == SeedIds[i]
  {
  }

  lemma SeedIdListDistinctLow()
    ensures forall i, j :: 0 <= i < 5 && i < j < |SeedIds| ==> SeedIds[i] != SeedIds[j]
  {
  }

  lemma SeedIdListDistinctMiddle()
    ensures forall i, j :: 5 <= i < 10 && i < j < |SeedIds| ==> SeedIds[i] != SeedIds[j]
  {
  }

  lemma SeedIdListDistinctHigh()
    ensures forall i, j :: 10 <= i < j < |SeedIds| ==> SeedIds[i] != SeedIds[j]
  {
  }

  /** No two seeded locations share an id. */
  lemma SeedIdsUnique()
    ensures UniqueIds(InitialLocations)
  {
    SeedIdsMatch();
    SeedIdListDistinctLow();
    SeedIdListDistinctMiddle();
    SeedIdListDistinctHigh();
  }

  /** The starting location exists, is discovered and accessible. */
  lemma SeedHasHome()
    ensures exists i :: 0 <= i < |InitialLocations| && InitialLocations[i].id == InitialState.currentLocationId
    ensures InitialLocations[0].id == "home" && InitialLocations[0].discovered && InitialLocations[0].accessible
  {
    assert InitialLocations[0].id == InitialState.currentLocationId;
  }

  /** Danger levels lie in 0..5 and coordinates are map percentages. */
  lemma SeedRanges()
    ensures |InitialLocations| == 29
    ensures forall i :: 0 <= i < |InitialLocations| ==>
      0 <= InitialLocations[i].dangerLevel <= 5 &&
      0 <= InitialLocations[i].x <= 100 && 0 <= InitialLocations[i].y <= 100
  {
  }

  /** On the seeded map no location starts more than three routes. */
  lemma SeedRoutesAtMostThreeFrom(id: string)
    ensures CountFrom(CreateRoutes(InitialLocations), id) <= 3
  {
    SeedIdsUnique();
    AtMostThreeFrom(InitialLocations, id);
  }

  /** Nothing stops the current location from naming no location at all. */
  lemma CurrentLocationIsUnchecked()
    ensures var r := SetCurrentLocation(InitialState, "nowhere");
      r.currentLocationId == "nowhere" &&
      forall i :: 0 <= i < |r.locations| ==> r.locations[i].id != r.currentLocationId
  {
    SeedIdsNotNowhere();
  }

  lemma SeedIdsNotNowhere()
    ensures forall i :: 0 <= i < |InitialLocations| ==> InitialLocations[i].id != "nowhere"
  {
  }
}
