/** The map screen's location record and its route builder, which draws a
    road from each discovered location to its (at most three) nearest
    discovered neighbours within 25 map units, never drawing the same road
    twice. Coordinates are whole map percentages and distances are compared
    squared: for whole numbers below 625, `sqrt(d) < 25` holds exactly when
    `d < 625`, and the square root orders distances as their squares do. */
module MapView {
  import opened Seqs

  datatype LocationType = City | Ruins | Forest | Military | Hospital | GasStation

  /** The type tag as the stores spell it. */
  function TypeKey(t: LocationType): string {
    match t
    case City => "city"
    case Ruins => "ruins"
    case Forest => "forest"
    case Military => "military"
    case Hospital => "hospital"
    case GasStation => "gas-station"
  }

  /** A location of the world map (its localised name and description are
      not modelled). */
  datatype Location = Location(
    id: string,
    x: int,
    y: int,
    kind: LocationType,
    accessible: bool,
    dangerLevel: int,
    discovered: bool)

  /** Largest distance, exclusive, at which two locations are joined. */
  const MaxDistance: int := 25
  const MaxSqDistance: int := MaxDistance * MaxDistance

  /** `Math.pow(n, 2)` for a whole number, by sums of odd numbers, so that
      comparisons of distances stay linear. */
  function Square(n: int): nat {
    SquareOf(if n < 0 then -n else n)
  }

  function SquareOf(k: nat): nat {
    if k == 0 then 0 else SquareOf(k - 1) + 2 * k - 1
  }

  lemma {:induction false} SquareOfIsProduct(k: nat)
    ensures SquareOf(k) == k * k
  {
    if k > 0 {
      SquareOfIsProduct(k - 1);
    }
  }

  lemma SquareIsProduct(n: int)
    ensures Square(n) == n * n
  {
    SquareOfIsProduct(if n < 0 then -n else n);
  }

  /** Squared Euclidean distance. */
  function SqDist(a: Location, b: Location): nat {
    Square(a.x - b.x) + Square(a.y - b.y)
  }

  lemma SqDistSymmetric(a: Location, b: Location)
    ensures SqDist(a, b) == SqDist(b, a)
  {
    SquareIsProduct(a.x - b.x);
    SquareIsProduct(b.x - a.x);
    SquareIsProduct(a.y - b.y);
    SquareIsProduct(b.y - a.y);
  }

  function IsDiscovered(): Location -> bool {
    (l: Location) => l.discovered
  }

  /** `locations.filter(loc => loc.discovered)`. */
  function DiscoveredLocations(locs: seq<Location>): (d: seq<Location>)
    ensures forall l {:trigger l in d} :: l in d <==> l in locs && l.discovered
  {
    Filter(IsDiscovered(), locs)
  }

  /** The other discovered locations closer than the maximum distance, in
      list order: `filter(loc2 => loc1.id !== loc2.id)` followed by the
      distance filter, done in one pass. */
  function Candidates(d: seq<Location>, origin: Location): (c: seq<Location>)
    ensures |c| <= |d|
    ensures forall l {:trigger l in c} :: l in c <==> l in d && l.id != origin.id && SqDist(origin, l) < MaxSqDistance
    decreases |d|
  {
    if |d| == 0 then []
    else
      var rest := Candidates(d[1..], origin);
      assert d == [d[0]] + d[1..];
      if d[0].id != origin.id && SqDist(origin, d[0]) < MaxSqDistance then [d[0]] + rest else rest
  }

  // ---------------------------------------------------------------------------
  // Sorting by distance (Array.prototype.sort is stable)

  /** Each location is no farther from `origin` than the next one. */
  predicate SortedFrom(origin: Location, s: seq<Location>)
    decreases |s|
  {
    |s| <= 1 || (SqDist(origin, s[0]) <= SqDist(origin, s[1]) && SortedFrom(origin, s[1..]))
  }

  lemma {:induction false} SortedPairwise(origin: Location, s: seq<Location>)
    requires SortedFrom(origin, s)
    ensures forall i, j :: 0 <= i < j < |s| ==> SqDist(origin, s[i]) <= SqDist(origin, s[j])
    decreases |s|
  {
    if |s| > 1 {
      var t := s[1..];
      SortedPairwise(origin, t);
      forall i, j | 0 <= i < j < |s|
        ensures SqDist(origin, s[i]) <= SqDist(origin, s[j])
      {
        assert s[j] == t[j - 1];
        if i > 0 {
          assert s[i] == t[i - 1];
        } else if j > 1 {
          assert s[1] == t[0];
        }
      }
    }
  }

  lemma {:induction false} SortedPrefix(origin: Location, s: seq<Location>, k: nat)
    requires SortedFrom(origin, s) && k <= |s|
    ensures SortedFrom(origin, s[..k])
    decreases k
  {
    if k > 1 {
      SortedPrefix(origin, s[1..], k - 1);
      assert s[..k][1..] == s[1..][..k - 1];
    }
  }

  /** Puts `x` in front of the first element that is not closer than it. */
  function InsertByDistance(origin: Location, x: Location, s: seq<Location>): (r: seq<Location>)
    requires SortedFrom(origin, s)
    ensures |r| == |s| + 1
    ensures forall l {:trigger l in r} :: l in r <==> l == x || l in s
    ensures r[0] == x || (|s| > 0 && r[0] == s[0])
    ensures SortedFrom(origin, r)
    decreases |s|
  {
    if |s| == 0 then [x]
    else if SqDist(origin, x) <= SqDist(origin, s[0]) then
      assert ([x] + s)[1..] == s;
      [x] + s
    else
      var rest := InsertByDistance(origin, x, s[1..]);
      assert s == [s[0]] + s[1..];
      assert ([s[0]] + rest)[1..] == rest;
      [s[0]] + rest
  }

  /** Stable insertion sort by distance from `origin`. */
  function SortByDistance(origin: Location, s: seq<Location>): (r: seq<Location>)
    ensures |r| == |s|
    ensures forall l {:trigger l in r} :: l in r <==> l in s
    ensures SortedFrom(origin, r)
    decreases |s|
  {
    if |s| == 0 then []
    else InsertByDistance(origin, s[0], SortByDistance(origin, s[1..]))
  }

  lemma {:induction false} InsertPermutes(origin: Location, x: Location, s: seq<Location>)
    requires SortedFrom(origin, s)
    ensures multiset(InsertByDistance(origin, x, s)) == multiset(s) + multiset{x}
    decreases |s|
  {
    if |s| > 0 && SqDist(origin, x) > SqDist(origin, s[0]) {
      InsertPermutes(origin, x, s[1..]);
      assert s == [s[0]] + s[1..];
    }
  }

  /** The sort reorders and neither drops nor duplicates a location. */
  lemma {:induction false} SortPermutes(origin: Location, s: seq<Location>)
    ensures multiset(SortByDistance(origin, s)) == multiset(s)
    decreases |s|
  {
    if |s| > 0 {
      var t := SortByDistance(origin, s[1..]);
      SortPermutes(origin, s[1..]);
      InsertPermutes(origin, s[0], t);
      assert SortByDistance(origin, s) == InsertByDistance(origin, s[0], t);
      assert multiset(s) == multiset(s[1..]) + multiset{s[0]} by {
        assert s == [s[0]] + s[1..];
      }
    }
  }

  function AtDistance(origin: Location, k: nat): Location -> bool {
    (l: Location) => SqDist(origin, l) == k
  }

  lemma {:induction false} InsertStable(origin: Location, x: Location, s: seq<Location>, k: nat)
    requires SortedFrom(origin, s)
    ensures Filter(AtDistance(origin, k), InsertByDistance(origin, x, s)) == Filter(AtDistance(origin, k), [x] + s)
    decreases |s|
  {
    var keep := AtDistance(origin, k);
    if |s| > 0 && SqDist(origin, x) > SqDist(origin, s[0]) {
      var rest := InsertByDistance(origin, x, s[1..]);
      InsertStable(origin, x, s[1..], k);
      assert s == [s[0]] + s[1..];
      FilterAppend(keep, [s[0]], rest);
      FilterAppend(keep, [x], s[1..]);
      FilterAppend(keep, [s[0]], s[1..]);
      FilterAppend(keep, [x], s);
      assert [s[0]][1..] == [] && [x][1..] == [];
    }
  }

  /** Locations at the same distance keep their relative order. */
  lemma {:induction false} SortStable(origin: Location, s: seq<Location>, k: nat)
    ensures Filter(AtDistance(origin, k), SortByDistance(origin, s)) == Filter(AtDistance(origin, k), s)
    decreases |s|
  {
    if |s| > 0 {
      var keep := AtDistance(origin, k);
      SortStable(origin, s[1..], k);
      InsertStable(origin, s[0], SortByDistance(origin, s[1..]), k);
      FilterAppend(keep, [s[0]], SortByDistance(origin, s[1..]));
      FilterAppend(keep, [s[0]], s[1..]);
      assert s == [s[0]] + s[1..];
    }
  }

  /** The first `k` of a distance-sorted list are no farther than any
      element left out. */
  lemma KeptNoFarther(origin: Location, sorted: seq<Location>, k: nat)
    requires SortedFrom(origin, sorted) && k <= |sorted|
    ensures forall c :: c in sorted && c !in sorted[..k] ==>
      forall l :: l in sorted[..k] ==> SqDist(origin, l) <= SqDist(origin, c)
  {
    SortedPairwise(origin, sorted);
    forall c, l | c in sorted && c !in sorted[..k] && l in sorted[..k]
      ensures SqDist(origin, l) <= SqDist(origin, c)
    {
      var j :| 0 <= j < |sorted| && sorted[j] == c;
      var i :| 0 <= i < k && sorted[..k][i] == l;
    }
  }

  /** The first three of the list, or all of it when shorter. */
  function TakeThree(s: seq<Location>): (r: seq<Location>)
    ensures |r| == if |s| < 3 then |s| else 3
    ensures r == s[..|r|]
  {
    if |s| < 3 then s else s[..3]
  }

  /** The nearest (at most three) candidates, closest first. */
  function Nearby(d: seq<Location>, origin: Location): (r: seq<Location>)
    ensures |r| <= 3
    ensures forall l {:trigger l in r} :: l in r ==> l in d && l.id != origin.id && SqDist(origin, l) < MaxSqDistance
  {
    var sorted := SortByDistance(origin, Candidates(d, origin));
    assert forall l :: l in TakeThree(sorted) ==> l in sorted;
    TakeThree(sorted)
  }

  /** The nearby locations are the closest candidates, sorted: as many as
      there are candidates up to three, and no left-out candidate is closer
      than a kept one. */
  lemma NearbyAreNearest(d: seq<Location>, origin: Location)
    ensures var c := Candidates(d, origin); var r := Nearby(d, origin);
      |r| == (if |c| < 3 then |c| else 3) &&
      SortedFrom(origin, r) &&
      forall x :: x in c && x !in r ==>
        forall l :: l in r ==> SqDist(origin, l) <= SqDist(origin, x)
  {
    var c := Candidates(d, origin);
    var sorted := SortByDistance(origin, c);
    KeptNoFarther(origin, sorted, |TakeThree(sorted)|);
    SortedPrefix(origin, sorted, |TakeThree(sorted)|);
  }

  // ---------------------------------------------------------------------------
  // Routes

  datatype Route = Route(from: Location, to: Location)

  /** The route joins `a` and `b`, in either direction (compared by id). */
  predicate Connects(r: Route, a: Location, b: Location) {
    (r.from.id == a.id && r.to.id == b.id) || (r.from.id == b.id && r.to.id == a.id)
  }

  /** `routes.some(...)`: some route joins `a` and `b`. */
  predicate RouteExists(routes: seq<Route>, a: Location, b: Location)
    decreases |routes|
  {
    |routes| > 0 && (Connects(routes[0], a, b) || RouteExists(routes[1..], a, b))
  }

  lemma {:induction false} RouteExistsAt(routes: seq<Route>, a: Location, b: Location)
    ensures RouteExists(routes, a, b) <==> exists i :: 0 <= i < |routes| && Connects(routes[i], a, b)
    decreases |routes|
  {
    if |routes| > 0 {
      var tail := routes[1..];
      RouteExistsAt(tail, a, b);
      if exists i :: 0 <= i < |tail| && Connects(tail[i], a, b) {
        var i :| 0 <= i < |tail| && Connects(tail[i], a, b);
        assert routes[i + 1] == tail[i];
      }
      if exists i :: 1 <= i < |routes| && Connects(routes[i], a, b) {
        var i :| 1 <= i < |routes| && Connects(routes[i], a, b);
        assert tail[i - 1] == routes[i];
      }
    }
  }

  /** No unordered pair of ids is joined twice. */
  predicate NoDuplicatePairs(routes: seq<Route>) {
    forall i, j :: 0 <= i < j < |routes| ==> !Connects(routes[j], routes[i].from, routes[i].to)
  }

  lemma RouteExistsGrows(routes: seq<Route>, r: seq<Route>, a: Location, b: Location)
    requires |routes| <= |r| && r[..|routes|] == routes
    ensures RouteExists(routes, a, b) ==> RouteExists(r, a, b)
  {
    RouteExistsAt(routes, a, b);
    RouteExistsAt(r, a, b);
    if RouteExists(routes, a, b) {
      var i :| 0 <= i < |routes| && Connects(routes[i], a, b);
      assert r[i] == routes[i];
    }
  }

  /** One step of the inner loop: push `from -> to` unless the pair is
      already joined. */
  function ConnectOne(routes: seq<Route>, from: Location, to: Location): (r: seq<Route>)
    ensures r == routes || r == routes + [Route(from, to)]
    ensures RouteExists(r, from, to)
  {
    if RouteExists(routes, from, to) then routes
    else
      var r := routes + [Route(from, to)];
      RouteExistsAt(r, from, to);
      assert Connects(r[|routes|], from, to);
      r
  }

  /** The step never joins a pair twice. */
  lemma ConnectOneNoDuplicates(routes: seq<Route>, from: Location, to: Location)
    requires NoDuplicatePairs(routes)
    ensures NoDuplicatePairs(ConnectOne(routes, from, to))
  {
    if !RouteExists(routes, from, to) {
      RouteExistsAt(routes, from, to);
      var r := routes + [Route(from, to)];
      forall i, j | 0 <= i < j < |r|
        ensures !Connects(r[j], r[i].from, r[i].to)
      {
        if j == |routes| {
          assert !Connects(routes[i], from, to);
        } else {
          assert r[i] == routes[i] && r[j] == routes[j];
        }
      }
    }
  }

  /** The inner loop over the nearby locations of `from`. */
  function Connect(routes: seq<Route>, from: Location, nearby: seq<Location>): (r: seq<Route>)
    ensures |routes| <= |r| <= |routes| + |nearby|
    ensures r[..|routes|] == routes
    ensures forall i :: |routes| <= i < |r| ==> r[i].from == from && r[i].to in nearby
    decreases |nearby|
  {
    if |nearby| == 0 then routes
    else
      var next := ConnectOne(routes, from, nearby[0]);
      var r := Connect(next, from, nearby[1..]);
      assert r[..|routes|] == routes by {
        assert r[..|next|][..|routes|] == next[..|routes|];
      }
      assert forall l :: l in nearby[1..] ==> l in nearby;
      r
  }

  lemma {:induction false} ConnectNoDuplicates(routes: seq<Route>, from: Location, nearby: seq<Location>)
    requires NoDuplicatePairs(routes)
    ensures NoDuplicatePairs(Connect(routes, from, nearby))
    decreases |nearby|
  {
    if |nearby| > 0 {
      ConnectOneNoDuplicates(routes, from, nearby[0]);
      ConnectNoDuplicates(ConnectOne(routes, from, nearby[0]), from, nearby[1..]);
    }
  }

  /** After the inner loop, `from` is joined to each of its nearby locations. */
  lemma {:induction false} ConnectJoins(routes: seq<Route>, from: Location, nearby: seq<Location>)
    ensures forall l :: l in nearby ==> RouteExists(Connect(routes, from, nearby), from, l)
    decreases |nearby|
  {
    if |nearby| > 0 {
      var next := ConnectOne(routes, from, nearby[0]);
      var r := Connect(routes, from, nearby);
      ConnectJoins(next, from, nearby[1..]);
      RouteExistsGrows(next, r, from, nearby[0]);
      assert forall l :: l in nearby ==> l == nearby[0] || l in nearby[1..] by {
        assert nearby == [nearby[0]] + nearby[1..];
      }
    }
  }

  /** Every route starts at a location of `d`, ends at another one of `d`
      closer than the maximum distance. */
  predicate ValidRoute(d: seq<Location>, r: Route) {
    r.from in d && r.to in d && r.from.id != r.to.id && SqDist(r.from, r.to) < MaxSqDistance
  }

  /** The routes after the outer loop has handled the first `n` locations. */
  function RoutesAfter(d: seq<Location>, n: nat): (routes: seq<Route>)
    requires n <= |d|
    ensures |routes| <= 3 * n
    decreases n
  {
    if n == 0 then [] else Connect(RoutesAfter(d, n - 1), d[n - 1], Nearby(d, d[n - 1]))
  }

  /** Every route drawn so far joins two distinct locations of `d` closer
      than the maximum distance. */
  lemma {:induction false} RoutesAfterValid(d: seq<Location>, n: nat)
    requires n <= |d|
    ensures forall i :: 0 <= i < |RoutesAfter(d, n)| ==> ValidRoute(d, RoutesAfter(d, n)[i])
    decreases n
  {
    if n > 0 {
      var prev := RoutesAfter(d, n - 1);
      var r := RoutesAfter(d, n);
      RoutesAfterValid(d, n - 1);
      assert forall i :: 0 <= i < |prev| ==> r[i] == r[..|prev|][i];
    }
  }

  lemma {:induction false} RoutesAfterNoDuplicates(d: seq<Location>, n: nat)
    requires n <= |d|
    ensures NoDuplicatePairs(RoutesAfter(d, n))
    decreases n
  {
    if n > 0 {
      RoutesAfterNoDuplicates(d, n - 1);
      ConnectNoDuplicates(RoutesAfter(d, n - 1), d[n - 1], Nearby(d, d[n - 1]));
    }
  }

  /** A route leads only to one of its start's nearby locations. */
  predicate ToNearby(d: seq<Location>, r: Route) {
    r.to in Nearby(d, r.from)
  }

  /** Every route drawn so far ends at one of its start's nearby locations:
      the loop joins no location to anything but its nearest three. */
  lemma {:induction false} RoutesAfterToNearby(d: seq<Location>, n: nat)
    requires n <= |d|
    ensures forall i :: 0 <= i < |RoutesAfter(d, n)| ==> ToNearby(d, RoutesAfter(d, n)[i])
    decreases n
  {
    if n > 0 {
      var prev := RoutesAfter(d, n - 1);
      var r := RoutesAfter(d, n);
      RoutesAfterToNearby(d, n - 1);
      assert forall i :: 0 <= i < |prev| ==> r[i] == r[..|prev|][i];
    }
  }

  /** The outer loop over all of `d`. */
  function RoutesOf(d: seq<Location>): (routes: seq<Route>)
    ensures NoDuplicatePairs(routes)
    ensures forall i :: 0 <= i < |routes| ==> ValidRoute(d, routes[i])
    ensures forall i :: 0 <= i < |routes| ==> ToNearby(d, routes[i])
  {
    RoutesAfterNoDuplicates(d, |d|);
    RoutesAfterValid(d, |d|);
    RoutesAfterToNearby(d, |d|);
    RoutesAfter(d, |d|)
  }

  /** `createRoutes()`: the roads drawn on the map. */
  function CreateRoutes(locs: seq<Location>): (routes: seq<Route>)
    ensures NoDuplicatePairs(routes)
    ensures forall i :: 0 <= i < |routes| ==>
      routes[i].from in locs && routes[i].from.discovered &&
      routes[i].to in locs && routes[i].to.discovered &&
      routes[i].from.id != routes[i].to.id &&
      SqDist(routes[i].from, routes[i].to) < MaxSqDistance
    ensures forall i :: 0 <= i < |routes| ==>
      routes[i].to in Nearby(DiscoveredLocations(locs), routes[i].from)
  {
    RoutesOf(DiscoveredLocations(locs))
  }

  /** Only the discovered locations matter. */
  lemma RoutesIgnoreUndiscovered(locs: seq<Location>)
    ensures CreateRoutes(DiscoveredLocations(locs)) == CreateRoutes(locs)
  {
    FilterIdempotent(IsDiscovered(), locs);
  }

  /** Adding an undiscovered location changes no route. */
  lemma AddUndiscovered(locs: seq<Location>, l: Location)
    requires !l.discovered
    ensures CreateRoutes(locs + [l]) == CreateRoutes(locs)
  {
    assert DiscoveredLocations(locs + [l]) == DiscoveredLocations(locs) by {
      FilterAppend(IsDiscovered(), locs, [l]);
      assert Filter(IsDiscovered(), [l]) == [] by {
        assert [l][1..] == [];
      }
    }
  }

  /** Every location is joined to each of its nearest neighbours. */
  lemma {:induction false} NearestJoined(d: seq<Location>, n: nat)
    requires n <= |d|
    ensures forall i, l :: 0 <= i < n && l in Nearby(d, d[i]) ==> RouteExists(RoutesAfter(d, n), d[i], l)
    decreases n
  {
    if n > 0 {
      NearestJoined(d, n - 1);
      var prev := RoutesAfter(d, n - 1);
      var r := RoutesAfter(d, n);
      ConnectJoins(prev, d[n - 1], Nearby(d, d[n - 1]));
      forall i, l | 0 <= i < n - 1 && l in Nearby(d, d[i])
        ensures RouteExists(r, d[i], l)
      {
        RouteExistsGrows(prev, r, d[i], l);
      }
    }
  }

  lemma CreateRoutesJoinsNearest(locs: seq<Location>, a: Location, b: Location)
    requires a in DiscoveredLocations(locs)
    requires b in Nearby(DiscoveredLocations(locs), a)
    ensures RouteExists(CreateRoutes(locs), a, b)
  {
    var d := DiscoveredLocations(locs);
    NearestJoined(d, |d|);
    var i :| 0 <= i < |d| && d[i] == a;
  }

  // ---------------------------------------------------------------------------
  // At most three routes start at each location

  predicate UniqueIds(d: seq<Location>) {
    forall i, j :: 0 <= i < j < |d| ==> d[i].id != d[j].id
  }

  lemma {:induction false} FilterKeepsUniqueIds(keep: Location -> bool, d: seq<Location>)
    requires UniqueIds(d)
    ensures UniqueIds(Filter(keep, d))
    decreases |d|
  {
    if |d| > 0 {
      FilterKeepsUniqueIds(keep, d[1..]);
      var rest := Filter(keep, d[1..]);
      if keep(d[0]) {
        forall j | 0 <= j < |rest|
          ensures rest[j].id != d[0].id
        {
          assert rest[j] in rest;
        }
        assert Filter(keep, d) == [d[0]] + rest;
      }
    }
  }

  /** The number of routes starting at a location with the given id. */
  function CountFrom(routes: seq<Route>, id: string): nat
    decreases |routes|
  {
    if |routes| == 0 then 0
    else (if routes[0].from.id == id then 1 else 0) + CountFrom(routes[1..], id)
  }

  lemma {:induction false} CountFromAppend(a: seq<Route>, b: seq<Route>, id: string)
    ensures CountFrom(a + b, id) == CountFrom(a, id) + CountFrom(b, id)
    decreases |a|
  {
    if |a| == 0 {
      assert a + b == b;
    } else {
      CountFromAppend(a[1..], b, id);
      assert (a + b)[1..] == a[1..] + b;
    }
  }

  /** Routes that all start at `loc` count for its id only. */
  lemma {:induction false} CountFromSameStart(s: seq<Route>, loc: Location, id: string)
    requires forall i :: 0 <= i < |s| ==> s[i].from == loc
    ensures CountFrom(s, id) == if loc.id == id then |s| else 0
    decreases |s|
  {
    if |s| > 0 {
      CountFromSameStart(s[1..], loc, id);
    }
  }

  lemma RoutesAfterStep(d: seq<Location>, n: nat)
    requires 0 < n <= |d|
    ensures |RoutesAfter(d, n - 1)| <= |RoutesAfter(d, n)| <= |RoutesAfter(d, n - 1)| + 3
    ensures RoutesAfter(d, n)[..|RoutesAfter(d, n - 1)|] == RoutesAfter(d, n - 1)
    ensures forall i :: |RoutesAfter(d, n - 1)| <= i < |RoutesAfter(d, n)| ==> RoutesAfter(d, n)[i].from == d[n - 1]
  {
  }

  /** Counting over a list split at any point. */
  lemma CountFromSplit(r: seq<Route>, j: nat, id: string)
    requires j <= |r|
    ensures CountFrom(r, id) == CountFrom(r[..j], id) + CountFrom(r[j..], id)
  {
    CountFromAppend(r[..j], r[j..], id);
    assert r[..j] + r[j..] == r;
  }

  /** One more round adds at most three routes starting at `id`, and none
      when the round's location has another id. */
  lemma RoutesFromStep(d: seq<Location>, n: nat, id: string)
    requires 0 < n <= |d|
    ensures CountFrom(RoutesAfter(d, n), id) <= CountFrom(RoutesAfter(d, n - 1), id) + 3
    ensures d[n - 1].id != id ==> CountFrom(RoutesAfter(d, n), id) == CountFrom(RoutesAfter(d, n - 1), id)
  {
    var prev := RoutesAfter(d, n - 1);
    var r := RoutesAfter(d, n);
    RoutesAfterStep(d, n);
    CountFromSplit(r, |prev|, id);
    CountFromSameStart(r[|prev|..], d[n - 1], id);
  }

  /** A running count that starts at 0, grows by at most 3 per round and
      only in round `k` never exceeds 3 (and is 0 up to that round). */
  lemma {:induction false} OneGrowingRound(c: seq<int>, k: int, n: nat)
    requires n < |c| && c[0] == 0
    requires forall m :: 0 < m < |c| ==> c[m] <= c[m - 1] + 3
    requires forall m :: 0 < m < |c| && m - 1 != k ==> c[m] == c[m - 1]
    ensures c[n] <= 3
    ensures n <= k ==> c[n] == 0
    decreases n
  {
    if n > 0 {
      OneGrowingRound(c, k, n - 1);
    }
  }

  /** With unique ids, at most one discovered location (the one at the
      returned index, if any) has the id. */
  lemma HolderIndex(locs: seq<Location>, id: string) returns (k: int)
    requires UniqueIds(locs)
    ensures forall i :: 0 <= i < |DiscoveredLocations(locs)| && i != k ==> DiscoveredLocations(locs)[i].id != id
  {
    var d := DiscoveredLocations(locs);
    FilterKeepsUniqueIds(IsDiscovered(), locs);
    k := -1;
    if j :| 0 <= j < |d| && d[j].id == id {
      k := j;
    }
  }

  /** When only the location at index `k` can have the id, only its round
      adds routes starting there, and it adds at most three. */
  lemma RoutesFromOneHolder(d: seq<Location>, id: string, k: int)
    requires forall i :: 0 <= i < |d| && i != k ==> d[i].id != id
    ensures CountFrom(RoutesAfter(d, |d|), id) <= 3
  {
    var c := seq(|d| + 1, m requires 0 <= m <= |d| => CountFrom(RoutesAfter(d, m), id));
    forall m | 0 < m < |c|
      ensures c[m] <= c[m - 1] + 3
      ensures m - 1 != k ==> c[m] == c[m - 1]
    {
      RoutesFromStep(d, m, id);
    }
    OneGrowingRound(c, k, |d|);
  }

  /** With unique ids, no location starts more than three routes. */
  lemma AtMostThreeFrom(locs: seq<Location>, id: string)
    requires UniqueIds(locs)
    ensures CountFrom(CreateRoutes(locs), id) <= 3
  {
    var k := HolderIndex(locs, id);
    RoutesFromOneHolder(DiscoveredLocations(locs), id, k);
  }
}
