/// The query layer over the catalogue (app/actions/restaurants.ts): distance
/// annotation and the stable sort by distance, text search, lookup by id,
/// filtering by status and the per-status counts. The great-circle distance
/// is a parameter: only ordering, filtering and counting are modelled.
module Queries {
  import opened Strings
  import opened Types

  /** `calculateDistance(lat1, lng1, lat2, lng2)`, taken as given. */
  type Distance = (real, real, real, real) -> real

  /** Each place with its distance from the reference point, in order. */
  function Annotate(rs: seq<Restaurant>, lat: real, lng: real, dist: Distance): (ws: seq<RestaurantWithDistance>)
    ensures |ws| == |rs|
    ensures forall i :: 0 <= i < |rs| ==> ws[i] == WithDistance(rs[i], dist(lat, lng, rs[i].latitude, rs[i].longitude))
  {
    if rs == [] then []
    else [WithDistance(rs[0], dist(lat, lng, rs[0].latitude, rs[0].longitude))] + Annotate(rs[1..], lat, lng, dist)
  }

  /** Each place with `distance_km: 0`, in order. */
  function ZeroDistance(rs: seq<Restaurant>): (ws: seq<RestaurantWithDistance>)
    ensures |ws| == |rs|
    ensures forall i :: 0 <= i < |rs| ==> ws[i] == WithDistance(rs[i], 0.0)
  {
    if rs == [] then [] else [WithDistance(rs[0], 0.0)] + ZeroDistance(rs[1..])
  }

  // ---------------------------------------------------------------------------
  // The stable sort by distance

  predicate SortedByDistance(ws: seq<RestaurantWithDistance>)
  {
    forall i, j :: 0 <= i < j < |ws| ==> ws[i].distance_km <= ws[j].distance_km
  }

  /** The elements of `ws` at distance `d`, in their order in `ws`. */
  function AtDistance(ws: seq<RestaurantWithDistance>, d: real): seq<RestaurantWithDistance>
  {
    if ws == [] then [] else (if ws[0].distance_km == d then [ws[0]] else []) + AtDistance(ws[1..], d)
  }

  /** `ws` lists the elements of `vs` with every group of equal distances in
      its original order: what a stable sort keeps. */
  ghost predicate SameGroups(ws: seq<RestaurantWithDistance>, vs: seq<RestaurantWithDistance>)
  {
    forall d :: AtDistance(ws, d) == AtDistance(vs, d)
  }

  /** Inserts `w` in front of the first element that is not closer. */
  function Insert(w: RestaurantWithDistance, ws: seq<RestaurantWithDistance>): seq<RestaurantWithDistance>
  {
    if ws == [] || w.distance_km <= ws[0].distance_km then [w] + ws
    else [ws[0]] + Insert(w, ws[1..])
  }

  /** `.sort((a, b) => a.distance_km - b.distance_km)`; `Array.prototype.sort`
      is stable. */
  function SortByDistance(ws: seq<RestaurantWithDistance>): seq<RestaurantWithDistance>
  {
    if ws == [] then [] else Insert(ws[0], SortByDistance(ws[1..]))
  }

  lemma {:induction false} InsertPermutes(w: RestaurantWithDistance, ws: seq<RestaurantWithDistance>)
    ensures multiset(Insert(w, ws)) == multiset{w} + multiset(ws)
  {
    if ws != [] && w.distance_km > ws[0].distance_km {
      InsertPermutes(w, ws[1..]);
      assert ws == [ws[0]] + ws[1..];
    }
  }

  lemma {:induction false} InsertSorted(w: RestaurantWithDistance, ws: seq<RestaurantWithDistance>)
    requires SortedByDistance(ws)
    ensures SortedByDistance(Insert(w, ws))
  {
    if ws != [] && w.distance_km > ws[0].distance_km {
      var tail := ws[1..];
      SortedTail(ws);
      InsertSorted(w, tail);
      InsertPermutes(w, tail);
      var t := Insert(w, tail);
      forall i | 0 <= i < |t| ensures ws[0].distance_km <= t[i].distance_km {
        assert t[i] in multiset(t);
        if t[i] != w {
          assert t[i] in tail;
        }
      }
      assert Insert(w, ws) == [ws[0]] + t;
    }
  }

  /** The sort yields the same elements, ordered by distance. */
  lemma {:induction false} SortSorted(ws: seq<RestaurantWithDistance>)
    ensures SortedByDistance(SortByDistance(ws))
    ensures multiset(SortByDistance(ws)) == multiset(ws)
  {
    if ws != [] {
      SortSorted(ws[1..]);
      InsertSorted(ws[0], SortByDistance(ws[1..]));
      InsertPermutes(ws[0], SortByDistance(ws[1..]));
      assert ws == [ws[0]] + ws[1..];
    }
  }

  lemma {:induction false} AtDistanceAppend(a: seq<RestaurantWithDistance>, b: seq<RestaurantWithDistance>, d: real)
    ensures AtDistance(a + b, d) == AtDistance(a, d) + AtDistance(b, d)
  {
    if a != [] {
      AtDistanceAppend(a[1..], b, d);
      assert (a + b)[0] == a[0] && (a + b)[1..] == a[1..] + b;
    } else {
      assert a + b == b;
    }
  }

  lemma {:induction false} InsertAtDistance(w: RestaurantWithDistance, ws: seq<RestaurantWithDistance>, d: real)
    requires SortedByDistance(ws)
    ensures AtDistance(Insert(w, ws), d) == (if w.distance_km == d then [w] else []) + AtDistance(ws, d)
  {
    if ws != [] && w.distance_km > ws[0].distance_km {
      var tail := ws[1..];
      SortedTail(ws);
      InsertAtDistance(w, tail, d);
      assert Insert(w, ws) == [ws[0]] + Insert(w, tail);
      AtDistanceAppend([ws[0]], Insert(w, tail), d);
      AtDistanceSingle(ws[0], d);
      AtDistanceAppend([ws[0]], tail, d);
      assert ws == [ws[0]] + tail;
    } else {
      assert Insert(w, ws) == [w] + ws;
      AtDistanceAppend([w], ws, d);
      AtDistanceSingle(w, d);
    }
  }

  lemma AtDistanceSingle(w: RestaurantWithDistance, d: real)
    ensures AtDistance([w], d) == if w.distance_km == d then [w] else []
  {
    assert [w][1..] == [];
  }

  lemma SortedTail(ws: seq<RestaurantWithDistance>)
    requires SortedByDistance(ws) && ws != []
    ensures SortedByDistance(ws[1..])
  {
    var tail := ws[1..];
    forall i, j | 0 <= i < j < |tail| ensures tail[i].distance_km <= tail[j].distance_km {
      assert tail[i] == ws[i + 1] && tail[j] == ws[j + 1];
    }
  }

  /** The sort is stable: elements at equal distance keep their order. */
  lemma {:induction false} SortStable(ws: seq<RestaurantWithDistance>)
    ensures SameGroups(SortByDistance(ws), ws)
  {
    if ws != [] {
      SortStable(ws[1..]);
      SortSorted(ws[1..]);
      forall d ensures AtDistance(SortByDistance(ws), d) == AtDistance(ws, d) {
        InsertAtDistance(ws[0], SortByDistance(ws[1..]), d);
      }
    }
  }

  lemma {:induction false} MultisetAtDistance(ws: seq<RestaurantWithDistance>, w: RestaurantWithDistance)
    ensures multiset(ws)[w] == multiset(AtDistance(ws, w.distance_km))[w]
  {
    if ws != [] {
      MultisetAtDistance(ws[1..], w);
      assert ws == [ws[0]] + ws[1..];
    }
  }

  lemma SameGroupsLength(u: seq<RestaurantWithDistance>, v: seq<RestaurantWithDistance>)
    requires SameGroups(u, v)
    ensures multiset(u) == multiset(v) && |u| == |v|
  {
    forall w ensures multiset(u)[w] == multiset(v)[w] {
      MultisetAtDistance(u, w);
      MultisetAtDistance(v, w);
    }
    assert multiset(u) == multiset(v);
    assert |multiset(u)| == |u| && |multiset(v)| == |v|;
  }

  lemma {:induction false} NoneCloser(x: seq<RestaurantWithDistance>, d: real)
    requires SortedByDistance(x) && x != [] && d < x[0].distance_km
    ensures AtDistance(x, d) == []
    decreases |x|
  {
    if |x| > 1 {
      var tail := x[1..];
      SortedTail(x);
      assert x[0].distance_km <= x[1].distance_km;
      NoneCloser(tail, d);
    }
  }

  /** Two sorted sequences with the same groups start with the same element. */
  lemma SameFirst(u: seq<RestaurantWithDistance>, v: seq<RestaurantWithDistance>)
    requires SortedByDistance(u) && SortedByDistance(v) && SameGroups(u, v) && u != [] && v != []
    ensures u[0] == v[0]
  {
    var m := u[0].distance_km;
    var n := v[0].distance_km;
    assert AtDistance(u, m) != [];
    assert AtDistance(v, n) != [];
    if n < m {
      NoneCloser(u, n);
    } else if m < n {
      NoneCloser(v, m);
    }
    assert AtDistance(u, m) == [u[0]] + AtDistance(u[1..], m);
    assert AtDistance(v, m) == [v[0]] + AtDistance(v[1..], m);
    assert u[0] == AtDistance(u, m)[0] && v[0] == AtDistance(v, m)[0];
  }

  lemma SameGroupsTail(u: seq<RestaurantWithDistance>, v: seq<RestaurantWithDistance>)
    requires SameGroups(u, v) && u != [] && v != [] && u[0] == v[0]
    ensures SameGroups(u[1..], v[1..])
  {
    var m := u[0].distance_km;
    forall d ensures AtDistance(u[1..], d) == AtDistance(v[1..], d) {
      assert AtDistance(u, d) == AtDistance(v, d);
      if m == d {
        assert AtDistance(u[1..], d) == AtDistance(u, d)[1..];
        assert AtDistance(v[1..], d) == AtDistance(v, d)[1..];
      } else {
        assert [] + AtDistance(u[1..], d) == AtDistance(u[1..], d);
        assert [] + AtDistance(v[1..], d) == AtDistance(v[1..], d);
      }
    }
  }

  /** Sorted by distance with the same groups pins the sequence down: every
      stable sort by distance yields the same sequence. */
  lemma {:induction false} SortedSameGroupsUnique(u: seq<RestaurantWithDistance>, v: seq<RestaurantWithDistance>)
    requires SortedByDistance(u) && SortedByDistance(v) && SameGroups(u, v)
    ensures u == v
    decreases |u|
  {
    SameGroupsLength(u, v);
    if u != [] {
      SameFirst(u, v);
      SameGroupsTail(u, v);
      SortedTail(u);
      SortedTail(v);
      SortedSameGroupsUnique(u[1..], v[1..]);
      assert u == [u[0]] + u[1..] && v == [v[0]] + v[1..];
    }
  }

  /** A sorted, stable rearrangement of `ws` is `SortByDistance(ws)`. */
  lemma StableSortIsSortByDistance(ws: seq<RestaurantWithDistance>, sorted: seq<RestaurantWithDistance>)
    requires SortedByDistance(sorted) && SameGroups(sorted, ws)
    ensures sorted == SortByDistance(ws)
  {
    SortSorted(ws);
    SortStable(ws);
    SortedSameGroupsUnique(sorted, SortByDistance(ws));
  }

  // ---------------------------------------------------------------------------
  // getRestaurantsWithDistance

  function GetRestaurantsWithDistance(catalog: seq<Restaurant>, userLat: real, userLng: real,
                                      dist: Distance): seq<RestaurantWithDistance>
  {
    SortByDistance(Annotate(catalog, userLat, userLng, dist))
  }

  /** Every place once, with its distance from the user, nearest first, ties
      in catalogue order. */
  lemma WithDistanceSorted(catalog: seq<Restaurant>, userLat: real, userLng: real, dist: Distance)
    ensures var res := GetRestaurantsWithDistance(catalog, userLat, userLng, dist);
      var annotated := Annotate(catalog, userLat, userLng, dist);
      SortedByDistance(res) && multiset(res) == multiset(annotated) && SameGroups(res, annotated)
  {
    SortSorted(Annotate(catalog, userLat, userLng, dist));
    SortStable(Annotate(catalog, userLat, userLng, dist));
  }

  // ---------------------------------------------------------------------------
  // searchRestaurants

  /** `query.toLowerCase().trim()`. */
  function SearchTerm(query: string): string
  {
    Trim(Lower(query))
  }

  predicate Matches(r: Restaurant, term: string)
  {
    Contains(Lower(r.name), term) || Contains(Lower(r.description), term)
  }

  /** Search ignores case: the term has no upper-case letter, lower-casing the
      query first changes nothing, and queries that lower-case alike select
      the same places. */
  lemma SearchIgnoresCase(catalog: seq<Restaurant>, q1: string, q2: string)
    requires Lower(q1) == Lower(q2)
    ensures forall i :: 0 <= i < |SearchTerm(q1)| ==> !('A' <= SearchTerm(q1)[i] <= 'Z')
    ensures SearchTerm(Lower(q1)) == SearchTerm(q1)
    ensures FilterMatching(catalog, SearchTerm(q1)) == FilterMatching(catalog, SearchTerm(q2))
  {
    LowerIdempotent(q1);
    var low := Lower(q1);
    var t := SearchTerm(q1);
    forall i | 0 <= i < |t| ensures !('A' <= t[i] <= 'Z') {
      assert t[i] == low[TrimOffset(low) + i];
    }
  }

  function FilterMatching(rs: seq<Restaurant>, term: string): seq<Restaurant>
  {
    if rs == [] then [] else (if Matches(rs[0], term) then [rs[0]] else []) + FilterMatching(rs[1..], term)
  }

  /** A place is kept, as often as it occurs, exactly when its lower-cased
      name or description contains the term. */
  lemma {:induction false} FilterMatchingCounts(rs: seq<Restaurant>, term: string, r: Restaurant)
    ensures multiset(FilterMatching(rs, term))[r] == if Matches(r, term) then multiset(rs)[r] else 0
  {
    if rs != [] {
      FilterMatchingCounts(rs[1..], term, r);
      assert rs == [rs[0]] + rs[1..];
    }
  }

  lemma {:induction false} FilterAllMatching(rs: seq<Restaurant>, term: string)
    requires forall i :: 0 <= i < |rs| ==> Matches(rs[i], term)
    ensures FilterMatching(rs, term) == rs
  {
    if rs != [] {
      assert Matches(rs[0], term);
      FilterAllMatching(rs[1..], term);
    }
  }

  lemma {:induction false} LowerKeepsSpace(s: string)
    requires AllSpace(s)
    ensures AllSpace(Lower(s))
  {
  }

  /** An empty or whitespace-only query keeps every place. */
  lemma BlankQueryKeepsAll(rs: seq<Restaurant>, query: string)
    requires AllSpace(query)
    ensures FilterMatching(rs, SearchTerm(query)) == rs
  {
    var low := Lower(query);
    assert AllSpace(low);
    TrimAllSpace(low);
    var t := Trim(low);
    forall i | 0 <= i < |rs| ensures Matches(rs[i], t) {
      ContainsEmpty(Lower(rs[i].name));
    }
    FilterAllMatching(rs, t);
  }

  function Places(ws: seq<RestaurantWithDistance>): (rs: seq<Restaurant>)
    ensures |rs| == |ws| && forall i :: 0 <= i < |ws| ==> rs[i] == ws[i].place
  {
    if ws == [] then [] else [ws[0].place] + Places(ws[1..])
  }

  function SearchRestaurants(catalog: seq<Restaurant>, query: string, userLat: Option<real>, userLng: Option<real>,
                             dist: Distance): seq<RestaurantWithDistance>
  {
    var filtered := FilterMatching(catalog, SearchTerm(query));
    if userLat.Some? && userLng.Some? then SortByDistance(Annotate(filtered, userLat.value, userLng.value, dist))
    else ZeroDistance(filtered)
  }

  /** Without both coordinates the matches keep catalogue order, each at
      distance 0. */
  lemma SearchWithoutLocation(catalog: seq<Restaurant>, query: string, userLat: Option<real>, userLng: Option<real>,
                              dist: Distance)
    requires userLat.None? || userLng.None?
    ensures var res := SearchRestaurants(catalog, query, userLat, userLng, dist);
      Places(res) == FilterMatching(catalog, SearchTerm(query)) &&
      forall i :: 0 <= i < |res| ==> res[i].distance_km == 0.0
  {
  }

  /** With both coordinates the matches come nearest first, ties in
      catalogue order. */
  lemma SearchWithLocation(catalog: seq<Restaurant>, query: string, userLat: real, userLng: real, dist: Distance)
    ensures var res := SearchRestaurants(catalog, query, Some(userLat), Some(userLng), dist);
      var annotated := Annotate(FilterMatching(catalog, SearchTerm(query)), userLat, userLng, dist);
      SortedByDistance(res) && multiset(res) == multiset(annotated) && SameGroups(res, annotated)
  {
    var annotated := Annotate(FilterMatching(catalog, SearchTerm(query)), userLat, userLng, dist);
    SortSorted(annotated);
    SortStable(annotated);
  }

  // ---------------------------------------------------------------------------
  // getRestaurantById

  /** `restaurants.find((r) => r.id === id) || null`. */
  function GetRestaurantById(catalog: seq<Restaurant>, id: string): (r: Option<Restaurant>)
    ensures r.None? <==> forall k :: 0 <= k < |catalog| ==> catalog[k].id != id
    ensures r.Some? ==> exists k :: 0 <= k < |catalog| && catalog[k] == r.value && r.value.id == id &&
                                    (forall j :: 0 <= j < k ==> catalog[j].id != id)
  {
    if catalog == [] then None
    else if catalog[0].id == id then Some(catalog[0])
    else
      var r := GetRestaurantById(catalog[1..], id);
      assert forall k :: 1 <= k < |catalog| ==> catalog[k] == catalog[1..][k - 1];
      if r.Some? then
        var k :| 0 <= k < |catalog[1..]| && catalog[1..][k] == r.value && r.value.id == id &&
                 (forall j :: 0 <= j < k ==> catalog[1..][j].id != id);
        assert catalog[k + 1] == r.value;
        r
      else r
  }

  // ---------------------------------------------------------------------------
  // getRestaurantsByHalalStatus

  function FilterStatus(rs: seq<Restaurant>, status: string): seq<Restaurant>
  {
    if rs == [] then []
    else (if StatusName(rs[0].halal_status) == status then [rs[0]] else []) + FilterStatus(rs[1..], status)
  }

  /** The number of places whose status is named `status`. */
  function CountStatus(rs: seq<Restaurant>, status: string): nat
  {
    if rs == [] then 0
    else (if StatusName(rs[0].halal_status) == status then 1 else 0) + CountStatus(rs[1..], status)
  }

  lemma {:induction false} FilterStatusShape(rs: seq<Restaurant>, status: string)
    ensures |FilterStatus(rs, status)| == CountStatus(rs, status)
    ensures forall r :: r in FilterStatus(rs, status) ==> r in rs && StatusName(r.halal_status) == status
  {
    if rs != [] {
      FilterStatusShape(rs[1..], status);
    }
  }

  function GetRestaurantsByHalalStatus(catalog: seq<Restaurant>, status: string, userLat: real, userLng: real,
                                       dist: Distance): seq<RestaurantWithDistance>
  {
    SortByDistance(Annotate(FilterStatus(catalog, status), userLat, userLng, dist))
  }

  /** Only places with the requested status, as many as the catalogue has,
      nearest first. */
  lemma ByHalalStatus(catalog: seq<Restaurant>, status: string, userLat: real, userLng: real, dist: Distance)
    ensures var res := GetRestaurantsByHalalStatus(catalog, status, userLat, userLng, dist);
      (forall i :: 0 <= i < |res| ==> StatusName(res[i].place.halal_status) == status && res[i].place in catalog) &&
      |res| == CountStatus(catalog, status) &&
      SortedByDistance(res) && SameGroups(res, Annotate(FilterStatus(catalog, status), userLat, userLng, dist))
  {
    var filtered := FilterStatus(catalog, status);
    var annotated := Annotate(filtered, userLat, userLng, dist);
    var res := SortByDistance(annotated);
    FilterStatusShape(catalog, status);
    SortSorted(annotated);
    SortStable(annotated);
    assert |multiset(res)| == |res| && |multiset(annotated)| == |annotated|;
    forall i | 0 <= i < |res|
      ensures StatusName(res[i].place.halal_status) == status && res[i].place in catalog
    {
      assert res[i] in multiset(annotated);
      var j :| 0 <= j < |annotated| && annotated[j] == res[i];
      assert filtered[j] in filtered;
    }
  }

  /** A status string names at most one status: asked for a status by its
      name, every result has that status. */
  lemma ByHalalStatusOf(catalog: seq<Restaurant>, s: HalalStatus, userLat: real, userLng: real, dist: Distance)
    ensures var res := GetRestaurantsByHalalStatus(catalog, StatusName(s), userLat, userLng, dist);
      forall i :: 0 <= i < |res| ==> res[i].place.halal_status == s
  {
    ByHalalStatus(catalog, StatusName(s), userLat, userLng, dist);
    var res := GetRestaurantsByHalalStatus(catalog, StatusName(s), userLat, userLng, dist);
    forall i | 0 <= i < |res| ensures res[i].place.halal_status == s {
      StatusNameInjective(res[i].place.halal_status, s);
    }
  }

  // ---------------------------------------------------------------------------
  // getGroupCounts

  /** The status names, one per status. */
  const StatusNames: seq<string> :=
    ["halal", "partially_halal", "muslim_friendly", "seafood", "vegetarian", "masjid", "mart", "accommodation"]

  lemma StatusNamesOnce(s: HalalStatus)
    ensures multiset(StatusNames)[StatusName(s)] == 1
  {
  }

  lemma {:induction false} CountPositive(rs: seq<Restaurant>, status: string)
    ensures CountStatus(rs, status) > 0 <==> exists k :: 0 <= k < |rs| && StatusName(rs[k].halal_status) == status
  {
    if rs != [] {
      CountPositive(rs[1..], status);
      assert forall k :: 1 <= k < |rs| ==> rs[k] == rs[1..][k - 1];
    }
  }

  lemma {:induction false} CountStatusSnoc(rs: seq<Restaurant>, r: Restaurant, status: string)
    ensures CountStatus(rs + [r], status) == CountStatus(rs, status) + if StatusName(r.halal_status) == status then 1 else 0
  {
    if rs != [] {
      CountStatusSnoc(rs[1..], r, status);
      assert (rs + [r])[1..] == rs[1..] + [r];
    } else {
      assert ([] + [r])[1..] == [];
    }
  }

  /** The total of the counts over the names in `names`. */
  function SumCounts(counts: map<string, nat>, names: seq<string>): nat
  {
    if names == [] then 0 else (if names[0] in counts then counts[names[0]] else 0) + SumCounts(counts, names[1..])
  }

  function CountSum(rs: seq<Restaurant>, names: seq<string>): nat
  {
    if names == [] then 0 else CountStatus(rs, names[0]) + CountSum(rs, names[1..])
  }

  lemma {:induction false} CountSumCons(rs: seq<Restaurant>, names: seq<string>)
    requires rs != []
    ensures CountSum(rs, names) == multiset(names)[StatusName(rs[0].halal_status)] + CountSum(rs[1..], names)
  {
    if names != [] {
      CountSumCons(rs, names[1..]);
      assert names == [names[0]] + names[1..];
    }
  }

  lemma {:induction false} CountSumEmpty(names: seq<string>)
    ensures CountSum([], names) == 0
  {
    if names != [] {
      CountSumEmpty(names[1..]);
    }
  }

  /** Every place has exactly one status, so the counts add up to the
      catalogue's length. */
  lemma {:induction false} CountSumAll(rs: seq<Restaurant>)
    ensures CountSum(rs, StatusNames) == |rs|
  {
    if rs != [] {
      CountSumCons(rs, StatusNames);
      StatusNamesOnce(rs[0].halal_status);
      CountSumAll(rs[1..]);
    } else {
      CountSumEmpty(StatusNames);
    }
  }

  lemma {:induction false} SumCountsMatches(counts: map<string, nat>, rs: seq<Restaurant>, names: seq<string>)
    requires forall name :: CountStatus(rs, name) == (if name in counts then counts[name] else 0)
    ensures SumCounts(counts, names) == CountSum(rs, names)
  {
    if names != [] {
      SumCountsMatches(counts, rs, names[1..]);
    }
  }

  /** `getGroupCounts`: one key per status that occurs, holding the number of
      places with that status; the values add up to the catalogue's length. */
  method GetGroupCounts(catalog: seq<Restaurant>) returns (counts: map<string, nat>)
    ensures forall name :: name in counts <==> exists k :: 0 <= k < |catalog| && StatusName(catalog[k].halal_status) == name
    ensures forall name :: name in counts ==> counts[name] == CountStatus(catalog, name)
    ensures SumCounts(counts, StatusNames) == |catalog|
  {
    counts := map[];
    var i := 0;
    while i < |catalog|
      invariant i <= |catalog|
      invariant forall name :: CountStatus(catalog[..i], name) == (if name in counts then counts[name] else 0)
      invariant forall name :: name in counts ==> counts[name] > 0
    {
      var key := StatusName(catalog[i].halal_status);
      var previous := if key in counts then counts[key] else 0;
      counts := counts[key := previous + 1];
      assert catalog[..i + 1] == catalog[..i] + [catalog[i]];
      forall name ensures CountStatus(catalog[..i + 1], name) == (if name in counts then counts[name] else 0) {
        CountStatusSnoc(catalog[..i], catalog[i], name);
      }
      i := i + 1;
    }
    assert catalog[..i] == catalog;
    forall name ensures name in counts <==> exists k :: 0 <= k < |catalog| && StatusName(catalog[k].halal_status) == name {
      CountPositive(catalog, name);
    }
    SumCountsMatches(counts, catalog, StatusNames);
    CountSumAll(catalog);
  }
}
