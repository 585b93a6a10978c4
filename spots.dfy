/** The browser's view of a study spot, shared by both clients (app.js and
    frontend/app.js hold the same code for these): taking the results out
    of the search response, the category filters, and the fields a spot
    card derives from a spot. */
module Spots {
  import opened Optional
  import opened Seqs
  import opened Places

  /** A spot as the browser holds it: whichever of these fields the
      response carried (`kind` is the singular `type` field). */
  datatype Spot = Spot(
    placeId: Option<string>,
    rating: Option<int>,
    priceLevel: Option<int>,
    types: Option<seq<string>>,
    kind: Option<string>,
    geometry: Option<Geometry>,
    lat: Option<real>,
    lng: Option<real>,
    userRatingsTotal: Option<int>,
    reviewsCount: Option<int>,
    openingHours: Option<OpeningHours>)

  /** The parsed JSON body of a search response. An object's array field
      that is missing (or falsy) is `None`; `JScalar` is a number, string or
      boolean, on which every field reads as `undefined`. */
  datatype ResponseBody =
    | JArray(items: seq<Spot>)
    | JObject(results: Option<seq<Spot>>, places: Option<seq<Spot>>, data: Option<seq<Spot>>)
    | JNull
    | JScalar

  // ---------------------------------------------------------------------
  // Taking the spots out of the response
  // ---------------------------------------------------------------------

  /** The `results` chosen from the body: the body itself when it is an
      array, else its first present field among `results`, `places` and
      `data`, else the empty list. `None` is the TypeError of reading a
      field of `null`. */
  function ExtractResults(body: ResponseBody): (r: Option<seq<Spot>>)
    ensures r.None? <==> body.JNull?
    ensures body.JArray? ==> r == Some(body.items)
    ensures body.JScalar? ==> r == Some([])
    ensures body.JObject? && body.results.Some? ==> r == body.results
    ensures body.JObject? && body.results.None? && body.places.Some? ==> r == body.places
    ensures body.JObject? && body.results.None? && body.places.None? && body.data.Some? ==> r == body.data
    ensures body.JObject? && body.results.None? && body.places.None? && body.data.None? ==> r == Some([])
  {
    match body
    case JArray(items) => Some(items)
    case JObject(results, places, data) =>
      if results.Some? then results
      else if places.Some? then places
      else if data.Some? then data
      else Some([])
    case JNull => None
    case JScalar => Some([])
  }

  /** Whatever the body's shape, the chosen list is one of the lists the
      body holds, or empty. */
  lemma ExtractedComesFromBody(body: ResponseBody)
    requires ExtractResults(body).Some?
    ensures var r := ExtractResults(body).value;
      r == [] ||
      (body.JArray? && r == body.items) ||
      (body.JObject? && (Some(r) == body.results || Some(r) == body.places || Some(r) == body.data))
  {
  }

  // ---------------------------------------------------------------------
  // Category filters
  // ---------------------------------------------------------------------

  /** The `cafe` filter's test: the spot has `types`, and they name `cafe`
      or `coffee_shop`, or its `type` is `cafe`. */
  predicate IsCafe(s: Spot)
  {
    s.types.Some? &&
    ("cafe" in s.types.value || "coffee_shop" in s.types.value || s.kind == Some("cafe"))
  }

  /** The `library` filter's test: the spot has `types`, and they name
      `library`, or its `type` is `library`. */
  predicate IsLibrary(s: Spot)
  {
    s.types.Some? && ("library" in s.types.value || s.kind == Some("library"))
  }

  /** The spots a filter button selects from `allSpots`: all of them for
      `all`, the order-preserving sub-list passing the category's test for
      `cafe` and `library`, and none for any other id. */
  function Category(filterId: string, allSpots: seq<Spot>): (r: seq<Spot>)
    ensures |r| <= |allSpots|
    ensures IsSubsequence(r, allSpots)
    ensures filterId == "all" ==> r == allSpots
    ensures filterId == "cafe" ==> forall x :: x in r <==> x in allSpots && IsCafe(x)
    ensures filterId == "cafe" ==>
      forall x :: multiset(r)[x] == if IsCafe(x) then multiset(allSpots)[x] else 0
    ensures filterId == "library" ==> forall x :: x in r <==> x in allSpots && IsLibrary(x)
    ensures filterId == "library" ==>
      forall x :: multiset(r)[x] == if IsLibrary(x) then multiset(allSpots)[x] else 0
    ensures filterId != "all" ==> forall x :: x in r ==> x.types.Some?
    ensures filterId != "all" && filterId != "cafe" && filterId != "library" ==> r == []
  {
    if filterId == "all" then
      SubsequenceReflexive(allSpots);
      allSpots
    else if filterId == "cafe" then
      FilterIsSubsequence(allSpots, IsCafe);
      FilterMembers(allSpots, IsCafe);
      FilterMultiset(allSpots, IsCafe);
      Filter(allSpots, IsCafe)
    else if filterId == "library" then
      FilterIsSubsequence(allSpots, IsLibrary);
      FilterMembers(allSpots, IsLibrary);
      FilterMultiset(allSpots, IsLibrary);
      Filter(allSpots, IsLibrary)
    else
      []
  }

  /** Choosing a category twice selects the same spots as choosing it once. */
  lemma CategoryIdempotent(filterId: string, allSpots: seq<Spot>)
    ensures Category(filterId, Category(filterId, allSpots)) == Category(filterId, allSpots)
  {
    if filterId == "cafe" {
      FilterIdempotent(allSpots, IsCafe);
    } else if filterId == "library" {
      FilterIdempotent(allSpots, IsLibrary);
    }
  }

  /** The selection never grows the list and only holds spots of it. */
  lemma CategoryWithinAllSpots(filterId: string, allSpots: seq<Spot>)
    ensures |Category(filterId, allSpots)| <= |allSpots|
    ensures forall x :: x in Category(filterId, allSpots) ==> x in allSpots
  {
    SubsequenceBounds(Category(filterId, allSpots), allSpots);
  }

  // ---------------------------------------------------------------------
  // Keys the sort uses
  // ---------------------------------------------------------------------

  /** `spot.rating || 0`. */
  function RatingOf(s: Spot): int
  {
    Or(s.rating, 0)
  }

  /** `spot.price_level || 2`: a missing or zero price level counts as 2. */
  function PriceKeyOf(s: Spot): int
  {
    Or(s.priceLevel, 2)
  }

  // ---------------------------------------------------------------------
  // What a spot card shows
  // ---------------------------------------------------------------------

  function Repeat(c: char, n: nat): (r: string)
    ensures |r| == n
    ensures forall k :: 0 <= k < n ==> r[k] == c
  {
    if n == 0 then "" else [c] + Repeat(c, n - 1)
  }

  /** The price label: `'$'.repeat(price_level)` for a truthy price level,
      `'$$'` otherwise; `None` is the RangeError of repeating a negative
      number of times. The number of `$` shown is the key the price sort
      orders by. */
  function PriceLabel(s: Spot): (r: Option<string>)
    ensures r.None? <==> PriceKeyOf(s) < 0
    ensures r.Some? ==> |r.value| == PriceKeyOf(s)
    ensures r.Some? ==> forall k :: 0 <= k < |r.value| ==> r.value[k] == '$'
    ensures !Truthy(s.priceLevel) ==> r == Some("$$")
  {
    if Truthy(s.priceLevel) then
      if s.priceLevel.value < 0 then None else Some(Repeat('$', s.priceLevel.value))
    else Some("$$")
  }

  /** `Math.round(rating)` on a rating in tenths: the nearest whole star,
      halves rounding up. */
  function RoundedStars(tenths: int): (n: int)
    ensures 10 * n - 5 <= tenths < 10 * n + 5
  {
    (tenths + 5) / 10
  }

  /** The filled and empty star counts (`'★'.repeat(n)`,
      `'☆'.repeat(5 - n)`), five in all; `None` is the RangeError of a
      rating that rounds below 0 or above 5. */
  function Stars(s: Spot): (r: Option<(nat, nat)>)
    ensures r.None? <==> RatingOf(s) < -5 || RatingOf(s) >= 55
    ensures r.Some? ==> r.value.0 + r.value.1 == 5
    ensures r.Some? ==> 10 * r.value.0 - 5 <= RatingOf(s) < 10 * r.value.0 + 5
  {
    var n := RoundedStars(RatingOf(s));
    if 0 <= n <= 5 then Some((n, 5 - n)) else None
  }

  /** `spot.user_ratings_total || spot.reviews_count || 0`. */
  function ReviewCount(s: Spot): (r: int)
    ensures Truthy(s.userRatingsTotal) ==> r == s.userRatingsTotal.value
    ensures !Truthy(s.userRatingsTotal) && Truthy(s.reviewsCount) ==> r == s.reviewsCount.value
    ensures r == 0 <==> !Truthy(s.userRatingsTotal) && !Truthy(s.reviewsCount)
  {
    if Truthy(s.userRatingsTotal) then s.userRatingsTotal.value else Or(s.reviewsCount, 0)
  }

  /** The "open now" badge (`opening_hours && opening_hours.open_now`):
      never without `opening_hours`, and with it exactly when `open_now` is
      true; a missing or false `open_now` hides it. */
  predicate ShowsOpenBadge(s: Spot)
    ensures s.openingHours.None? ==> !ShowsOpenBadge(s)
    ensures s.openingHours.Some? ==>
      (ShowsOpenBadge(s) <==> s.openingHours.value.openNow.Some? && s.openingHours.value.openNow.value)
  {
    s.openingHours.Some? && s.openingHours.value.openNow == Some(true)
  }

  predicate HasGeometryLocation(s: Spot)
  {
    s.geometry.Some? && s.geometry.value.location.Some?
  }

  /** The coordinates the card links to: `geometry.location` when present,
      whatever `lat`/`lng` say; otherwise `lat`/`lng` when both are truthy;
      otherwise none (both left `undefined`). */
  function Coordinates(s: Spot): (r: Option<LatLng>)
    ensures HasGeometryLocation(s) ==> r == s.geometry.value.location
    ensures !HasGeometryLocation(s) ==> (r.Some? <==> TruthyReal(s.lat) && TruthyReal(s.lng))
    ensures !HasGeometryLocation(s) && r.Some? ==> r.value == LatLng(s.lat.value, s.lng.value)
  {
    if HasGeometryLocation(s) then s.geometry.value.location
    else if TruthyReal(s.lat) && TruthyReal(s.lng) then Some(LatLng(s.lat.value, s.lng.value))
    else None
  }

  /** `lat && lng`: the directions link is shown. */
  predicate ShowsDirections(s: Spot)
  {
    var c := Coordinates(s);
    c.Some? && c.value.lat != 0.0 && c.value.lng != 0.0
  }

  /** The directions link appears exactly when the chosen coordinates are
      both non-zero: a zero from `geometry.location` hides it, and flat
      `lat`/`lng` only count when both are truthy. */
  lemma DirectionsShownIff(s: Spot)
    ensures ShowsDirections(s) <==>
      if HasGeometryLocation(s) then
        s.geometry.value.location.value.lat != 0.0 && s.geometry.value.location.value.lng != 0.0
      else
        TruthyReal(s.lat) && TruthyReal(s.lng)
  {
  }
}
