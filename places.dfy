/** The records that flow through the search handler `/api/search`:
    what the nearby-search provider returns for a place, the request the
    handler sends it, and the record the handler responds with.

    Ratings are integer tenths of a star (`45` is 4.5); coordinates are
    reals. A field the provider may leave out is an `Option`. */
module Places {
  import opened Optional

  datatype LatLng = LatLng(lat: real, lng: real)

  /** `geometry`, whose `location` may be missing. */
  datatype Geometry = Geometry(location: Option<LatLng>)

  /** `opening_hours`, whose `open_now` may be missing. */
  datatype OpeningHours = OpeningHours(openNow: Option<bool>)

  /** One element of the provider's `results` array. */
  datatype Place = Place(
    placeId: Option<string>,
    name: Option<string>,
    rating: Option<int>,
    userRatingsTotal: Option<int>,
    vicinity: Option<string>,
    geometry: Option<Geometry>,
    priceLevel: Option<int>,
    openingHours: Option<OpeningHours>,
    types: Option<seq<string>>)

  /** The query string of one provider call: `location`, `radius`, `type`,
      `keyword` and `key` (left out of the query when undefined). */
  datatype ProviderRequest = ProviderRequest(
    location: string,
    radius: int,
    placeType: string,
    keyword: string,
    key: Option<string>)

  /** What one awaited provider call gives: it throws (a network error or a
      non-2xx status), or it returns a body whose `results` may be missing
      or falsy. */
  datatype CallOutcome = Threw | Returned(results: Option<seq<Place>>)

  /** One element of the handler's response `results`. */
  datatype FormattedPlace = FormattedPlace(
    id: Option<string>,
    name: Option<string>,
    rating: int,
    userRatingsTotal: int,
    vicinity: Option<string>,
    location: LatLng,
    priceLevel: Option<int>,
    openNow: Option<bool>,
    types: Option<seq<string>>)

  /** `place.geometry.location` can be read without a TypeError. */
  predicate HasLocation(p: Place)
  {
    p.geometry.Some? && p.geometry.value.location.Some?
  }
}
