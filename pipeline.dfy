/** The server's reply as the two clients read it. The records the handler
    sends name their fields `id`, `location` and `open_now`, while the cards
    read `place_id`, `geometry` or `lat`/`lng`, and `opening_hours`: a
    record from this server never gets a directions link or an open badge,
    and passes a category filter on its `types` alone. */
module Pipeline {
  import opened Optional
  import opened Places
  import opened Spots
  import Server
  import App
  import FrontendApp

  /** A response record after `response.json()`: the fields a card reads
      that the record does not have are `undefined`. The server's `id`,
      `location` and `open_now` are not read under the names the card
      uses (`place_id`, `geometry`, `lat`/`lng`, `opening_hours`). */
  function ToSpot(f: FormattedPlace): (s: Spot)
    ensures s.placeId.None? && s.kind.None? && s.reviewsCount.None?
    ensures s.geometry.None? && !HasGeometryLocation(s) && s.lat.None? && s.lng.None?
    ensures s.openingHours.None?
    ensures s.rating == Some(f.rating) && s.userRatingsTotal == Some(f.userRatingsTotal)
    ensures s.priceLevel == f.priceLevel && s.types == f.types
  {
    Spot(
      placeId := None,
      rating := Some(f.rating),
      priceLevel := f.priceLevel,
      types := f.types,
      kind := None,
      geometry := None,
      lat := None,
      lng := None,
      userRatingsTotal := Some(f.userRatingsTotal),
      reviewsCount := None,
      openingHours := None)
  }

  function ToSpots(rs: seq<FormattedPlace>): (r: seq<Spot>)
    ensures |r| == |rs|
    ensures forall k :: 0 <= k < |rs| ==> r[k] == ToSpot(rs[k])
  {
    seq(|rs|, k requires 0 <= k < |rs| => ToSpot(rs[k]))
  }

  /** What `fetch` hands the client: the parsed body of a 200 reply, from
      which the client takes its `results`, or `None` for a 500, which the
      client turns into a thrown error. */
  function Delivered(reply: Server.HttpReply): (r: Option<ResponseBody>)
    ensures r.Some? <==> reply.statusCode == 200 && reply.body.SearchBody?
    ensures r.Some? ==> !r.value.JNull? && ExtractResults(r.value) == Some(ToSpots(reply.body.results))
  {
    if reply.statusCode == 200 && reply.body.SearchBody? then
      Some(JObject(Some(ToSpots(reply.body.results)), None, None))
    else
      None
  }

  /** The card of a server record: the stars and the review count come from
      the defaulted `rating` and `user_ratings_total`, the price label from
      `price_level`, and neither the directions link nor the open badge is
      ever shown. */
  lemma ServerRecordCard(f: FormattedPlace)
    ensures var s := ToSpot(f);
      && !ShowsDirections(s)
      && !ShowsOpenBadge(s)
      && Coordinates(s).None?
      && RatingOf(s) == f.rating
      && ReviewCount(s) == f.userRatingsTotal
      && PriceKeyOf(s) == Or(f.priceLevel, 2)
  {
  }

  /** The category filters judge a server record by its `types` alone. */
  lemma ServerRecordCategories(f: FormattedPlace)
    ensures IsCafe(ToSpot(f)) <==>
      f.types.Some? && ("cafe" in f.types.value || "coffee_shop" in f.types.value)
    ensures IsLibrary(ToSpot(f)) <==> f.types.Some? && "library" in f.types.value
  {
  }

  /** app.js always has the server search both categories. */
  lemma AppSearchesBothCategories()
    ensures Server.SearchTypes(Some(App.SearchTypesParam)) == Server.DefaultTypes
  {
    FrontendApp.BothCategories();
  }

  /** The frontend after a search: a 200 reply shows its records, as
      many as its `count`, in the server's order; a 500 leaves the lists as
      they were. */
  lemma FrontendShowsReply(v: FrontendApp.View, merged: Option<seq<Place>>)
    ensures var reply := Server.Respond(merged);
      var w := FrontendApp.Search(v, Delivered(reply));
      && (reply.statusCode == 200 ==>
            w.spots == w.allSpots == ToSpots(reply.body.results) &&
            |w.spots| == reply.body.count)
      && (reply.statusCode != 200 ==> w == v)
  {
  }

  /** No card the frontend shows after a successful search links to
      directions. */
  lemma NoDirectionsAfterSearch(v: FrontendApp.View, merged: Option<seq<Place>>)
    requires Server.Respond(merged).statusCode == 200
    ensures var w := FrontendApp.Search(v, Delivered(Server.Respond(merged)));
      forall k :: 0 <= k < |w.spots| ==> !ShowsDirections(w.spots[k])
  {
    var rs := Server.Respond(merged).body.results;
    forall k | 0 <= k < |rs| ensures !ShowsDirections(ToSpots(rs)[k]) {
      ServerRecordCard(rs[k]);
    }
  }
}
