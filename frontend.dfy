/** The second client, frontend/app.js: it asks the server only for the
    active category, shows whatever the response carries, and filters the
    list it holds by category. It has no sort. React state is modelled as
    a value, each setter call giving the next value. */
module FrontendApp {
  import opened Optional
  import opened Seqs
  import opened Spots
  import Server

  /** The `types` query value for the active filter: the category itself
      for `cafe` and `library`, both categories for any other filter. The
      server splits it back into exactly the categories meant. */
  function TypesParam(activeFilter: string): (t: string)
    ensures t != ""
    ensures Server.SearchTypes(Some(t)) ==
      if activeFilter == "cafe" || activeFilter == "library" then [activeFilter]
      else Server.DefaultTypes
  {
    if activeFilter == "cafe" || activeFilter == "library" then
      SingleCategory(activeFilter);
      activeFilter
    else
      BothCategories();
      "cafe,library"
  }

  lemma SingleCategory(c: string)
    requires c == "cafe" || c == "library"
    ensures Server.SearchTypes(Some(c)) == [c]
  {
    Server.SplitCommaFree(c);
  }

  lemma TwoCategories(a: string, b: string)
    requires ',' !in a && ',' !in b
    ensures Server.SearchTypes(Some(a + "," + b)) == [a, b]
  {
    Server.SplitCommaFree(b);
    Server.SplitAfterPiece(a, b);
  }

  lemma BothCategories()
    ensures Server.SearchTypes(Some("cafe,library")) == Server.DefaultTypes
  {
    TwoCategories("cafe", "library");
    assert "cafe" + "," + "library" == "cafe,library";
  }

  /** The state the list operations read and set. */
  datatype View = View(spots: seq<Spot>, allSpots: seq<Spot>, activeFilter: string)

  /** `searchStudySpots` once the response is in. `None` is a request that
      threw or came back with a non-2xx status; it, and a `null` body whose
      fields cannot be read, leave the lists as they were (the error only
      raises an alert). Otherwise both lists become the extracted results,
      unfiltered, whatever filter is active. */
  function Search(v: View, reply: Option<ResponseBody>): (w: View)
    ensures w.activeFilter == v.activeFilter
    ensures reply.None? || reply.value.JNull? ==> w == v
    ensures reply.Some? && !reply.value.JNull? ==>
      w.spots == w.allSpots && Some(w.allSpots) == ExtractResults(reply.value)
  {
    if reply.None? then v
    else
      var results := ExtractResults(reply.value);
      if results.None? then v else View(results.value, results.value, v.activeFilter)
  }

  /** `filterSpots(filterId)`: the filter becomes active and the shown list
      is taken from `allSpots`, never from the list shown before: all of it
      for `all`, the order-preserving sub-list passing the category's test
      for `cafe` and `library` (a spot without `types` never passes), and
      nothing for any other id. Every passing spot is kept as often as it
      occurs. */
  function FilterSpots(v: View, filterId: string): (w: View)
    ensures w.activeFilter == filterId && w.allSpots == v.allSpots
    ensures filterId == "all" ==> w.spots == v.allSpots
    ensures filterId == "cafe" ==> forall x :: x in w.spots <==> x in v.allSpots && IsCafe(x)
    ensures filterId == "library" ==> forall x :: x in w.spots <==> x in v.allSpots && IsLibrary(x)
    ensures filterId == "cafe" ==>
      forall x :: multiset(w.spots)[x] == if IsCafe(x) then multiset(v.allSpots)[x] else 0
    ensures filterId == "library" ==>
      forall x :: multiset(w.spots)[x] == if IsLibrary(x) then multiset(v.allSpots)[x] else 0
    ensures filterId != "all" ==> forall x :: x in w.spots ==> x.types.Some?
    ensures filterId != "all" && filterId != "cafe" && filterId != "library" ==> w.spots == []
    ensures IsSubsequence(w.spots, v.allSpots)
    ensures |w.spots| <= |v.allSpots|
    ensures forall x :: x in w.spots ==> x in v.allSpots
  {
    CategoryWithinAllSpots(filterId, v.allSpots);
    View(Category(filterId, v.allSpots), v.allSpots, filterId)
  }

  /** What a filter shows does not depend on the filters chosen before. */
  lemma FilterForgetsEarlierFilters(v: View, f: string, g: string)
    ensures FilterSpots(FilterSpots(v, f), g) == FilterSpots(v, g)
  {
  }
}
