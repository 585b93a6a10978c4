/** The `/api/search` handler of server.js: choose the categories, call the
    nearby-search provider once per category one after another, merge the
    `results`, drop repeated `place_id`s keeping the first, reshape each
    survivor, and wrap the list in `{status, count, results}`; any thrown
    error becomes a 500 reply. The provider is a parameter. */
module Server {
  import opened Optional
  import opened Seqs
  import opened Places

  /** The parts of `req.query` the handler reads; a parameter missing from
      the URL is `None`. */
  datatype Query = Query(lat: Option<string>, lng: Option<string>, types: Option<string>)

  datatype Body =
    | SearchBody(status: string, count: int, results: seq<FormattedPlace>)
    | ErrorBody(error: string)

  datatype HttpReply = HttpReply(statusCode: int, body: Body)

  const DefaultTypes: seq<string> := ["cafe", "library"]
  const SearchRadius: int := 3000
  const CafeKeyword: string := "wifi study"
  const FailureMessage: string := "Failed to fetch study spots"

  // ---------------------------------------------------------------------
  // Choosing the categories (`types ? types.split(',') : [...]`)
  // ---------------------------------------------------------------------

  /** `xs.join(',')`. */
  function Join(xs: seq<string>): string
  {
    if |xs| == 0 then ""
    else if |xs| == 1 then xs[0]
    else xs[0] + "," + Join(xs[1..])
  }

  lemma JoinCons(x: string, xs: seq<string>)
    requires |xs| >= 1
    ensures Join([x] + xs) == x + "," + Join(xs)
  {
    assert ([x] + xs)[1..] == xs;
  }

  /** `s.split(',')`: the comma-free pieces between the commas, so that
      joining them again gives `s` back. Splitting the empty string gives
      one empty piece. */
  function Split(s: string): (r: seq<string>)
    ensures |r| >= 1
    ensures forall k :: 0 <= k < |r| ==> ',' !in r[k]
    ensures Join(r) == s
  {
    if s == [] then [""]
    else
      var rest := Split(s[1..]);
      if s[0] == ',' then
        JoinCons("", rest);
        [""] + rest
      else
        var r := [[s[0]] + rest[0]] + rest[1..];
        assert Join(r) == s by {
          if |rest| == 1 {
            assert r == [[s[0]] + rest[0]];
          } else {
            JoinCons([s[0]] + rest[0], rest[1..]);
            JoinCons(rest[0], rest[1..]);
            assert rest == [rest[0]] + rest[1..];
          }
          assert s == [s[0]] + s[1..];
        }
        r
  }

  lemma {:induction false} SplitCommaFree(a: string)
    requires ',' !in a
    ensures Split(a) == [a]
  {
    if a != [] {
      SplitCommaFree(a[1..]);
      assert [a[0]] + a[1..] == a;
    }
  }

  lemma {:induction false} SplitAfterPiece(a: string, b: string)
    requires ',' !in a
    ensures Split(a + "," + b) == [a] + Split(b)
  {
    if a == [] {
      assert a + "," + b == [','] + b;
      assert (a + "," + b)[1..] == b;
    } else {
      assert (a + "," + b)[0] == a[0];
      assert (a + "," + b)[1..] == a[1..] + "," + b;
      SplitAfterPiece(a[1..], b);
      assert [a[0]] + a[1..] == a;
    }
  }

  /** Splitting undoes joining comma-free pieces. */
  lemma {:induction false} SplitJoin(xs: seq<string>)
    requires |xs| >= 1
    requires forall k :: 0 <= k < |xs| ==> ',' !in xs[k]
    ensures Split(Join(xs)) == xs
  {
    if |xs| == 1 {
      SplitCommaFree(xs[0]);
    } else {
      SplitJoin(xs[1..]);
      SplitAfterPiece(xs[0], Join(xs[1..]));
      assert xs == [xs[0]] + xs[1..];
    }
  }

  /** The categories searched: the default pair when `types` is missing or
      empty, otherwise the comma-separated pieces of `types`, in order. */
  function SearchTypes(types: Option<string>): (r: seq<string>)
    ensures types == None || types == Some("") ==> r == DefaultTypes
    ensures types.Some? && types.value != "" ==>
      |r| >= 1 && Join(r) == types.value && forall k :: 0 <= k < |r| ==> ',' !in r[k]
  {
    if types.Some? && types.value != "" then Split(types.value) else DefaultTypes
  }

  // ---------------------------------------------------------------------
  // The provider calls
  // ---------------------------------------------------------------------

  /** How a template literal prints a query parameter that may be missing. */
  function Text(v: Option<string>): string
  {
    if v.Some? then v.value else "undefined"
  }

  function RequestFor(q: Query, placeType: string, key: Option<string>): ProviderRequest
  {
    ProviderRequest(
      Text(q.lat) + "," + Text(q.lng),
      SearchRadius,
      placeType,
      if placeType == "cafe" then CafeKeyword else "",
      key)
  }

  /** The calls for `searchTypes`, one per category, in order. */
  function Requests(q: Query, searchTypes: seq<string>, key: Option<string>): seq<ProviderRequest>
  {
    seq(|searchTypes|, j requires 0 <= j < |searchTypes| => RequestFor(q, searchTypes[j], key))
  }

  /** Each call asks for one category, in the order searched, within 3000
      metres of the query's point; only `cafe` carries the keyword. */
  lemma RequestsFollowTypes(q: Query, searchTypes: seq<string>, key: Option<string>)
    ensures |Requests(q, searchTypes, key)| == |searchTypes|
    ensures forall j :: 0 <= j < |searchTypes| ==>
      var r := Requests(q, searchTypes, key)[j];
      && r.placeType == searchTypes[j]
      && r.radius == 3000
      && r.location == Text(q.lat) + "," + Text(q.lng)
      && r.key == key
      && (searchTypes[j] == "cafe" ==> r.keyword == "wifi study")
      && (searchTypes[j] != "cafe" ==> r.keyword == "")
  {
  }

  function Outcomes(reqs: seq<ProviderRequest>, provider: ProviderRequest -> CallOutcome): seq<CallOutcome>
  {
    seq(|reqs|, j requires 0 <= j < |reqs| => provider(reqs[j]))
  }

  /** What one returned call adds to `allResults`. */
  function Contribution(o: CallOutcome): seq<Place>
  {
    if o.Returned? && o.results.Some? then o.results.value else []
  }

  /** The calls' results laid end to end, in call order. */
  function Merged(outs: seq<CallOutcome>): seq<Place>
  {
    if outs == [] then [] else Contribution(outs[0]) + Merged(outs[1..])
  }

  predicate AllReturned(outs: seq<CallOutcome>)
  {
    forall j :: 0 <= j < |outs| ==> outs[j].Returned?
  }

  /** The merged list, or `None` when some call threw. */
  function Gather(outs: seq<CallOutcome>): Option<seq<Place>>
  {
    if AllReturned(outs) then Some(Merged(outs)) else None
  }

  /** Merging distributes over splitting the calls: every place of an
      earlier call precedes every place of a later one. */
  lemma {:induction false} MergedConcat(a: seq<CallOutcome>, b: seq<CallOutcome>)
    ensures Merged(a + b) == Merged(a) + Merged(b)
  {
    if a == [] {
      assert a + b == b;
    } else {
      assert (a + b)[0] == a[0];
      assert (a + b)[1..] == a[1..] + b;
      MergedConcat(a[1..], b);
    }
  }

  lemma MergedSnoc(outs: seq<CallOutcome>, i: int)
    requires 0 <= i < |outs|
    ensures Merged(outs[..i + 1]) == Merged(outs[..i]) + Contribution(outs[i])
  {
    assert outs[..i + 1] == outs[..i] + [outs[i]];
    MergedConcat(outs[..i], [outs[i]]);
  }

  /** A place is in the merged list exactly when some call returned it. */
  lemma {:induction false} MergedMembers(outs: seq<CallOutcome>)
    ensures forall x :: x in Merged(outs) <==>
      exists j :: 0 <= j < |outs| && x in Contribution(outs[j])
  {
    if outs != [] {
      MergedMembers(outs[1..]);
      forall x | x in Merged(outs)
        ensures exists j :: 0 <= j < |outs| && x in Contribution(outs[j])
      {
        if x !in Contribution(outs[0]) {
          assert x in Merged(outs[1..]);
          var j :| 0 <= j < |outs[1..]| && x in Contribution(outs[1..][j]);
          assert x in Contribution(outs[j + 1]);
        }
      }
      forall x, j | 0 <= j < |outs| && x in Contribution(outs[j])
        ensures x in Merged(outs)
      {
        if j > 0 {
          assert x in Contribution(outs[1..][j - 1]);
        }
      }
    }
  }

  /** A call whose body has no `results`, like one with an empty array,
      adds nothing: a search where every call returned nothing merges to
      the empty list. */
  lemma {:induction false} MergedEmpty(outs: seq<CallOutcome>)
    requires forall j :: 0 <= j < |outs| ==> Contribution(outs[j]) == []
    ensures Merged(outs) == []
  {
    if outs != [] {
      assert Contribution(outs[0]) == [];
      MergedEmpty(outs[1..]);
    }
  }

  /** The `for (const type of searchTypes)` loop, given the calls its
      categories make (`Requests`): one awaited call per category, in
      order, appending each returned `results`. The first call that throws
      leaves the loop; no later call is made. `issued` is the calls made,
      in order. */
  method CollectResults(reqs: seq<ProviderRequest>,
                        provider: ProviderRequest -> CallOutcome)
    returns (all: Option<seq<Place>>, issued: seq<ProviderRequest>)
    ensures all == Gather(Outcomes(reqs, provider))
    ensures |issued| <= |reqs|
    ensures issued == reqs[..|issued|]
    ensures all.Some? ==> |issued| == |reqs|
    ensures all.None? ==> |issued| > 0 && provider(issued[|issued| - 1]).Threw?
    ensures forall j :: 0 <= j < |issued| - 1 ==> provider(issued[j]).Returned?
  {
    ghost var outs := Outcomes(reqs, provider);
    var allResults: seq<Place> := [];
    issued := [];
    var i := 0;
    while i < |reqs|
      invariant 0 <= i <= |reqs|
      invariant issued == reqs[..i]
      invariant forall j :: 0 <= j < i ==> outs[j].Returned?
      invariant allResults == Merged(outs[..i])
    {
      var request := reqs[i];
      var response := provider(request);
      assert response == outs[i];
      issued := reqs[..i + 1];
      if response.Threw? {
        assert !AllReturned(outs);
        assert forall j :: 0 <= j < i ==> provider(issued[j]) == outs[j];
        all := None;
        return;
      }
      MergedSnoc(outs, i);
      if response.results.Some? {
        allResults := allResults + response.results.value;
      }
      i := i + 1;
    }
    assert outs[..i] == outs;
    assert forall j :: 0 <= j < i ==> provider(issued[j]) == outs[j];
    all := Some(allResults);
  }

  // ---------------------------------------------------------------------
  // First-wins deduplication (`filter` + `findIndex`)
  // ---------------------------------------------------------------------

  /** `s.findIndex(p => p.place_id === id)`: the first index holding `id`,
      or -1. A missing id equals a missing id, as `undefined === undefined`. */
  function FindIndex(s: seq<Place>, id: Option<string>): (r: int)
    ensures -1 <= r < |s|
    ensures r >= 0 ==> s[r].placeId == id
    ensures forall j :: 0 <= j < |s| && (r < 0 || j < r) ==> s[j].placeId != id
  {
    if s == [] then -1
    else if s[0].placeId == id then 0
    else
      var k := FindIndex(s[1..], id);
      if k < 0 then -1 else k + 1
  }

  /** The elements `s[j]`, `j >= i`, that `index === self.findIndex(...)`
      keeps. */
  function DedupFrom(s: seq<Place>, i: nat): seq<Place>
    requires i <= |s|
    decreases |s| - i
  {
    if i == |s| then []
    else (if FindIndex(s, s[i].placeId) == i then [s[i]] else []) + DedupFrom(s, i + 1)
  }

  lemma {:induction false} DedupFromSubsequence(s: seq<Place>, i: nat)
    requires i <= |s|
    ensures IsSubsequence(DedupFrom(s, i), s[i..])
    decreases |s| - i
  {
    if i < |s| {
      DedupFromSubsequence(s, i + 1);
      var rest := DedupFrom(s, i + 1);
      assert s[i..] == [s[i]] + s[i + 1..];
      if FindIndex(s, s[i].placeId) == i {
        SubsequenceKeep(s[i], rest, s[i + 1..]);
        assert DedupFrom(s, i) == [s[i]] + rest;
      } else {
        SubsequenceSkip(s[i], rest, s[i + 1..]);
        assert DedupFrom(s, i) == rest;
      }
    }
  }

  /** Every element kept from position `i` on is the first occurrence of
      its id, and that first occurrence lies at or after `i`. */
  lemma {:induction false} DedupFromFirsts(s: seq<Place>, i: nat)
    requires i <= |s|
    ensures forall x :: x in DedupFrom(s, i) ==>
      i <= FindIndex(s, x.placeId) && s[FindIndex(s, x.placeId)] == x
    decreases |s| - i
  {
    if i < |s| {
      DedupFromFirsts(s, i + 1);
    }
  }

  /** `r` lists its places in the order of their ids' first occurrences in `s`. */
  predicate InFirstOccurrenceOrder(s: seq<Place>, r: seq<Place>)
  {
    forall a, b :: 0 <= a < b < |r| ==> FindIndex(s, r[a].placeId) < FindIndex(s, r[b].placeId)
  }

  lemma PrependEarlier(s: seq<Place>, x: Place, rest: seq<Place>)
    requires forall y :: y in rest ==> FindIndex(s, x.placeId) < FindIndex(s, y.placeId)
    requires InFirstOccurrenceOrder(s, rest)
    ensures InFirstOccurrenceOrder(s, [x] + rest)
  {
    var r := [x] + rest;
    forall a, b | 0 <= a < b < |r|
      ensures FindIndex(s, r[a].placeId) < FindIndex(s, r[b].placeId)
    {
      assert r[b] == rest[b - 1] && rest[b - 1] in rest;
      if a > 0 {
        assert r[a] == rest[a - 1];
      }
    }
  }

  /** The kept places come in the order of their ids' first occurrences. */
  lemma {:induction false} DedupFromOrdered(s: seq<Place>, i: nat)
    requires i <= |s|
    ensures InFirstOccurrenceOrder(s, DedupFrom(s, i))
    decreases |s| - i
  {
    if i < |s| {
      DedupFromOrdered(s, i + 1);
      DedupFromFirsts(s, i + 1);
      var rest := DedupFrom(s, i + 1);
      if FindIndex(s, s[i].placeId) == i {
        assert forall y :: y in rest ==> i < FindIndex(s, y.placeId);
        PrependEarlier(s, s[i], rest);
        assert DedupFrom(s, i) == [s[i]] + rest;
      } else {
        assert DedupFrom(s, i) == rest;
      }
    }
  }

  /** Places that come in the order of distinct first occurrences have
      distinct ids. */
  lemma DedupFromDistinctIds(s: seq<Place>, i: nat)
    requires i <= |s|
    ensures forall a, b :: 0 <= a < b < |DedupFrom(s, i)| ==>
      DedupFrom(s, i)[a].placeId != DedupFrom(s, i)[b].placeId
  {
    DedupFromOrdered(s, i);
  }

  lemma {:induction false} DedupFromCovers(s: seq<Place>, i: nat)
    requires i <= |s|
    ensures forall j :: i <= j < |s| && i <= FindIndex(s, s[j].placeId) ==>
      s[FindIndex(s, s[j].placeId)] in DedupFrom(s, i)
    decreases |s| - i
  {
    if i < |s| {
      DedupFromCovers(s, i + 1);
      forall j | i <= j < |s| && i <= FindIndex(s, s[j].placeId)
        ensures s[FindIndex(s, s[j].placeId)] in DedupFrom(s, i)
      {
        var f := FindIndex(s, s[j].placeId);
        if f == i {
          assert FindIndex(s, s[i].placeId) == i;
        } else {
          assert f <= j;
        }
      }
    }
  }

  /** `allResults.filter((place, index, self) => index === self.findIndex(...))`:
      an order-preserving sub-list of `s` with pairwise distinct ids, in
      which every id of `s` appears once, as its first occurrence. */
  function Dedup(s: seq<Place>): (r: seq<Place>)
    ensures IsSubsequence(r, s)
    ensures forall a, b :: 0 <= a < b < |r| ==> r[a].placeId != r[b].placeId
    ensures forall k :: 0 <= k < |r| ==>
      0 <= FindIndex(s, r[k].placeId) && s[FindIndex(s, r[k].placeId)] == r[k]
    ensures forall j :: 0 <= j < |s| ==>
      0 <= FindIndex(s, s[j].placeId) && s[FindIndex(s, s[j].placeId)] in r
    ensures forall a, b :: 0 <= a < b < |r| ==>
      FindIndex(s, r[a].placeId) < FindIndex(s, r[b].placeId)
  {
    DedupFromSubsequence(s, 0);
    DedupFromOrdered(s, 0);
    DedupFromFirsts(s, 0);
    DedupFromDistinctIds(s, 0);
    DedupFromCovers(s, 0);
    assert s[0..] == s;
    DedupFrom(s, 0)
  }

  predicate DistinctIds(s: seq<Place>)
  {
    forall a, b :: 0 <= a < b < |s| ==> s[a].placeId != s[b].placeId
  }

  lemma {:induction false} DedupFromDistinct(s: seq<Place>, i: nat)
    requires i <= |s|
    requires DistinctIds(s)
    ensures DedupFrom(s, i) == s[i..]
    decreases |s| - i
  {
    if i < |s| {
      DedupFromDistinct(s, i + 1);
      FindIndexOfDistinct(s, i);
      assert s[i..] == [s[i]] + s[i + 1..];
    }
  }

  lemma FindIndexOfDistinct(s: seq<Place>, i: nat)
    requires i < |s|
    requires DistinctIds(s)
    ensures FindIndex(s, s[i].placeId) == i
  {
    var f := FindIndex(s, s[i].placeId);
    assert 0 <= f <= i && s[f].placeId == s[i].placeId;
  }

  /** A list whose ids are already distinct is left as it is. */
  lemma DedupOfDistinct(s: seq<Place>)
    requires DistinctIds(s)
    ensures Dedup(s) == s
  {
    DedupFromDistinct(s, 0);
  }

  /** Deduplicating twice gives the same list as deduplicating once. */
  lemma DedupIdempotent(s: seq<Place>)
    ensures Dedup(Dedup(s)) == Dedup(s)
  {
    DedupOfDistinct(Dedup(s));
  }

  // ---------------------------------------------------------------------
  // Formatting (`uniqueResults.map(place => ({...}))`)
  // ---------------------------------------------------------------------

  /** The response record for one place; `None` is the TypeError thrown by
      `place.geometry.location.lat` when `geometry` or its `location` is
      missing. */
  function Format(p: Place): (r: Option<FormattedPlace>)
    ensures r.Some? <==> HasLocation(p)
    ensures r.Some? ==>
      && r.value.id == p.placeId
      && r.value.name == p.name
      && r.value.vicinity == p.vicinity
      && r.value.location == p.geometry.value.location.value
      && r.value.priceLevel == p.priceLevel
      && r.value.types == p.types
    ensures r.Some? ==> p.rating.Some? ==> r.value.rating == p.rating.value
    ensures r.Some? ==> p.rating.None? ==> r.value.rating == 0
    ensures r.Some? ==> p.userRatingsTotal.Some? ==> r.value.userRatingsTotal == p.userRatingsTotal.value
    ensures r.Some? ==> p.userRatingsTotal.None? ==> r.value.userRatingsTotal == 0
    ensures r.Some? ==> p.openingHours.None? ==> r.value.openNow.None?
    ensures r.Some? ==> p.openingHours.Some? ==> r.value.openNow == p.openingHours.value.openNow
  {
    if !HasLocation(p) then None
    else
      Some(FormattedPlace(
        p.placeId,
        p.name,
        Or(p.rating, 0),
        Or(p.userRatingsTotal, 0),
        p.vicinity,
        p.geometry.value.location.value,
        p.priceLevel,
        if p.openingHours.Some? then p.openingHours.value.openNow else None,
        p.types))
  }

  /** Formatting the whole list: one record per place, in order, or `None`
      when any place throws. */
  function FormatAll(ps: seq<Place>): (r: Option<seq<FormattedPlace>>)
    ensures r.Some? <==> forall k :: 0 <= k < |ps| ==> HasLocation(ps[k])
    ensures r.Some? ==> |r.value| == |ps|
    ensures r.Some? ==> forall k :: 0 <= k < |ps| ==> Format(ps[k]) == Some(r.value[k])
  {
    if ps == [] then Some([])
    else
      var head := Format(ps[0]);
      var tail := FormatAll(ps[1..]);
      if head.None? || tail.None? then
        assert forall k :: 0 <= k < |ps| - 1 ==> ps[1..][k] == ps[k + 1];
        None
      else
        Some([head.value] + tail.value)
  }

  // ---------------------------------------------------------------------
  // The reply
  // ---------------------------------------------------------------------

  /** The reply sent for a merged list (`None`: a provider call threw). A
      200 reply holds `status: 'success'`, a count equal to the number of
      results, and results with pairwise distinct ids, one per place of the
      deduplicated list; any throw gives a 500 with a fixed message and no
      results. */
  function Respond(merged: Option<seq<Place>>): (reply: HttpReply)
    ensures reply.statusCode == 200 || reply.statusCode == 500
    ensures reply.statusCode == 500 <==> merged.None? || FormatAll(Dedup(merged.value)).None?
    ensures reply.statusCode == 500 ==> reply.body == ErrorBody(FailureMessage)
    ensures reply.statusCode == 200 ==>
      && reply.body.SearchBody?
      && reply.body.status == "success"
      && reply.body.count == |reply.body.results|
      && FormatAll(Dedup(merged.value)) == Some(reply.body.results)
    ensures reply.statusCode == 200 ==>
      forall a, b :: 0 <= a < b < |reply.body.results| ==>
        reply.body.results[a].id != reply.body.results[b].id
  {
    if merged.None? then HttpReply(500, ErrorBody(FailureMessage))
    else
      var d := Dedup(merged.value);
      var results := FormatAll(d);
      if results.None? then HttpReply(500, ErrorBody(FailureMessage))
      else
        FormattedIdsDistinct(d, results.value);
        HttpReply(200, SearchBody("success", |results.value|, results.value))
  }

  /** Formatting keeps ids, so distinct place ids give distinct record ids. */
  lemma FormattedIdsDistinct(d: seq<Place>, rs: seq<FormattedPlace>)
    requires FormatAll(d) == Some(rs)
    requires forall a, b :: 0 <= a < b < |d| ==> d[a].placeId != d[b].placeId
    ensures forall a, b :: 0 <= a < b < |rs| ==> rs[a].id != rs[b].id
  {
    assert forall k :: 0 <= k < |rs| ==> rs[k].id == d[k].placeId;
  }

  /** The handler body: choose the categories, make the calls, reply. */
  method HandleSearch(q: Query, key: Option<string>, provider: ProviderRequest -> CallOutcome)
    returns (reply: HttpReply, issued: seq<ProviderRequest>)
    ensures reply == Respond(Gather(Outcomes(Requests(q, SearchTypes(q.types), key), provider)))
    ensures |issued| <= |SearchTypes(q.types)|
    ensures issued == Requests(q, SearchTypes(q.types), key)[..|issued|]
    ensures reply.statusCode == 200 ==> |issued| == |SearchTypes(q.types)|
    ensures Gather(Outcomes(Requests(q, SearchTypes(q.types), key), provider)).Some? ==>
      |issued| == |SearchTypes(q.types)|
    ensures Gather(Outcomes(Requests(q, SearchTypes(q.types), key), provider)).None? ==>
      |issued| > 0 && provider(issued[|issued| - 1]).Threw?
    ensures forall j :: 0 <= j < |issued| - 1 ==> provider(issued[j]).Returned?
  {
    var searchTypes := SearchTypes(q.types);
    var all;
    all, issued := CollectResults(Requests(q, searchTypes, key), provider);
    reply := Respond(all);
  }

  // ---------------------------------------------------------------------
  // Properties of the whole reply
  // ---------------------------------------------------------------------

  /** One call that throws makes the whole reply a 500 without results. */
  lemma ThrowFailsSearch(outs: seq<CallOutcome>, j: int)
    requires 0 <= j < |outs| && outs[j].Threw?
    ensures Respond(Gather(outs)) == HttpReply(500, ErrorBody(FailureMessage))
  {
  }

  /** No place found is still a success, with count 0. */
  lemma EmptySearchSucceeds(outs: seq<CallOutcome>)
    requires forall j :: 0 <= j < |outs| ==>
      outs[j] == Returned(None) || outs[j] == Returned(Some([]))
    ensures Respond(Gather(outs)) == HttpReply(200, SearchBody("success", 0, []))
  {
    MergedEmpty(outs);
  }

  /** A missing `geometry.location` fails the search only on the first
      occurrence of an id: later duplicates are dropped before formatting. */
  lemma SuccessIffFirstOccurrencesLocated(m: seq<Place>)
    ensures Respond(Some(m)).statusCode == 200 <==>
      forall j :: 0 <= j < |m| ==> HasLocation(m[FindIndex(m, m[j].placeId)])
  {
    var d := Dedup(m);
    assert Respond(Some(m)).statusCode == 200 <==> forall k :: 0 <= k < |d| ==> HasLocation(d[k]);
    if forall j :: 0 <= j < |m| ==> HasLocation(m[FindIndex(m, m[j].placeId)]) {
      forall k | 0 <= k < |d| ensures HasLocation(d[k]) {
        var j := FindIndex(m, d[k].placeId);
        assert m[j] == d[k];
      }
    } else {
      var j :| 0 <= j < |m| && !HasLocation(m[FindIndex(m, m[j].placeId)]);
      var k :| 0 <= k < |d| && d[k] == m[FindIndex(m, m[j].placeId)];
      assert !HasLocation(d[k]);
    }
  }

  /** Every id of the merged list ends up in exactly one record of a 200
      reply: the record formatted from its first occurrence. */
  lemma FirstOccurrenceWins(m: seq<Place>, j: int)
    requires 0 <= j < |m|
    requires Respond(Some(m)).statusCode == 200
    ensures var rs := Respond(Some(m)).body.results;
      exists k :: 0 <= k < |rs| && rs[k].id == m[j].placeId &&
        Format(m[FindIndex(m, m[j].placeId)]) == Some(rs[k]) &&
        forall k' :: 0 <= k' < |rs| && rs[k'].id == m[j].placeId ==> k' == k
  {
    var d := Dedup(m);
    var rs := Respond(Some(m)).body.results;
    var f := FindIndex(m, m[j].placeId);
    var k :| 0 <= k < |d| && d[k] == m[f];
    assert Format(d[k]) == Some(rs[k]);
  }
}
