/** The list operations of app.js: `sortSpots` copies the list and sorts
    the copy in place with a stable sort, and `filterSpots` and
    `handleSortChange` select a category and sort it. React state is passed
    in and the new list given back; nothing is redrawn. */
module App {
  import opened Optional
  import opened Seqs
  import opened Spots

  /** The two orders `sortSpots` knows. */
  datatype SortField = ByRating | ByPrice

  /** The number the comparator subtracts: `(b.rating || 0) - (a.rating || 0)`
      orders by the negated rating, `(a.price_level || 2) - (b.price_level || 2)`
      by the price key. */
  function SortKey(order: SortField, s: Spot): int
  {
    match order
    case ByRating => -RatingOf(s)
    case ByPrice => PriceKeyOf(s)
  }

  predicate SortedBy(t: seq<Spot>, order: SortField)
  {
    forall i, j :: 0 <= i < j < |t| ==> SortKey(order, t[i]) <= SortKey(order, t[j])
  }

  /** The spots of `s` whose key is `k`, in order: a sort is stable when it
      leaves every such list as it was. */
  function WithKey(s: seq<Spot>, order: SortField, k: int): seq<Spot>
  {
    Filter(s, x => SortKey(order, x) == k)
  }

  // ---------------------------------------------------------------------
  // The stable sort, as a function
  // ---------------------------------------------------------------------

  /** `x` placed after every element of `t`, from the back, whose key is
      greater than its own. */
  function Insert(t: seq<Spot>, x: Spot, order: SortField): seq<Spot>
    decreases |t|
  {
    if t == [] || SortKey(order, t[|t| - 1]) <= SortKey(order, x) then t + [x]
    else Insert(t[..|t| - 1], x, order) + [t[|t| - 1]]
  }

  /** The stable sort of `s` by key. */
  function SortBy(s: seq<Spot>, order: SortField): seq<Spot>
  {
    if s == [] then [] else Insert(SortBy(s[..|s| - 1], order), s[|s| - 1], order)
  }

  lemma {:induction false} InsertPermutation(t: seq<Spot>, x: Spot, order: SortField)
    ensures multiset(Insert(t, x, order)) == multiset(t) + multiset{x}
    decreases |t|
  {
    if !(t == [] || SortKey(order, t[|t| - 1]) <= SortKey(order, x)) {
      var init, last := t[..|t| - 1], t[|t| - 1];
      InsertPermutation(init, x, order);
      assert t == init + [last];
    }
  }

  /** Sorting rearranges the spots: none is added, lost or duplicated. */
  lemma {:induction false} SortByPermutation(s: seq<Spot>, order: SortField)
    ensures multiset(SortBy(s, order)) == multiset(s)
  {
    if s != [] {
      var init, last := s[..|s| - 1], s[|s| - 1];
      SortByPermutation(init, order);
      InsertPermutation(SortBy(init, order), last, order);
      assert s == init + [last];
    }
  }

  lemma {:induction false} InsertSorted(t: seq<Spot>, x: Spot, order: SortField)
    requires SortedBy(t, order)
    ensures SortedBy(Insert(t, x, order), order)
    decreases |t|
  {
    if !(t == [] || SortKey(order, t[|t| - 1]) <= SortKey(order, x)) {
      var init, last := t[..|t| - 1], t[|t| - 1];
      InsertSorted(init, x, order);
      InsertPermutation(init, x, order);
      var u := Insert(init, x, order);
      forall k | 0 <= k < |u| ensures SortKey(order, u[k]) <= SortKey(order, last) {
        assert u[k] in multiset(u);
        assert u[k] in multiset(init) || u[k] == x;
        if u[k] != x {
          var m :| 0 <= m < |init| && init[m] == u[k];
          assert t[m] == u[k];
        }
      }
    }
  }

  /** The sort's result is ordered by key. */
  lemma {:induction false} SortBySorted(s: seq<Spot>, order: SortField)
    ensures SortedBy(SortBy(s, order), order)
  {
    if s != [] {
      SortBySorted(s[..|s| - 1], order);
      InsertSorted(SortBy(s[..|s| - 1], order), s[|s| - 1], order);
    }
  }

  lemma WithKeySingle(x: Spot, order: SortField, k: int)
    ensures WithKey([x], order, k) == if SortKey(order, x) == k then [x] else []
  {
    assert [x][1..] == [];
  }

  lemma WithKeyConcat(a: seq<Spot>, b: seq<Spot>, order: SortField, k: int)
    ensures WithKey(a + b, order, k) == WithKey(a, order, k) + WithKey(b, order, k)
  {
    FilterConcat(a, b, x => SortKey(order, x) == k);
  }

  lemma {:induction false} InsertStable(t: seq<Spot>, x: Spot, order: SortField, k: int)
    ensures WithKey(Insert(t, x, order), order, k) == WithKey(t, order, k) + WithKey([x], order, k)
    decreases |t|
  {
    if t == [] || SortKey(order, t[|t| - 1]) <= SortKey(order, x) {
      WithKeyConcat(t, [x], order, k);
    } else {
      var init, last := t[..|t| - 1], t[|t| - 1];
      InsertStable(init, x, order, k);
      WithKeyConcat(Insert(init, x, order), [last], order, k);
      WithKeyConcat(init, [last], order, k);
      assert t == init + [last];
      WithKeySingle(x, order, k);
      WithKeySingle(last, order, k);
    }
  }

  /** The sort is stable: spots with equal keys keep their relative order. */
  lemma {:induction false} SortByStable(s: seq<Spot>, order: SortField, k: int)
    ensures WithKey(SortBy(s, order), order, k) == WithKey(s, order, k)
  {
    if s != [] {
      var init, last := s[..|s| - 1], s[|s| - 1];
      SortByStable(init, order, k);
      InsertStable(SortBy(init, order), last, order, k);
      WithKeyConcat(init, [last], order, k);
      assert s == init + [last];
    }
  }

  lemma WithKeyHasIndex(v: seq<Spot>, order: SortField, i: int)
    requires 0 <= i < |v|
    ensures WithKey(v, order, SortKey(order, v[i])) != []
  {
    FilterMembers(v, x => SortKey(order, x) == SortKey(order, v[i]));
    assert v[i] in v;
  }

  lemma WithKeyMember(v: seq<Spot>, order: SortField, k: int)
    requires WithKey(v, order, k) != []
    ensures exists i :: 0 <= i < |v| && SortKey(order, v[i]) == k
  {
    var y := WithKey(v, order, k)[0];
    FilterMembers(v, x => SortKey(order, x) == k);
    assert y in WithKey(v, order, k);
    var i :| 0 <= i < |v| && v[i] == y;
  }

  /** Key-ordered lists holding the same keys end on the same key. */
  lemma LastKeysAgree(u: seq<Spot>, v: seq<Spot>, order: SortField)
    requires u != [] && v != [] && SortedBy(u, order) && SortedBy(v, order)
    requires forall k :: WithKey(u, order, k) == WithKey(v, order, k)
    ensures SortKey(order, u[|u| - 1]) == SortKey(order, v[|v| - 1])
  {
    WithKeyHasIndex(u, order, |u| - 1);
    WithKeyHasIndex(v, order, |v| - 1);
    WithKeyMember(v, order, SortKey(order, u[|u| - 1]));
    WithKeyMember(u, order, SortKey(order, v[|v| - 1]));
  }

  /** Dropping the same last spot from two lists keeps them key-wise equal. */
  lemma WithKeyDropLast(u: seq<Spot>, v: seq<Spot>, x: Spot, order: SortField)
    requires forall k :: WithKey(u + [x], order, k) == WithKey(v + [x], order, k)
    ensures forall k :: WithKey(u, order, k) == WithKey(v, order, k)
  {
    forall k ensures WithKey(u, order, k) == WithKey(v, order, k) {
      WithKeyConcat(u, [x], order, k);
      WithKeyConcat(v, [x], order, k);
      WithKeySingle(x, order, k);
      var w := WithKey(u + [x], order, k);
      if SortKey(order, x) == k {
        assert WithKey(u, order, k) == w[..|w| - 1];
        assert WithKey(v, order, k) == w[..|w| - 1];
      } else {
        assert WithKey(u, order, k) + [] == WithKey(u, order, k);
        assert WithKey(v, order, k) + [] == WithKey(v, order, k);
      }
    }
  }

  /** Two key-ordered lists that hold the same spots of every key in the
      same order are one list. */
  lemma {:induction false} SortedUnique(u: seq<Spot>, v: seq<Spot>, order: SortField)
    requires SortedBy(u, order) && SortedBy(v, order)
    requires forall k :: WithKey(u, order, k) == WithKey(v, order, k)
    ensures u == v
    decreases |u| + |v|
  {
    if u == [] && v != [] {
      WithKeyHasIndex(v, order, |v| - 1);
      assert false;
    } else if u != [] && v == [] {
      WithKeyHasIndex(u, order, |u| - 1);
      assert false;
    } else if u != [] {
      var u', lu := u[..|u| - 1], u[|u| - 1];
      var v', lv := v[..|v| - 1], v[|v| - 1];
      assert u == u' + [lu] && v == v' + [lv];
      LastKeysAgree(u, v, order);
      var ku := SortKey(order, lu);
      WithKeyConcat(u', [lu], order, ku);
      WithKeyConcat(v', [lv], order, ku);
      WithKeySingle(lu, order, ku);
      WithKeySingle(lv, order, ku);
      assert lu == lv by {
        var w := WithKey(u, order, ku);
        assert w[|w| - 1] == lu;
        assert WithKey(v, order, ku)[|w| - 1] == lv;
      }
      WithKeyDropLast(u', v', lu, order);
      assert SortedBy(u', order) && SortedBy(v', order);
      SortedUnique(u', v', order);
    }
  }

  /** Any stable sort gives the same list as `SortBy`: a key-ordered list
      that keeps the relative order of equal keys is `SortBy(s)`. So the
      engine's own stable sort algorithm does not matter. */
  lemma StableSortIsUnique(s: seq<Spot>, t: seq<Spot>, order: SortField)
    requires SortedBy(t, order)
    requires forall k :: WithKey(t, order, k) == WithKey(s, order, k)
    ensures t == SortBy(s, order)
  {
    SortBySorted(s, order);
    forall k ensures WithKey(t, order, k) == WithKey(SortBy(s, order), order, k) {
      SortByStable(s, order, k);
    }
    SortedUnique(t, SortBy(s, order), order);
  }

  // ---------------------------------------------------------------------
  // What `sortSpots` returns
  // ---------------------------------------------------------------------

  /** The list `sortSpots(spotsToSort, sortType)` returns, as a value: the
      input for a falsy sort type, its stable sort for `rating` or `price`,
      and an equal copy for any other sort type. */
  function Ordered(s: seq<Spot>, sortType: Option<string>): seq<Spot>
  {
    if sortType == Some("rating") then SortBy(s, ByRating)
    else if sortType == Some("price") then SortBy(s, ByPrice)
    else s
  }

  /** By rating: a permutation with ratings non-increasing (missing counts
      as 0), equal ratings in their original order. */
  lemma OrderedByRating(s: seq<Spot>)
    ensures var r := Ordered(s, Some("rating"));
      && multiset(r) == multiset(s)
      && (forall i, j :: 0 <= i < j < |r| ==> RatingOf(r[i]) >= RatingOf(r[j]))
      && (forall k :: WithKey(r, ByRating, k) == WithKey(s, ByRating, k))
  {
    SortByPermutation(s, ByRating);
    SortBySorted(s, ByRating);
    forall k ensures WithKey(SortBy(s, ByRating), ByRating, k) == WithKey(s, ByRating, k) {
      SortByStable(s, ByRating, k);
    }
  }

  /** By price: a permutation with price keys non-decreasing (missing or 0
      counts as 2), equal keys in their original order. */
  lemma OrderedByPrice(s: seq<Spot>)
    ensures var r := Ordered(s, Some("price"));
      && multiset(r) == multiset(s)
      && (forall i, j :: 0 <= i < j < |r| ==> PriceKeyOf(r[i]) <= PriceKeyOf(r[j]))
      && (forall k :: WithKey(r, ByPrice, k) == WithKey(s, ByPrice, k))
  {
    SortByPermutation(s, ByPrice);
    SortBySorted(s, ByPrice);
    forall k ensures WithKey(SortBy(s, ByPrice), ByPrice, k) == WithKey(s, ByPrice, k) {
      SortByStable(s, ByPrice, k);
    }
  }

  /** Any other sort type leaves the order as it is. */
  lemma OrderedOtherwise(s: seq<Spot>, sortType: Option<string>)
    requires sortType != Some("rating") && sortType != Some("price")
    ensures Ordered(s, sortType) == s
  {
  }

  // ---------------------------------------------------------------------
  // The methods
  // ---------------------------------------------------------------------

  /** Insertion puts `x` right after the last element whose key is not
      above its own, when every element from there on has a larger key. */
  lemma {:induction false} InsertPosition(t: seq<Spot>, x: Spot, order: SortField, j: int)
    requires 0 <= j <= |t|
    requires j == 0 || SortKey(order, t[j - 1]) <= SortKey(order, x)
    requires forall m :: j <= m < |t| ==> SortKey(order, t[m]) > SortKey(order, x)
    ensures Insert(t, x, order) == t[..j] + [x] + t[j..]
  {
    if j < |t| {
      var init := t[..|t| - 1];
      InsertPosition(init, x, order, j);
      assert init[..j] == t[..j];
      assert t[j..] == init[j..] + [t[|t| - 1]];
    } else {
      assert t[..j] == t && t[j..] == [];
    }
  }

  /** Moves `a[j..i]` one place up, to `a[j + 1..i + 1]`. */
  method ShiftUp(a: array<Spot>, j: int, i: int)
    requires 0 <= j <= i < a.Length
    modifies a
    ensures forall m :: 0 <= m < j ==> a[m] == old(a[m])
    ensures forall m :: j < m <= i ==> a[m] == old(a[m - 1])
    ensures forall m :: i < m < a.Length ==> a[m] == old(a[m])
  {
    var k := i;
    while k > j
      invariant j <= k <= i
      invariant forall m :: 0 <= m <= k ==> a[m] == old(a[m])
      invariant forall m :: k < m <= i ==> a[m] == old(a[m - 1])
      invariant forall m :: i < m < a.Length ==> a[m] == old(a[m])
    {
      a[k] := a[k - 1];
      k := k - 1;
    }
  }

  /** One step of insertion sort: `a[i]` moved back past the larger keys
      of the sorted prefix `a[..i]`. */
  method InsertAt(a: array<Spot>, i: int, order: SortField)
    requires 0 <= i < a.Length
    modifies a
    ensures a[..i + 1] == Insert(old(a[..i]), old(a[i]), order)
    ensures a[i + 1..] == old(a[i + 1..])
  {
    var x := a[i];
    ghost var sorted := a[..i];
    // scan back for the place of `x`
    var j := i;
    while j > 0 && SortKey(order, a[j - 1]) > SortKey(order, x)
      modifies {}
      invariant 0 <= j <= i
      invariant forall m :: j <= m < i ==> SortKey(order, sorted[m]) > SortKey(order, x)
    {
      j := j - 1;
    }
    InsertPosition(sorted, x, order, j);
    assert forall m :: 0 <= m < i ==> a[m] == sorted[m];
    ShiftUp(a, j, i);
    a[j] := x;
    ghost var inserted := sorted[..j] + [x] + sorted[j..];
    forall m | 0 <= m <= i ensures a[m] == inserted[m] {
      if m < j {
        assert inserted[m] == sorted[m];
      } else if m == j {
        assert inserted[m] == x;
      } else {
        assert inserted[m] == sorted[m - 1];
      }
    }
    assert a[..i + 1] == inserted;
    assert forall m :: i < m < a.Length ==> a[m] == old(a[m]);
    assert a[i + 1..] == old(a[i + 1..]);
  }

  /** `sorted.sort(compare)`: a stable in-place sort, here insertion
      sort, which gives the same list as any stable sort would. */
  method InsertionSort(a: array<Spot>, order: SortField)
    modifies a
    ensures a[..] == SortBy(old(a[..]), order)
  {
    ghost var orig := a[..];
    var i := 0;
    while i < a.Length
      invariant 0 <= i <= a.Length
      invariant a[..i] == SortBy(orig[..i], order)
      invariant a[i..] == orig[i..]
    {
      ghost var before := a[..i];
      assert a[i] == a[i..][0] == orig[i];
      assert a[i + 1..] == a[i..][1..] == orig[i..][1..] == orig[i + 1..];
      InsertAt(a, i, order);
      assert SortBy(orig[..i + 1], order) == Insert(before, orig[i], order) by {
        assert orig[..i + 1][..i] == orig[..i] && orig[..i + 1][i] == orig[i];
      }
      i := i + 1;
    }
    assert orig[..a.Length] == orig;
  }

  /** `sortSpots`: a falsy sort type returns the very same array; any other
      sorts a fresh copy, so the input array is never reordered. */
  method SortSpots(spots: array<Spot>, sortType: Option<string>) returns (sorted: array<Spot>)
    ensures sortType == None || sortType == Some("") ==> sorted == spots
    ensures sortType != None && sortType != Some("") ==> sorted != spots
    ensures sorted[..] == Ordered(spots[..], sortType)
  {
    if sortType == None || sortType == Some("") {
      return spots;
    }
    var copy := spots[..];
    sorted := new Spot[|copy|](i requires 0 <= i < |copy| => copy[i]);
    assert sorted[..] == copy;
    if sortType == Some("rating") {
      InsertionSort(sorted, ByRating);
    } else if sortType == Some("price") {
      InsertionSort(sorted, ByPrice);
    }
  }

  /** The spots of a category as a fresh array, or `allSpots` itself for
      `all` (the filter branch that `filterSpots` and `handleSortChange`
      both hold). */
  method SelectCategory(allSpots: array<Spot>, filterId: string) returns (filtered: array<Spot>)
    ensures filtered[..] == Category(filterId, allSpots[..])
    ensures filterId == "all" <==> filtered == allSpots
  {
    if filterId == "all" {
      filtered := allSpots;
    } else {
      var c := Category(filterId, allSpots[..]);
      filtered := new Spot[|c|](i requires 0 <= i < |c| => c[i]);
      assert filtered[..] == c;
    }
  }

  /** `filterSpots(filterId)` under the current `sortBy`: the category's
      spots in the current order. */
  method FilterSpots(allSpots: array<Spot>, filterId: string, sortBy: Option<string>)
    returns (shown: array<Spot>)
    ensures shown[..] == Ordered(Category(filterId, allSpots[..]), sortBy)
    ensures filterId == "all" && (sortBy == None || sortBy == Some("")) ==> shown == allSpots
  {
    var filtered := SelectCategory(allSpots, filterId);
    shown := SortSpots(filtered, sortBy);
  }

  /** `handleSortChange(newSortBy)` under the current `activeFilter`. */
  method HandleSortChange(allSpots: array<Spot>, activeFilter: string, newSortBy: Option<string>)
    returns (shown: array<Spot>)
    ensures shown[..] == Ordered(Category(activeFilter, allSpots[..]), newSortBy)
    ensures activeFilter == "all" && (newSortBy == None || newSortBy == Some("")) ==> shown == allSpots
  {
    var currentSpots := SelectCategory(allSpots, activeFilter);
    shown := SortSpots(currentSpots, newSortBy);
  }

  /** Changing the sort shows what re-choosing the active filter would show
      once `sortBy` holds the new sort. */
  method SortChangeAgreesWithFilter(allSpots: array<Spot>, activeFilter: string, newSortBy: Option<string>)
    returns (afterSortChange: array<Spot>, afterRefilter: array<Spot>)
    ensures afterSortChange[..] == afterRefilter[..]
    ensures |afterSortChange[..]| <= allSpots.Length
  {
    afterSortChange := HandleSortChange(allSpots, activeFilter, newSortBy);
    afterRefilter := FilterSpots(allSpots, activeFilter, newSortBy);
    var c := Category(activeFilter, allSpots[..]);
    if newSortBy == Some("rating") {
      SortByPermutation(c, ByRating);
      assert |afterSortChange[..]| == |multiset(c)|;
    } else if newSortBy == Some("price") {
      SortByPermutation(c, ByPrice);
      assert |afterSortChange[..]| == |multiset(c)|;
    }
  }

  /** The `types` query value `searchStudySpots` always sends, whatever
      filter is active: both categories are fetched once and filtered on
      the client. */
  const SearchTypesParam: string := "cafe,library"
}
