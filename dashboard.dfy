/** The moderation dashboard's computations over the reviews the API returns:
    the option lists of the filter selects, the filter chain and the sort that
    produce the visible list, the local effect of the approve button, and the
    per-property statistics. */
module Dashboard {
  import opened Wrappers
  import opened Seqs
  import opened Hostaway

  /** The value of the property, category and channel selects that switches the filter off. */
  const All: string := "All"

  // ---------------------------------------------------------------------------
  // Option lists of the selects

  function PropertyColumn(rs: seq<Review>): (ps: seq<string>)
    ensures |ps| == |rs| && forall i :: 0 <= i < |rs| ==> ps[i] == rs[i].property
  {
    seq(|rs|, i requires 0 <= i < |rs| => rs[i].property)
  }

  function ChannelColumn(rs: seq<Review>): (cs: seq<string>)
    ensures |cs| == |rs| && forall i :: 0 <= i < |rs| ==> cs[i] == rs[i].channel
  {
    seq(|rs|, i requires 0 <= i < |rs| => rs[i].channel)
  }

  function CategoryNames(cats: seq<Category>): (ns: seq<string>)
    ensures |ns| == |cats| && forall j :: 0 <= j < |cats| ==> ns[j] == cats[j].category
  {
    seq(|cats|, j requires 0 <= j < |cats| => cats[j].category)
  }

  /** `reviews.flatMap((r) => r.categories.map((c) => c.category))`. */
  function CategoryColumn(rs: seq<Review>): (cs: seq<string>)
    ensures forall c :: c in cs <==>
      exists i, j :: 0 <= i < |rs| && 0 <= j < |rs[i].categories| && rs[i].categories[j].category == c
  {
    if rs == [] then []
    else
      var rest := CategoryColumn(rs[1..]);
      assert forall c :: c in rest ==> exists i, j :: 0 <= i < |rs| && 0 <= j < |rs[i].categories| && rs[i].categories[j].category == c by {
        forall c | c in rest ensures exists i, j :: 0 <= i < |rs| && 0 <= j < |rs[i].categories| && rs[i].categories[j].category == c {
          var i, j :| 0 <= i < |rs[1..]| && 0 <= j < |rs[1..][i].categories| && rs[1..][i].categories[j].category == c;
          assert rs[i + 1].categories[j].category == c;
        }
      }
      assert forall c :: (exists i, j :: 0 <= i < |rs| && 0 <= j < |rs[i].categories| && rs[i].categories[j].category == c) ==> c in CategoryNames(rs[0].categories) + rest by {
        forall c | exists i, j :: 0 <= i < |rs| && 0 <= j < |rs[i].categories| && rs[i].categories[j].category == c
          ensures c in CategoryNames(rs[0].categories) + rest
        {
          var i, j :| 0 <= i < |rs| && 0 <= j < |rs[i].categories| && rs[i].categories[j].category == c;
          if i == 0 {
            assert CategoryNames(rs[0].categories)[j] == c;
          } else {
            assert rs[1..][i - 1].categories[j].category == c;
          }
        }
      }
      CategoryNames(rs[0].categories) + rest
  }

  /** `Array.from(new Set(reviews.map((r) => r.property)))`. */
  function Properties(rs: seq<Review>): (ps: seq<string>)
    ensures NoDuplicates(ps)
    ensures forall p :: p in ps <==> exists i :: 0 <= i < |rs| && rs[i].property == p
  {
    var column := PropertyColumn(rs);
    assert forall p :: p in column <==> exists i :: 0 <= i < |rs| && rs[i].property == p by {
      forall p | p in column ensures exists i :: 0 <= i < |rs| && rs[i].property == p {
        var i :| 0 <= i < |column| && column[i] == p;
      }
    }
    Distinct(column)
  }

  /** The category select's options. */
  function Categories(rs: seq<Review>): (cs: seq<string>)
    ensures NoDuplicates(cs)
    ensures forall c :: c in cs <==>
      exists i, j :: 0 <= i < |rs| && 0 <= j < |rs[i].categories| && rs[i].categories[j].category == c
  {
    Distinct(CategoryColumn(rs))
  }

  /** The channel select's options. */
  function Channels(rs: seq<Review>): (cs: seq<string>)
    ensures NoDuplicates(cs)
    ensures forall c :: c in cs <==> exists i :: 0 <= i < |rs| && rs[i].channel == c
  {
    var column := ChannelColumn(rs);
    assert forall c :: c in column <==> exists i :: 0 <= i < |rs| && rs[i].channel == c by {
      forall c | c in column ensures exists i :: 0 <= i < |rs| && rs[i].channel == c {
        var i :| 0 <= i < |column| && column[i] == c;
      }
    }
    Distinct(column)
  }

  /** Each option list is in the order in which its values first occur. */
  lemma OptionsFirstSeen(rs: seq<Review>)
    ensures forall i, j :: 0 <= i < j < |Properties(rs)| ==>
      FirstIndex(PropertyColumn(rs), Properties(rs)[i]) < FirstIndex(PropertyColumn(rs), Properties(rs)[j])
    ensures forall i, j :: 0 <= i < j < |Categories(rs)| ==>
      FirstIndex(CategoryColumn(rs), Categories(rs)[i]) < FirstIndex(CategoryColumn(rs), Categories(rs)[j])
    ensures forall i, j :: 0 <= i < j < |Channels(rs)| ==>
      FirstIndex(ChannelColumn(rs), Channels(rs)[i]) < FirstIndex(ChannelColumn(rs), Channels(rs)[j])
  {
    DistinctFirstSeen(PropertyColumn(rs));
    DistinctFirstSeen(CategoryColumn(rs));
    DistinctFirstSeen(ChannelColumn(rs));
  }

  /** A normalised Hostaway batch offers exactly one channel, "Hostaway", when it is not empty. */
  lemma HostawayChannelsOnly(raws: seq<RawReview>)
    requires Normalize(raws).Some? && |raws| > 0
    ensures Channels(Normalize(raws).value) == [HostawayChannel]
  {
    var rs := Normalize(raws).value;
    forall i | 0 <= i < |rs| ensures rs[i].channel == HostawayChannel {
      assert NormalizeRecord(raws[i]) == Some(rs[i]);
    }
    DistinctOfConstant(ChannelColumn(rs), HostawayChannel);
  }

  // ---------------------------------------------------------------------------
  // Filtering

  /** The state of the four selects; `minRating == None` is "All Ratings". */
  datatype Filters = Filters(property: string, minRating: Option<int>, category: string, channel: string)

  /** One switched-on filter. */
  datatype Criterion =
    | ByProperty(property: string)
    | MinRating(threshold: int)
    | ByCategory(category: string)
    | ByChannel(channel: string)

  /** The test each `filter` call applies. The rating test `r.rating && r.rating >= t`
      treats a missing rating and a rating of 0 alike as false. */
  predicate Matches(r: Review, c: Criterion) {
    match c
    case ByProperty(p) => r.property == p
    case MinRating(t) => r.rating.Some? && r.rating.value != 0 && r.rating.value >= t
    case ByCategory(name) => exists j :: 0 <= j < |r.categories| && r.categories[j].category == name
    case ByChannel(ch) => r.channel == ch
  }

  function Test(c: Criterion): Review -> bool {
    r => Matches(r, c)
  }

  /** The filter of select `n` (0 property, 1 rating, 2 category, 3 channel, the order in
      which the code applies them), or `None` when that select is on "All". */
  function Selected(f: Filters, n: nat): Option<Criterion> {
    if n == 0 then (if f.property != All then Some(ByProperty(f.property)) else None)
    else if n == 1 then (if f.minRating.Some? then Some(MinRating(f.minRating.value)) else None)
    else if n == 2 then (if f.category != All then Some(ByCategory(f.category)) else None)
    else if n == 3 then (if f.channel != All then Some(ByChannel(f.channel)) else None)
    else None
  }

  /** `r` gets past select `n`: the select is off, or `r` matches its filter. */
  predicate PassesSelect(r: Review, f: Filters, n: nat) {
    Selected(f, n).None? || Matches(r, Selected(f, n).value)
  }

  /** A review is shown when it passes every switched-on filter. */
  predicate Passes(r: Review, f: Filters) {
    forall n :: 0 <= n < 4 ==> PassesSelect(r, f, n)
  }

  function Passing(f: Filters): Review -> bool {
    r => Passes(r, f)
  }

  /** Passing the first `n` selects. */
  function PassingFirst(f: Filters, n: nat): Review -> bool {
    r => forall m :: 0 <= m < n ==> PassesSelect(r, f, m)
  }

  /** What passing means, select by select: "All" (or no rating) accepts every review. */
  lemma PassesMeaning(r: Review, f: Filters)
    ensures Passes(r, f) <==>
      && (f.property == All || r.property == f.property)
      && (f.minRating.None? || (r.rating.Some? && r.rating.value != 0 && r.rating.value >= f.minRating.value))
      && (f.category == All || exists j :: 0 <= j < |r.categories| && r.categories[j].category == f.category)
      && (f.channel == All || r.channel == f.channel)
  {
    assert PassesSelect(r, f, 0) && PassesSelect(r, f, 1) && PassesSelect(r, f, 2) && PassesSelect(r, f, 3)
      ==> Passes(r, f);
  }

  /** One `if (...) filtered = filtered.filter(...)` of the chain: filter by select `n`
      when it is on, keep the list as it is otherwise. */
  function Narrowed(s: seq<Review>, f: Filters, n: nat): seq<Review> {
    if Selected(f, n).Some? then Select(s, Test(Selected(f, n).value)) else s
  }

  /** Step `n` of the chain narrows the reviews that passed the first `n` selects to those
      that pass the first `n + 1`. */
  lemma Narrow(reviews: seq<Review>, f: Filters, n: nat)
    ensures Narrowed(Select(reviews, PassingFirst(f, n)), f, n) == Select(reviews, PassingFirst(f, n + 1))
  {
    if Selected(f, n).Some? {
      var c := Selected(f, n).value;
      forall r ensures PassingFirst(f, n + 1)(r) == (PassingFirst(f, n)(r) && Test(c)(r)) {
        assert PassingFirst(f, n + 1)(r) ==> PassesSelect(r, f, n);
      }
      SelectSelect(reviews, PassingFirst(f, n), Test(c), PassingFirst(f, n + 1));
    } else {
      forall r ensures PassingFirst(f, n)(r) == PassingFirst(f, n + 1)(r) {
        assert PassesSelect(r, f, n);
      }
      SelectPointwise(reviews, PassingFirst(f, n), PassingFirst(f, n + 1));
    }
  }

  /** The four steps in the code's order keep exactly the reviews that pass every select. */
  lemma FilterChain(reviews: seq<Review>, f: Filters)
    ensures Narrowed(Narrowed(Narrowed(Narrowed(reviews, f, 0), f, 1), f, 2), f, 3) == Select(reviews, Passing(f))
  {
    SelectAll(reviews, PassingFirst(f, 0));
    var s1 := Narrowed(reviews, f, 0);
    Narrow(reviews, f, 0);
    assert s1 == Select(reviews, PassingFirst(f, 1));
    var s2 := Narrowed(s1, f, 1);
    Narrow(reviews, f, 1);
    assert s2 == Select(reviews, PassingFirst(f, 2));
    var s3 := Narrowed(s2, f, 2);
    Narrow(reviews, f, 2);
    assert s3 == Select(reviews, PassingFirst(f, 3));
    Narrow(reviews, f, 3);
    SelectPointwise(reviews, PassingFirst(f, 4), Passing(f));
  }

  /** The filter chain at index.tsx:56-60: `filtered` is narrowed once per switched-on select. */
  method ApplyFilters(reviews: seq<Review>, f: Filters) returns (filtered: seq<Review>)
    ensures filtered == Select(reviews, Passing(f))
  {
    filtered := reviews;
    ghost var s0 := filtered;
    if f.property != All {
      filtered := Select(filtered, Test(ByProperty(f.property)));
    }
    ghost var s1 := filtered;
    assert s1 == Narrowed(s0, f, 0);
    if f.minRating.Some? {
      filtered := Select(filtered, Test(MinRating(f.minRating.value)));
    }
    ghost var s2 := filtered;
    assert s2 == Narrowed(s1, f, 1);
    if f.category != All {
      filtered := Select(filtered, Test(ByCategory(f.category)));
    }
    ghost var s3 := filtered;
    assert s3 == Narrowed(s2, f, 2);
    if f.channel != All {
      filtered := Select(filtered, Test(ByChannel(f.channel)));
    }
    assert filtered == Narrowed(s3, f, 3);
    FilterChain(reviews, f);
  }

  /** Any two filters give the same list in either order. */
  lemma FiltersCommute(s: seq<Review>, c1: Criterion, c2: Criterion)
    ensures Select(Select(s, Test(c1)), Test(c2)) == Select(Select(s, Test(c2)), Test(c1))
  {
    SelectCommute(s, Test(c1), Test(c2));
  }

  /** With every select on "All" nothing is filtered out. */
  lemma NoFilterKeepsAll(reviews: seq<Review>, f: Filters)
    requires f.property == All && f.minRating.None? && f.category == All && f.channel == All
    ensures Select(reviews, Passing(f)) == reviews
  {
    forall r ensures Passes(r, f) {
      PassesMeaning(r, f);
    }
    SelectAll(reviews, Passing(f));
  }

  /** A review rated 0 never passes a rating filter, whatever its threshold. */
  lemma ZeroRatingNeverPasses(r: Review, t: int)
    requires r.rating == Some(0)
    ensures !Matches(r, MinRating(t))
  {
  }

  // ---------------------------------------------------------------------------
  // Sorting

  datatype SortOrder = RatingDesc | RatingAsc | DateAsc | DateDesc

  /** The sort select's value; any value other than the three named ones sorts newest first. */
  function OrderOf(option: string): SortOrder {
    if option == "rating_desc" then RatingDesc
    else if option == "rating_asc" then RatingAsc
    else if option == "date_asc" then DateAsc
    else DateDesc
  }

  /** `r.rating ?? 0`: the value a missing rating is compared and summed as. */
  function RatingOrZero(r: Review): int {
    r.rating.GetOr(0)
  }

  /** The comparator handed to `filtered.sort` (negative: `a` goes first). */
  function Compare(a: Review, b: Review, option: string): int {
    if option == "rating_desc" then RatingOrZero(b) - RatingOrZero(a)
    else if option == "rating_asc" then RatingOrZero(a) - RatingOrZero(b)
    else if option == "date_asc" then a.date - b.date
    else b.date - a.date
  }

  /** The number each order sorts ascending by. */
  function SortKey(r: Review, order: SortOrder): int {
    match order
    case RatingDesc => -RatingOrZero(r)
    case RatingAsc => RatingOrZero(r)
    case DateAsc => r.date
    case DateDesc => -r.date
  }

  /** Every comparator is a difference of keys, so it is a consistent total preorder. */
  lemma CompareIsKeyDifference(a: Review, b: Review, option: string)
    ensures Compare(a, b, option) == SortKey(a, OrderOf(option)) - SortKey(b, OrderOf(option))
  {
  }

  predicate SortedBy(s: seq<Review>, order: SortOrder) {
    forall i, j :: 0 <= i < j < |s| ==> SortKey(s[i], order) <= SortKey(s[j], order)
  }

  function HasKey(order: SortOrder, k: int): Review -> bool {
    r => SortKey(r, order) == k
  }

  /** The reviews of `s` whose key is `k`, in their order in `s`. */
  function WithKey(s: seq<Review>, order: SortOrder, k: int): seq<Review> {
    Select(s, HasKey(order, k))
  }

  /** What a sorted list looks like for each option of the select. */
  lemma SortedMeaning(s: seq<Review>, option: string)
    requires SortedBy(s, OrderOf(option))
    ensures forall i, j :: 0 <= i < j < |s| ==> Compare(s[i], s[j], option) <= 0
    ensures option == "rating_desc" ==> forall i, j :: 0 <= i < j < |s| ==> RatingOrZero(s[i]) >= RatingOrZero(s[j])
    ensures option == "rating_asc" ==> forall i, j :: 0 <= i < j < |s| ==> RatingOrZero(s[i]) <= RatingOrZero(s[j])
    ensures option == "date_asc" ==> forall i, j :: 0 <= i < j < |s| ==> s[i].date <= s[j].date
    ensures option !in {"rating_desc", "rating_asc", "date_asc"} ==>
      forall i, j :: 0 <= i < j < |s| ==> s[i].date >= s[j].date
  {
    forall i, j | 0 <= i < j < |s| ensures Compare(s[i], s[j], option) <= 0 {
      CompareIsKeyDifference(s[i], s[j], option);
    }
  }

  /** `s` with the neighbours at `j - 1` and `j` exchanged. */
  function Swapped(s: seq<Review>, j: nat): (t: seq<Review>)
    requires 0 < j < |s|
    ensures |t| == |s| && t[j - 1] == s[j] && t[j] == s[j - 1]
    ensures forall p :: 0 <= p < |s| && p != j - 1 && p != j ==> t[p] == s[p]
  {
    s[..j - 1] + [s[j], s[j - 1]] + s[j + 1..]
  }

  /** `t` keeps every run of equal keys of `s`: same members, same relative order. */
  ghost predicate SameKeyRuns(t: seq<Review>, s: seq<Review>, order: SortOrder) {
    forall k :: WithKey(t, order, k) == WithKey(s, order, k)
  }

  /** Exchanging two neighbours with different keys leaves every run of equal keys as it was. */
  lemma SwapKeepsKeyRuns(s: seq<Review>, j: nat, order: SortOrder)
    requires 0 < j < |s| && SortKey(s[j - 1], order) != SortKey(s[j], order)
    ensures SameKeyRuns(Swapped(s, j), s, order)
  {
    var front, x, y, back := s[..j - 1], s[j - 1], s[j], s[j + 1..];
    assert s == front + [x, y] + back;
    forall k ensures WithKey(front + [y, x] + back, order, k) == WithKey(front + [x, y] + back, order, k) {
      SwapTwo(front, x, y, back, HasKey(order, k));
    }
  }

  lemma KeyRunsTransitive(u: seq<Review>, t: seq<Review>, s: seq<Review>, order: SortOrder)
    requires SameKeyRuns(u, t, order) && SameKeyRuns(t, s, order)
    ensures SameKeyRuns(u, s, order)
  {
    forall k ensures WithKey(u, order, k) == WithKey(s, order, k) {
      assert WithKey(u, order, k) == WithKey(t, order, k);
    }
  }

  /** Keeping every run of equal keys keeps every review, as often as it occurred. */
  lemma KeyRunsPermutation(t: seq<Review>, s: seq<Review>, order: SortOrder)
    requires SameKeyRuns(t, s, order)
    ensures multiset(t) == multiset(s)
  {
    forall x ensures multiset(t)[x] == multiset(s)[x] {
      var k := SortKey(x, order);
      assert WithKey(t, order, k) == WithKey(s, order, k);
      SelectCount(t, HasKey(order, k), x);
      SelectCount(s, HasKey(order, k), x);
    }
  }

  lemma SwapTwo(front: seq<Review>, x: Review, y: Review, back: seq<Review>, p: Review -> bool)
    requires !(p(x) && p(y))
    ensures Select(front + [y, x] + back, p) == Select(front + [x, y] + back, p)
  {
    SelectConcat(front + [x, y], back, p);
    SelectConcat(front, [x, y], p);
    SelectConcat(front + [y, x], back, p);
    SelectConcat(front, [y, x], p);
    assert Select([x, y], p) == Select([y, x], p) by {
      SelectConcat([x], [y], p);
      SelectConcat([y], [x], p);
      assert [x, y] == [x] + [y] && [y, x] == [y] + [x];
    }
  }

  /** The first `n` elements are in key order. */
  ghost predicate SortedUpTo(s: seq<Review>, n: nat, order: SortOrder)
    requires n <= |s|
  {
    SortedBy(s[..n], order)
  }

  /** While `s[i]` moves down to its place: apart from position `j`, the first `i + 1`
      elements are in key order, and everything after `j` has a larger key than `s[j]`. */
  ghost predicate Inserting(s: seq<Review>, j: nat, i: nat, order: SortOrder)
    requires j <= i < |s|
  {
    && (forall p, q :: 0 <= p < q <= i && p != j && q != j ==> SortKey(s[p], order) <= SortKey(s[q], order))
    && (forall q :: j < q <= i ==> SortKey(s[j], order) < SortKey(s[q], order))
  }

  lemma InsertStart(s: seq<Review>, i: nat, order: SortOrder)
    requires i < |s| && SortedUpTo(s, i, order)
    ensures Inserting(s, i, i, order)
  {
    forall p, q | 0 <= p < q <= i && p != i && q != i
      ensures SortKey(s[p], order) <= SortKey(s[q], order)
    {
      assert s[..i][p] == s[p] && s[..i][q] == s[q];
    }
  }

  lemma InsertStep(s: seq<Review>, j: nat, i: nat, order: SortOrder)
    requires 0 < j <= i < |s| && Inserting(s, j, i, order)
    requires SortKey(s[j - 1], order) > SortKey(s[j], order)
    ensures Inserting(Swapped(s, j), j - 1, i, order)
  {
  }

  lemma InsertDone(s: seq<Review>, j: nat, i: nat, order: SortOrder)
    requires j <= i < |s| && Inserting(s, j, i, order)
    requires j == 0 || SortKey(s[j - 1], order) <= SortKey(s[j], order)
    ensures SortedUpTo(s, i + 1, order)
  {
  }

  method SwapNeighbours(a: array<Review>, j: nat)
    requires 0 < j < a.Length
    modifies a
    ensures a[..] == Swapped(old(a[..]), j)
  {
    a[j - 1], a[j] := a[j], a[j - 1];
  }

  /** `filtered.sort(cmp)`: a stable sort in place, here by insertion through neighbour exchanges. */
  method SortInPlace(a: array<Review>, order: SortOrder)
    modifies a
    ensures SortedBy(a[..], order)
    ensures SameKeyRuns(a[..], old(a[..]), order)
  {
    var i := 0;
    while i < a.Length
      invariant 0 <= i <= a.Length
      invariant SortedUpTo(a[..], i, order)
      invariant SameKeyRuns(a[..], old(a[..]), order)
    {
      var j := i;
      InsertStart(a[..], i, order);
      while j > 0 && SortKey(a[j - 1], order) > SortKey(a[j], order)
        invariant 0 <= j <= i
        invariant Inserting(a[..], j, i, order)
        invariant SameKeyRuns(a[..], old(a[..]), order)
      {
        ghost var before := a[..];
        SwapKeepsKeyRuns(before, j, order);
        InsertStep(before, j, i, order);
        SwapNeighbours(a, j);
        KeyRunsTransitive(a[..], before, old(a[..]), order);
        j := j - 1;
      }
      InsertDone(a[..], j, i, order);
      i := i + 1;
    }
    assert a[..][..a.Length] == a[..];
  }

  /** The effect at index.tsx:55-71: the filter chain, then the sort chosen by `option`.
      The result is a reordering of the filtered reviews, sorted by the option's key,
      in which reviews with equal keys keep their relative order. */
  method Query(reviews: seq<Review>, f: Filters, option: string) returns (view: seq<Review>)
    ensures multiset(view) == multiset(Select(reviews, Passing(f)))
    ensures SortedBy(view, OrderOf(option))
    ensures SameKeyRuns(view, Select(reviews, Passing(f)), OrderOf(option))
  {
    var filtered := ApplyFilters(reviews, f);
    var a := new Review[|filtered|](i requires 0 <= i < |filtered| => filtered[i]);
    assert a[..] == filtered;
    SortInPlace(a, OrderOf(option));
    view := a[..];
    KeyRunsPermutation(view, filtered, OrderOf(option));
  }

  // ---------------------------------------------------------------------------
  // The approve button

  /** `reviews.map((r) => (r.id === id ? { ...r, approved: !approved } : r))`, where
      `approved` is the flag the button showed. */
  function ToggleApprove(reviews: seq<Review>, id: int, approved: bool): (r: seq<Review>)
    ensures |r| == |reviews|
    ensures forall i :: 0 <= i < |r| ==> r[i].id == reviews[i].id
  {
    seq(|reviews|, i requires 0 <= i < |reviews| =>
      if reviews[i].id == id then reviews[i].(approved := !approved) else reviews[i])
  }

  /** Every review with the id now carries `!approved`; every other review is unchanged. */
  lemma ToggleApproveEffect(reviews: seq<Review>, id: int, approved: bool, i: nat)
    requires i < |reviews|
    ensures reviews[i].id == id ==> ToggleApprove(reviews, id, approved)[i] == reviews[i].(approved := !approved)
    ensures reviews[i].id != id ==> ToggleApprove(reviews, id, approved)[i] == reviews[i]
  {
  }

  /** Pressing the button twice (the second time it shows the new flag) restores the list. */
  lemma ToggleTwiceRestores(reviews: seq<Review>, id: int, approved: bool)
    requires forall i :: 0 <= i < |reviews| && reviews[i].id == id ==> reviews[i].approved == approved
    ensures ToggleApprove(ToggleApprove(reviews, id, approved), id, !approved) == reviews
  {
    var once := ToggleApprove(reviews, id, approved);
    var twice := ToggleApprove(once, id, !approved);
    forall i | 0 <= i < |reviews| ensures twice[i] == reviews[i] {
    }
  }

  /** With distinct ids, the local update is exactly what the next GET would return
      after the PATCH the button sends (`{id, approved: !approved}`). */
  lemma LocalToggleMatchesServer(raws: seq<RawReview>, id: int, approved: bool)
    requires Normalize(raws).Some? && UniqueIds(raws)
    ensures Normalize(SetApproved(raws, id, !approved)) == Some(ToggleApprove(Normalize(raws).value, id, approved))
  {
    var before := Normalize(raws).value;
    NormalizeAfterSet(raws, id, !approved);
    var after := Normalize(SetApproved(raws, id, !approved)).value;
    var local := ToggleApprove(before, id, approved);
    var k := IndexOf(raws, id);
    forall i | 0 <= i < |before| ensures after[i] == local[i] {
      NormalizeFields(raws, i);
      if k >= 0 && i != k {
        assert raws[i].id != id;
      }
    }
    assert after == local;
  }

  /** When two records share an id the two updates part: the dashboard flips every review
      with the id, while the PATCH changes only the first record with it. */
  lemma LocalToggleDivergesOnSharedId()
    ensures var first := RawReview(7, "Loft A", "Ann", Some(9), None, "", Some(0), "published", None);
      var second := first.(listingName := "Loft B");
      var raws := [first, second];
      Normalize(raws).Some?
      && Normalize(SetApproved(raws, 7, true)) != Some(ToggleApprove(Normalize(raws).value, 7, false))
  {
    var first := RawReview(7, "Loft A", "Ann", Some(9), None, "", Some(0), "published", None);
    var second := first.(listingName := "Loft B");
    var raws := [first, second];
    NormalizeAfterSet(raws, 7, true);
    var before := Normalize(raws).value;
    var after := Normalize(SetApproved(raws, 7, true)).value;
    assert IndexOf(raws, 7) == 0;
    assert NormalizeRecord(raws[1]) == Some(before[1]);
    assert !before[1].approved;
    assert after[1] == before[1];
    assert ToggleApprove(before, 7, false)[1].approved;
  }

  // ---------------------------------------------------------------------------
  // Per-property statistics

  datatype PropertyStat = PropertyStat(property: string, averageRating: real, approvedCount: nat)

  function OfProperty(p: string): Review -> bool {
    (r: Review) => r.property == p
  }

  /** The reviews of `p` that are approved. */
  function ApprovedOf(p: string): Review -> bool {
    (r: Review) => r.property == p && r.approved
  }

  function IsApproved(r: Review): bool {
    r.approved
  }

  /** `reduce((sum, r) => sum + (r.rating ?? 0), 0)`. */
  function RatingTotal(rs: seq<Review>): int {
    if rs == [] then 0 else RatingOrZero(rs[0]) + RatingTotal(rs[1..])
  }

  /** The sum over the length, the divisor `propReviews.length || 1`. */
  function Average(rs: seq<Review>): real {
    (RatingTotal(rs) as real) / ((if |rs| == 0 then 1 else |rs|) as real)
  }

  /** The entry of one property: its reviews' average and the number of them approved. */
  function StatOf(reviews: seq<Review>, p: string): (stat: PropertyStat)
    ensures stat.property == p
    ensures var group := Select(reviews, OfProperty(p));
      && (|group| > 0 ==> stat.averageRating == (RatingTotal(group) as real) / (|group| as real))
      && (|group| == 0 ==> stat.averageRating == 0.0)
    ensures stat.approvedCount == |Select(reviews, ApprovedOf(p))|
  {
    var propReviews := Select(reviews, OfProperty(p));
    var approved := Select(propReviews, IsApproved);
    SelectSelect(reviews, OfProperty(p), IsApproved, ApprovedOf(p));
    PropertyStat(p, Average(propReviews), |approved|)
  }

  /** A property that occurs has at least one review, so its divisor is never zero. */
  lemma GroupNonEmpty(reviews: seq<Review>, p: string)
    requires p in Properties(reviews)
    ensures |Select(reviews, OfProperty(p))| > 0
  {
    var w :| 0 <= w < |reviews| && reviews[w].property == p;
    assert reviews[w] in Select(reviews, OfProperty(p));
  }

  /** `propertyStats` (index.tsx:82-87): one entry per option of the property select, in
      that order; each average is the total of `rating ?? 0` over all the property's
      reviews divided by their number, which is never zero. */
  function PropertyStats(reviews: seq<Review>): (stats: seq<PropertyStat>)
    ensures |stats| == |Properties(reviews)|
    ensures forall i :: 0 <= i < |stats| ==> stats[i].property == Properties(reviews)[i]
    ensures forall i :: 0 <= i < |stats| ==>
      var group := Select(reviews, OfProperty(stats[i].property));
      && |group| > 0
      && stats[i].averageRating == (RatingTotal(group) as real) / (|group| as real)
      && stats[i].approvedCount == |Select(reviews, ApprovedOf(stats[i].property))|
  {
    var props := Properties(reviews);
    assert forall i :: 0 <= i < |props| ==> |Select(reviews, OfProperty(props[i]))| > 0 by {
      forall i | 0 <= i < |props| ensures |Select(reviews, OfProperty(props[i]))| > 0 {
        GroupNonEmpty(reviews, props[i]);
      }
    }
    seq(|props|, i requires 0 <= i < |props| => StatOf(reviews, props[i]))
  }

  /** A review without any rating still counts in its property's divisor: a rating of 9 and
      a missing one average to 4.5, not 9. */
  lemma MissingRatingCountsAsZero()
    ensures var rated := Review(1, "Loft A", "Ann", Some(9), [], HostawayChannel, "", 0, "published", true);
      var unrated := rated.(id := 2, rating := None);
      StatOf([rated, unrated], "Loft A").averageRating == 4.5
  {
    var rated := Review(1, "Loft A", "Ann", Some(9), [], HostawayChannel, "", 0, "published", true);
    var unrated := rated.(id := 2, rating := None);
    var group := [rated, unrated];
    SelectAll(group, OfProperty("Loft A"));
    assert RatingTotal(group) == 9 by {
      assert group[1..] == [unrated] && [unrated][1..] == [];
      assert RatingTotal([unrated]) == RatingOrZero(unrated) + RatingTotal([]) == 0;
      assert RatingOrZero(rated) == 9;
    }
  }

  lemma {:induction false} TotalBounds(rs: seq<Review>, lo: int, hi: int)
    requires forall r :: r in rs ==> lo <= RatingOrZero(r) <= hi
    ensures |rs| * lo <= RatingTotal(rs) <= |rs| * hi
  {
    if rs != [] {
      TotalBounds(rs[1..], lo, hi);
      assert |rs| * lo == |rs[1..]| * lo + lo && |rs| * hi == |rs[1..]| * hi + hi;
    }
  }

  lemma CastProduct(a: int, b: int)
    ensures (a * b) as real == (a as real) * (b as real)
  {
  }

  lemma RealQuotientBounds(t: real, n: real, lo: real, hi: real)
    requires n > 0.0 && n * lo <= t <= n * hi
    ensures lo <= t / n <= hi
  {
    assert (t / n) * n == t;
  }

  /** An average lies between the smallest and the largest `rating ?? 0` it averages. */
  lemma AverageBounds(rs: seq<Review>, lo: int, hi: int)
    requires |rs| > 0
    requires forall r :: r in rs ==> lo <= RatingOrZero(r) <= hi
    ensures lo as real <= Average(rs) <= hi as real
  {
    TotalBounds(rs, lo, hi);
    CastProduct(|rs|, lo);
    CastProduct(|rs|, hi);
    RealQuotientBounds(RatingTotal(rs) as real, |rs| as real, lo as real, hi as real);
  }
}
