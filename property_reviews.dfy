/** The public property page (components/PropertyReviews.tsx): of the reviews the API
    returns it shows only the approved ones of its own property, or an empty-state
    message when there are none. */
module PropertyReviews {
  import opened Seqs
  import opened Hostaway
  import opened Dashboard

  /** `(r) => r.property === propertyName && r.approved`. */
  function Shown(propertyName: string): Review -> bool {
    (r: Review) => r.property == propertyName && r.approved
  }

  /** The list the page keeps after its fetch: the approved reviews of `propertyName`,
      in the order the API returned them. */
  function ApprovedFor(reviews: seq<Review>, propertyName: string): (shown: seq<Review>)
    ensures |shown| <= |reviews|
    ensures forall r :: r in shown <==> r in reviews && r.property == propertyName && r.approved
  {
    Select(reviews, Shown(propertyName))
  }

  /** The page keeps the API's order and alters no review. */
  lemma ApprovedForIsSubseq(reviews: seq<Review>, propertyName: string)
    ensures IsSubseq(ApprovedFor(reviews, propertyName), reviews)
  {
    SelectIsSubseq(reviews, Shown(propertyName));
  }

  /** Filtering an already filtered list again changes nothing. */
  lemma ApprovedForIdempotent(reviews: seq<Review>, propertyName: string)
    ensures ApprovedFor(ApprovedFor(reviews, propertyName), propertyName) == ApprovedFor(reviews, propertyName)
  {
    SelectIdempotent(reviews, Shown(propertyName));
  }

  /** What the component renders: the "No approved reviews yet." message, or one card per review. */
  datatype Page = NoApprovedReviews | Cards(cards: seq<Review>)

  function Render(shown: seq<Review>): Page {
    if |shown| == 0 then NoApprovedReviews else Cards(shown)
  }

  /** The empty state appears exactly when no review of the property is approved. */
  lemma EmptyStateMeaning(reviews: seq<Review>, propertyName: string)
    ensures Render(ApprovedFor(reviews, propertyName)) == NoApprovedReviews <==>
      forall r :: r in reviews ==> !(r.property == propertyName && r.approved)
  {
    var shown := ApprovedFor(reviews, propertyName);
    if |shown| > 0 {
      assert shown[0] in shown;
    }
  }

  /** The dashboard's "approved" count of a property is the number of cards its page shows. */
  lemma ApprovedCountMatches(reviews: seq<Review>, propertyName: string)
    ensures StatOf(reviews, propertyName).approvedCount == |ApprovedFor(reviews, propertyName)|
  {
    SelectPointwise(reviews, ApprovedOf(propertyName), Shown(propertyName));
  }

  /** The same, entry by entry of the dashboard's statistics. */
  lemma StatsCountMatches(reviews: seq<Review>, i: nat)
    requires i < |PropertyStats(reviews)|
    ensures PropertyStats(reviews)[i].approvedCount == |ApprovedFor(reviews, PropertyStats(reviews)[i].property)|
  {
    assert PropertyStats(reviews)[i] == StatOf(reviews, Properties(reviews)[i]);
    ApprovedCountMatches(reviews, Properties(reviews)[i]);
  }

  /** After the dashboard approves the first record with `id` (the PATCH), the page shows that
      review when it belongs to the property, and still shows every review it showed before. */
  lemma ApproveShows(raws: seq<RawReview>, id: int, propertyName: string)
    requires Normalize(raws).Some?
    ensures var before, after, k := Normalize(raws).value, Normalize(SetApproved(raws, id, true)).value, IndexOf(raws, id);
      && (forall r :: r in ApprovedFor(before, propertyName) ==> r in ApprovedFor(after, propertyName))
      && (k >= 0 && before[k].property == propertyName ==> after[k] in ApprovedFor(after, propertyName))
  {
    NormalizeAfterSet(raws, id, true);
    var before, after, k := Normalize(raws).value, Normalize(SetApproved(raws, id, true)).value, IndexOf(raws, id);
    forall r | r in ApprovedFor(before, propertyName) ensures r in ApprovedFor(after, propertyName) {
      var i :| 0 <= i < |before| && before[i] == r;
      assert after[i] == r;
    }
  }

  /** After the dashboard unapproves the first record with `id`, the page shows no review it did
      not show before, and no longer shows that record's new version. */
  lemma UnapproveHides(raws: seq<RawReview>, id: int, propertyName: string)
    requires Normalize(raws).Some?
    ensures var before, after, k := Normalize(raws).value, Normalize(SetApproved(raws, id, false)).value, IndexOf(raws, id);
      && (forall r :: r in ApprovedFor(after, propertyName) ==> r in ApprovedFor(before, propertyName))
      && (k >= 0 ==> after[k] !in ApprovedFor(after, propertyName))
  {
    NormalizeAfterSet(raws, id, false);
    var before, after, k := Normalize(raws).value, Normalize(SetApproved(raws, id, false)).value, IndexOf(raws, id);
    forall r | r in ApprovedFor(after, propertyName) ensures r in ApprovedFor(before, propertyName) {
      var i :| 0 <= i < |after| && after[i] == r;
      assert i != k;
      assert before[i] == r;
    }
  }
}
