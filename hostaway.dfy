/** The reviews API route: normalisation of raw Hostaway records into the
    dashboard's `Review` shape, and the PATCH that sets a record's `approved`
    flag in place on the shared snapshot and writes the snapshot back. */
module Hostaway {
  import opened Wrappers

  datatype Category = Category(category: string, rating: int)

  /** A record as Hostaway (or the mock snapshot) delivers it. `submittedAt` is the
      instant the date string parses to, in milliseconds, or `None` when
      `new Date(submittedAt)` is an invalid date. */
  datatype RawReview = RawReview(
    id: int,
    listingName: string,
    guestName: string,
    rating: Option<int>,
    reviewCategory: Option<seq<Category>>,
    publicReview: string,
    submittedAt: Option<int>,
    status: string,
    approved: Option<bool>)

  /** The canonical review the dashboard and the property page receive. `date` is
      the instant the ISO string denotes, in milliseconds. */
  datatype Review = Review(
    id: int,
    property: string,
    reviewer: string,
    rating: Option<int>,
    categories: seq<Category>,
    channel: string,
    review: string,
    date: int,
    status: string,
    approved: bool)

  const HostawayChannel: string := "Hostaway"

  /** The category list of a raw record, `[]` when it has none. */
  function CategoriesOf(raw: RawReview): (cs: seq<Category>)
    ensures raw.reviewCategory.Some? ==> cs == raw.reviewCategory.value
    ensures raw.reviewCategory.None? ==> cs == []
  {
    raw.reviewCategory.GetOr([])
  }

  /** `rating ?? reviewCategory?.[0]?.rating ?? null`. */
  function DeriveRating(raw: RawReview): (r: Option<int>)
    // a present overall rating wins, zero included
    ensures raw.rating.Some? ==> r == raw.rating
    // otherwise the first category's rating, when there is one
    ensures raw.rating.None? && r.Some? ==> |CategoriesOf(raw)| > 0 && r.value == CategoriesOf(raw)[0].rating
    // absent only when neither source exists
    ensures r.None? <==> raw.rating.None? && CategoriesOf(raw) == []
  {
    if raw.rating.Some? then raw.rating
    else if raw.reviewCategory.Some? && |raw.reviewCategory.value| > 0 then Some(raw.reviewCategory.value[0].rating)
    else None
  }

  /** One element of the `map` at hostaway.ts:83-94; `None` when `toISOString` throws. */
  function NormalizeRecord(raw: RawReview): (r: Option<Review>)
    ensures r.Some? <==> raw.submittedAt.Some?
    ensures r.Some? ==>
      && r.value.id == raw.id
      && r.value.property == raw.listingName
      && r.value.reviewer == raw.guestName
      && r.value.review == raw.publicReview
      && r.value.status == raw.status
      && r.value.date == raw.submittedAt.value
      && r.value.rating == DeriveRating(raw)
      && r.value.categories == CategoriesOf(raw)
      && r.value.channel == HostawayChannel
      && r.value.approved == (raw.approved == Some(true))
  {
    match raw.submittedAt
    case None => None
    case Some(instant) =>
      Some(Review(
        id := raw.id,
        property := raw.listingName,
        reviewer := raw.guestName,
        rating := DeriveRating(raw),
        categories := CategoriesOf(raw),
        channel := HostawayChannel,
        review := raw.publicReview,
        date := instant,
        status := raw.status,
        approved := raw.approved.GetOr(false)))
  }

  /** The whole `data.result.map(...)`: the request fails as a whole as soon as one
      record's date cannot be converted. */
  function Normalize(raws: seq<RawReview>): (r: Option<seq<Review>>)
    ensures r.Some? <==> forall i :: 0 <= i < |raws| ==> raws[i].submittedAt.Some?
    ensures r.Some? ==> |r.value| == |raws|
    ensures r.Some? ==> forall i :: 0 <= i < |raws| ==> NormalizeRecord(raws[i]) == Some(r.value[i])
  {
    if raws == [] then Some([])
    else
      match NormalizeRecord(raws[0])
      case None => None
      case Some(head) =>
        match Normalize(raws[1..])
        case None => None
        case Some(tail) => Some([head] + tail)
  }

  /** Every field that the dashboard reads is the one of the raw record at the same position. */
  lemma NormalizeFields(raws: seq<RawReview>, i: nat)
    requires Normalize(raws).Some? && i < |raws|
    ensures i < |Normalize(raws).value|
    ensures var n := Normalize(raws).value[i];
      && n.id == raws[i].id && n.property == raws[i].listingName && n.reviewer == raws[i].guestName
      && n.review == raws[i].publicReview && n.status == raws[i].status
      && n.channel == HostawayChannel && n.approved == (raws[i].approved == Some(true))
      && n.categories == CategoriesOf(raws[i]) && n.rating == DeriveRating(raws[i])
  {
    assert NormalizeRecord(raws[i]) == Some(Normalize(raws).value[i]);
  }

  /** Record ids are pairwise distinct. */
  predicate UniqueIds(raws: seq<RawReview>) {
    forall i, j :: 0 <= i < |raws| && 0 <= j < |raws| && raws[i].id == raws[j].id ==> i == j
  }

  /** `findIndex((r) => r.id === id)`: the first position holding `id`, or -1. */
  function IndexOf(raws: seq<RawReview>, id: int): (k: int)
    ensures -1 <= k < |raws|
    ensures k == -1 <==> forall i :: 0 <= i < |raws| ==> raws[i].id != id
    ensures k >= 0 ==> raws[k].id == id && forall i :: 0 <= i < k ==> raws[i].id != id
  {
    if raws == [] then -1
    else if raws[0].id == id then 0
    else
      var k := IndexOf(raws[1..], id);
      if k == -1 then -1 else k + 1
  }

  /** The collection after a PATCH `{id, approved}`: the first record with that id
      gets `approved` set, and nothing else is touched. */
  function SetApproved(raws: seq<RawReview>, id: int, approved: bool): (r: seq<RawReview>)
    ensures |r| == |raws|
    ensures IndexOf(raws, id) == -1 ==> r == raws
    ensures forall i :: 0 <= i < |raws| && i != IndexOf(raws, id) ==> r[i] == raws[i]
    ensures IndexOf(raws, id) >= 0 ==> r[IndexOf(raws, id)] == raws[IndexOf(raws, id)].(approved := Some(approved))
  {
    var k := IndexOf(raws, id);
    if k == -1 then raws else raws[k := raws[k].(approved := Some(approved))]
  }

  /** Positions and ids do not move under a PATCH. */
  lemma {:induction false} IndexOfAfterSet(raws: seq<RawReview>, id: int, other: int, approved: bool)
    ensures IndexOf(SetApproved(raws, id, approved), other) == IndexOf(raws, other)
  {
    var r := SetApproved(raws, id, approved);
    assert forall i :: 0 <= i < |raws| ==> r[i].id == raws[i].id;
    var k, k' := IndexOf(raws, other), IndexOf(r, other);
    if k >= 0 && k' >= 0 {
      assert k <= k' && k' <= k;
    }
  }

  /** Applying the same PATCH twice gives the collection that applying it once gives. */
  lemma SetApprovedIdempotent(raws: seq<RawReview>, id: int, approved: bool)
    ensures SetApproved(SetApproved(raws, id, approved), id, approved) == SetApproved(raws, id, approved)
  {
    IndexOfAfterSet(raws, id, id, approved);
  }

  /** The later of two PATCHes on the same id wins. */
  lemma SetApprovedLastWins(raws: seq<RawReview>, id: int, first: bool, second: bool)
    ensures SetApproved(SetApproved(raws, id, first), id, second) == SetApproved(raws, id, second)
  {
    IndexOfAfterSet(raws, id, id, first);
  }

  /** Setting `!a` and then `a` gives back the original collection exactly when the
      record already carried the flag `a` (an absent flag becomes present). */
  lemma SetApprovedRestores(raws: seq<RawReview>, id: int, a: bool)
    ensures SetApproved(SetApproved(raws, id, !a), id, a) == raws
        <==> IndexOf(raws, id) == -1 || raws[IndexOf(raws, id)].approved == Some(a)
  {
    SetApprovedLastWins(raws, id, !a, a);
    var k := IndexOf(raws, id);
    if k >= 0 && SetApproved(raws, id, a) == raws {
      assert SetApproved(raws, id, a)[k].approved == Some(a);
    }
  }

  /** Normalising the patched collection changes only `approved`, of the first
      review with that id, to the requested value. */
  lemma {:induction false} NormalizeAfterSet(raws: seq<RawReview>, id: int, approved: bool)
    requires Normalize(raws).Some?
    ensures Normalize(SetApproved(raws, id, approved)).Some?
    ensures var before, after, k := Normalize(raws).value, Normalize(SetApproved(raws, id, approved)).value, IndexOf(raws, id);
      && |after| == |before|
      && (forall i :: 0 <= i < |before| && i != k ==> after[i] == before[i])
      && (k >= 0 ==> after[k] == before[k].(approved := approved))
  {
    var patched := SetApproved(raws, id, approved);
    var before := Normalize(raws).value;
    forall i | 0 <= i < |patched| ensures patched[i].submittedAt.Some? {
      assert raws[i].submittedAt.Some?;
    }
    var after := Normalize(patched).value;
    forall i | 0 <= i < |before|
      ensures i != IndexOf(raws, id) ==> after[i] == before[i]
      ensures i == IndexOf(raws, id) ==> after[i] == before[i].(approved := approved)
    {
      assert NormalizeRecord(raws[i]) == Some(before[i]);
      assert NormalizeRecord(patched[i]) == Some(after[i]);
    }
  }

  /** A PATCH that sets the flag a record already has in effect leaves the normalised view as it was. */
  lemma NormalizeSetUnchanged(raws: seq<RawReview>, id: int, a: bool)
    requires Normalize(raws).Some?
    requires IndexOf(raws, id) == -1 || raws[IndexOf(raws, id)].approved.GetOr(false) == a
    ensures Normalize(SetApproved(raws, id, a)) == Normalize(raws)
  {
    NormalizeAfterSet(raws, id, a);
    var before, after := Normalize(raws).value, Normalize(SetApproved(raws, id, a)).value;
    var k := IndexOf(raws, id);
    if k >= 0 {
      assert NormalizeRecord(raws[k]) == Some(before[k]);
    }
    assert after == before;
  }

  /** Approving and then unapproving (or the reverse) gives back the normalised view
      whenever the record's effective flag `approved ?? false` was the final value. */
  lemma NormalizedToggleTwice(raws: seq<RawReview>, id: int, a: bool)
    requires Normalize(raws).Some?
    requires IndexOf(raws, id) == -1 || raws[IndexOf(raws, id)].approved.GetOr(false) == a
    ensures Normalize(SetApproved(SetApproved(raws, id, !a), id, a)) == Normalize(raws)
  {
    SetApprovedLastWins(raws, id, !a, a);
    NormalizeSetUnchanged(raws, id, a);
  }

  /** The reply of the route. */
  datatype Response =
    | ReviewsOk(reviews: seq<Review>)   // 200 {reviews}
    | SuccessOk                          // 200 {success: true}
    | ServerError                        // the handler threw (an invalid date)
    | NoReply                            // any other HTTP method: the handler returns without answering

  datatype Request = Get | Patch(id: int, approved: bool) | OtherMethod

  /** The module-level snapshot `mockData` that every request shares, and the file
      `public/mock-data.json` it is written back to. */
  class MockStore {
    var result: array<RawReview>
    var file: seq<RawReview>
    var writes: nat

    constructor (snapshot: seq<RawReview>)
      ensures fresh(result)
      ensures result[..] == snapshot && file == snapshot && writes == 0
    {
      result := new RawReview[|snapshot|](i requires 0 <= i < |snapshot| => snapshot[i]);
      file := snapshot;
      writes := 0;
    }

    /** `data.result.findIndex((r) => r.id === id)`. */
    method FindIndex(id: int) returns (k: int)
      ensures -1 <= k < result.Length
      ensures k == -1 <==> forall i :: 0 <= i < result.Length ==> result[i].id != id
      ensures k >= 0 ==> result[k].id == id && forall i :: 0 <= i < k ==> result[i].id != id
      ensures k == IndexOf(result[..], id)
    {
      k := 0;
      while k < result.Length && result[k].id != id
        invariant 0 <= k <= result.Length
        invariant forall i :: 0 <= i < k ==> result[i].id != id
      {
        k := k + 1;
      }
      if k == result.Length {
        k := -1;
      }
      ghost var j := IndexOf(result[..], id);
      assert j == -1 || j == k by {
        if j >= 0 && k >= 0 {
          assert result[..][j].id == id && result[..][k].id == id;
        }
      }
    }

    /** The PATCH branch: set `approved` on the first record with `id` in place and
        write the whole collection back; an unknown id changes and writes nothing. */
    method SetApprovedInPlace(id: int, approved: bool)
      modifies this, result
      ensures result == old(result)
      ensures result[..] == SetApproved(old(result[..]), id, approved)
      ensures IndexOf(old(result[..]), id) == -1 ==> file == old(file) && writes == old(writes)
      ensures IndexOf(old(result[..]), id) >= 0 ==> file == result[..] && writes == old(writes) + 1
    {
      var k := FindIndex(id);
      if k != -1 {
        result[k] := result[k].(approved := Some(approved));
        file := result[..];
        writes := writes + 1;
      }
    }

    /** The route handler: normalise the snapshot, then answer GET with it, or
        apply a PATCH and answer `{success: true}` whether or not the id exists. */
    method Handle(req: Request) returns (resp: Response)
      modifies this, result
      ensures result == old(result)
      ensures Normalize(old(result[..])).None? ==>
        resp == ServerError && result[..] == old(result[..]) && file == old(file) && writes == old(writes)
      ensures Normalize(old(result[..])).Some? && req.Get? ==>
        resp == ReviewsOk(Normalize(old(result[..])).value)
        && result[..] == old(result[..]) && file == old(file) && writes == old(writes)
      ensures Normalize(old(result[..])).Some? && req.Patch? ==>
        resp == SuccessOk && result[..] == SetApproved(old(result[..]), req.id, req.approved)
        && (IndexOf(old(result[..]), req.id) == -1 ==> file == old(file) && writes == old(writes))
        && (IndexOf(old(result[..]), req.id) >= 0 ==> file == result[..] && writes == old(writes) + 1)
      ensures Normalize(old(result[..])).Some? && req.OtherMethod? ==>
        resp == NoReply && result[..] == old(result[..]) && file == old(file) && writes == old(writes)
    {
      var normalized := Normalize(result[..]);
      if normalized.None? {
        return ServerError;
      }
      match req
      case Get =>
        resp := ReviewsOk(normalized.value);
      case Patch(id, approved) =>
        SetApprovedInPlace(id, approved);
        resp := SuccessOk;
      case OtherMethod =>
        resp := NoReply;
    }
  }
}
