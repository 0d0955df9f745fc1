/**
 * The listing handlers (GET /api/v1/all-donation and GET /api/v1/testimonials):
 * the store's sorted documents, capped by the optional `limit` query parameter.
 */
module Listing {
  import opened Common

  /** How many documents a listing may return: `None` for no cap. The query
      parameter is `Number(req.query.limit)`, where `None` stands for NaN (the
      parameter is absent or not numeric). NaN and 0 are falsy and select the
      unbounded query; any other value goes to the driver's `limit`, which
      treats a negative `-n` as a single batch of at most `n` documents. */
  function Cap(limit: Option<int>): (cap: Option<nat>)
    ensures cap.None? <==> limit.None? || limit == Some(0)
    ensures cap.Some? ==> cap.value > 0 && (cap.value == limit.value || cap.value == -limit.value)
  {
    match limit
    case None => None
    case Some(n) => if n == 0 then None else Some(if n < 0 then -n else n)
  }

  /** The listing: the sorted documents, cut to at most the cap. */
  function Select<T>(sorted: seq<T>, limit: Option<int>): (r: seq<T>)
    ensures r <= sorted
    ensures Cap(limit).None? ==> r == sorted
    ensures Cap(limit).Some? ==> |r| == if Cap(limit).value < |sorted| then Cap(limit).value else |sorted|
  {
    match Cap(limit)
    case None => sorted
    case Some(n) => if n < |sorted| then sorted[..n] else sorted
  }

  /** Documents in insertion order, listed newest first (`sort({_id: -1})`). */
  function NewestFirst<T>(inserted: seq<T>): (r: seq<T>)
    ensures |r| == |inserted|
    ensures forall i :: 0 <= i < |r| ==> r[i] == inserted[|inserted| - 1 - i]
  {
    if inserted == [] then []
    else [inserted[|inserted| - 1]] + NewestFirst(inserted[..|inserted| - 1])
  }

  /** GET /api/v1/all-donation over the donations in insertion order. */
  function ListDonations<T>(inserted: seq<T>, limit: Option<int>): (r: seq<T>)
    ensures Cap(limit).None? ==> |r| == |inserted|
    ensures Cap(limit).Some? ==> |r| == if Cap(limit).value < |inserted| then Cap(limit).value else |inserted|
    ensures forall i :: 0 <= i < |r| ==> r[i] == inserted[|inserted| - 1 - i]
  {
    Select(NewestFirst(inserted), limit)
  }

  /** A positive limit `n` gives the `n` most recent donations, newest first:
      the first `n` of the unbounded listing. */
  lemma LimitedListingIsNewest<T>(inserted: seq<T>, n: int)
    requires n > 0
    ensures var r := ListDonations(inserted, Some(n));
      && |r| == (if n < |inserted| then n else |inserted|)
      && r == ListDonations(inserted, None)[..|r|]
      && forall i :: 0 <= i < |r| ==> r[i] == inserted[|inserted| - 1 - i]
  {
  }

  /** A testimonial, reduced to the field the listing sorts on. */
  datatype Testimonial = Testimonial(donationAmount: int)

  /** `sort({donation_amount: -1})`: no testimonial precedes a larger one. */
  predicate ByAmountDesc(ts: seq<Testimonial>)
  {
    forall i, j :: 0 <= i < j < |ts| ==> ts[i].donationAmount >= ts[j].donationAmount
  }

  /** GET /api/v1/testimonials over the store's answer sorted by amount: the
      listing is still sorted, and it holds the largest donations, none of the
      left-out ones exceeding any listed one. */
  lemma TopTestimonials(byAmount: seq<Testimonial>, limit: Option<int>)
    requires ByAmountDesc(byAmount)
    ensures ByAmountDesc(Select(byAmount, limit))
    ensures forall i, j :: 0 <= i < |Select(byAmount, limit)| <= j < |byAmount| ==>
      Select(byAmount, limit)[i].donationAmount >= byAmount[j].donationAmount
  {
  }
}
