/** Product reviews: newest first per product, an average rating, and a "helpful" counter. */
module Reviews {
  import Seqs
  import Sorting
  import Text

  datatype Review = Review(
    id: string,
    productId: string,
    author: string,
    rating: int,      // 1 to 5 by convention; nothing enforces it
    title: string,
    content: string,
    createdAt: int,
    helpful: int,
    verified: bool)

  /** What the review form submits: everything but the id, the time and the counter. */
  datatype Draft = Draft(productId: string, author: string, rating: int, title: string, content: string, verified: bool)

  type ReviewList = seq<Review>

  /** `review_<ms>_<suffix>`, the suffix being up to nine random base-36 digits supplied by the caller. */
  function ReviewId(now: int, suffix: string): (r: string)
    ensures |r| >= 9 + |suffix| && r[..7] == "review_" && r[|r| - |suffix|..] == suffix
  {
    "review_" + Text.IntToString(now) + "_" + suffix
  }

  /** `addReview`: the new review, stamped `now` with no helpful votes, goes in front. */
  function AddReview(reviews: ReviewList, d: Draft, now: int, suffix: string): (r: ReviewList)
    ensures |r| == |reviews| + 1 && r[1..] == reviews
    ensures r[0].productId == d.productId && r[0].rating == d.rating && r[0].author == d.author
    ensures r[0].createdAt == now && r[0].helpful == 0 && r[0].id == ReviewId(now, suffix)
  {
    [Review(ReviewId(now, suffix), d.productId, d.author, d.rating, d.title, d.content, now, 0, d.verified)] + reviews
  }

  /** The reviews of one product, in list order. */
  function ForProduct(reviews: ReviewList, productId: string): (r: ReviewList)
    ensures forall i :: 0 <= i < |r| ==> r[i].productId == productId && r[i] in reviews
  {
    Seqs.Filter(reviews, (rv: Review) => rv.productId == productId)
  }

  function NewestFirst(rv: Review): int {
    -rv.createdAt
  }

  /** `getReviewsByProduct`: the product's reviews, newest first. */
  function ReviewsByProduct(reviews: ReviewList, productId: string): (r: ReviewList)
    ensures multiset(r) == multiset(ForProduct(reviews, productId))
    ensures forall i :: 0 <= i < |r| ==> r[i].productId == productId
    ensures forall i, j :: 0 <= i < j < |r| ==> r[i].createdAt >= r[j].createdAt
  {
    var rs := ForProduct(reviews, productId);
    Sorting.SortPermutes(rs, NewestFirst);
    Sorting.SortSorted(rs, NewestFirst);
    var r := Sorting.SortBy(rs, NewestFirst);
    assert forall i :: 0 <= i < |r| ==> r[i] in multiset(rs);
    r
  }

  function Rating(rv: Review): int {
    rv.rating
  }

  /** `getAverageRating`: the mean rating of the product's reviews, 0 when it has none. */
  function AverageRating(reviews: ReviewList, productId: string): (r: real)
    ensures ForProduct(reviews, productId) == [] ==> r == 0.0
  {
    var rs := ForProduct(reviews, productId);
    if |rs| == 0 then 0.0 else (Seqs.Sum(rs, Rating) as real) / (|rs| as real)
  }

  /** `markHelpful`: one more vote for every review with the id. */
  function MarkHelpful(reviews: ReviewList, id: string): (r: ReviewList)
    ensures |r| == |reviews|
    ensures forall i :: 0 <= i < |r| ==>
              r[i] == if reviews[i].id == id then reviews[i].(helpful := reviews[i].helpful + 1) else reviews[i]
  {
    Seqs.UpdateWhere(reviews, (rv: Review) => rv.id == id, (rv: Review) => rv.(helpful := rv.helpful + 1))
  }

  // ---------------------------------------------------------------- lemmas

  /** Every review of the product is listed. */
  lemma ByProductComplete(reviews: ReviewList, productId: string, i: int)
    requires 0 <= i < |reviews| && reviews[i].productId == productId
    ensures reviews[i] in ReviewsByProduct(reviews, productId)
  {
    assert reviews[i] in multiset(ForProduct(reviews, productId));
  }

  /** Reviews posted at the same instant keep their list order. */
  lemma ByProductStable(reviews: ReviewList, productId: string, t: int)
    ensures Sorting.WithKey(ReviewsByProduct(reviews, productId), NewestFirst, -t)
         == Sorting.WithKey(ForProduct(reviews, productId), NewestFirst, -t)
  {
    Sorting.SortStable(ForProduct(reviews, productId), NewestFirst, -t);
  }

  /** A review added at a time no earlier than any existing one heads its product's list. */
  lemma NewReviewListedFirst(reviews: ReviewList, d: Draft, now: int, suffix: string)
    requires forall i :: 0 <= i < |reviews| ==> reviews[i].createdAt <= now
    ensures var r := AddReview(reviews, d, now, suffix);
            ReviewsByProduct(r, d.productId) != [] && ReviewsByProduct(r, d.productId)[0] == r[0]
  {
    var r := AddReview(reviews, d, now, suffix);
    var rs := ForProduct(r, d.productId);
    assert rs == [r[0]] + ForProduct(reviews, d.productId) by {
      assert r[1..] == reviews;
    }
    forall i | 0 <= i < |rs| ensures NewestFirst(rs[0]) <= NewestFirst(rs[i]) {
      assert rs[i] in r;
    }
    Sorting.SortKeepsMinimalHeadFirst(rs, NewestFirst);
  }

  /** With ratings from 1 to 5, a product that has reviews averages between 1 and 5. */
  lemma AverageWithinScale(reviews: ReviewList, productId: string)
    requires forall i :: 0 <= i < |reviews| ==> 1 <= reviews[i].rating <= 5
    requires ForProduct(reviews, productId) != []
    ensures 1.0 <= AverageRating(reviews, productId) <= 5.0
  {
    var rs := ForProduct(reviews, productId);
    forall i | 0 <= i < |rs| ensures 1 <= Rating(rs[i]) <= 5 {
      assert rs[i] in reviews;
    }
    Seqs.SumBounds(rs, Rating, 1, 5);
    MeanBetween(Seqs.Sum(rs, Rating), |rs|, 1, 5);
  }

  /** A total between lo*n and hi*n, shared among n, is between lo and hi. */
  lemma MeanBetween(total: int, n: int, lo: int, hi: int)
    requires n > 0 && lo * n <= total <= hi * n
    ensures lo as real <= (total as real) / (n as real) <= hi as real
  {
    var q := (total as real) / (n as real);
    assert q * (n as real) == total as real;
    assert (lo as real) * (n as real) <= q * (n as real) <= (hi as real) * (n as real);
  }

  /** Votes change no product's reviews' ratings, so no average moves. */
  lemma {:induction false} HelpfulKeepsRatings(reviews: ReviewList, id: string, productId: string)
    ensures |ForProduct(MarkHelpful(reviews, id), productId)| == |ForProduct(reviews, productId)|
    ensures Seqs.Sum(ForProduct(MarkHelpful(reviews, id), productId), Rating)
         == Seqs.Sum(ForProduct(reviews, productId), Rating)
  {
    if reviews != [] {
      var r := MarkHelpful(reviews, id);
      HelpfulKeepsRatings(reviews[1..], id, productId);
      assert r[1..] == MarkHelpful(reviews[1..], id);
    }
  }

  lemma HelpfulKeepsAverage(reviews: ReviewList, id: string, productId: string)
    ensures AverageRating(MarkHelpful(reviews, id), productId) == AverageRating(reviews, productId)
  {
    HelpfulKeepsRatings(reviews, id, productId);
  }
}
