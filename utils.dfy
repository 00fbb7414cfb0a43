/**
 * app/utils.py: the aggregate vibe score of a business (mean of the
 * non-null scores of its reviews, rounded to two places, 0.0 when there is
 * none), the refresh that caches it with the review count on the business
 * record, and the sentiment analysis placeholder.
 */
module Utils {
  import opened Wrappers
  import opened Models

  /** What the sentiment analysis hands back for a review's text. */
  datatype SentimentAnalysis = SentimentAnalysis(
    vibeScore: Option<real>, sentiment: Option<string>, keywords: Option<seq<string>>)

  /** The placeholder analysis: no score, no sentiment and no keywords, whatever the text. */
  function AnalyzeReviewSentiment(content: string): (a: SentimentAnalysis)
    ensures a.vibeScore.None? && a.sentiment.None? && a.keywords.None?
  {
    SentimentAnalysis(None, None, None)
  }

  function Sum(s: seq<real>): real {
    if s == [] then 0.0 else s[0] + Sum(s[1..])
  }

  function Mean(s: seq<real>): real
    requires |s| > 0
  {
    Sum(s) / (|s| as real)
  }

  /** A sum of `n` values in `[lo, hi]` lies in `[n * lo, n * hi]`. */
  lemma {:induction false} SumBounds(s: seq<real>, lo: real, hi: real)
    requires forall x :: x in s ==> lo <= x <= hi
    ensures (|s| as real) * lo <= Sum(s) <= (|s| as real) * hi
  {
    if s != [] {
      assert s[0] in s;
      assert forall x :: x in s[1..] ==> x in s;
      SumBounds(s[1..], lo, hi);
      var m := |s[1..]| as real;
      assert |s| as real == m + 1.0;
      assert (m + 1.0) * lo == m * lo + lo;
      assert (m + 1.0) * hi == m * hi + hi;
    }
  }

  /** The mean lies between any lower and upper bound of the values. */
  lemma MeanBounds(s: seq<real>, lo: real, hi: real)
    requires |s| > 0
    requires forall x :: x in s ==> lo <= x <= hi
    ensures lo <= Mean(s) <= hi
  {
    SumBounds(s, lo, hi);
    var n := |s| as real;
    assert Mean(s) - lo == (Sum(s) - n * lo) / n;
    assert hi - Mean(s) == (n * hi - Sum(s)) / n;
  }

  /**
   * Python's `round(x, 2)` on the exact value: the nearest multiple of 0.01,
   * ties going to the even multiple.
   */
  function Round2(x: real): (r: real)
    ensures -0.005 <= r - x <= 0.005
    ensures (r * 100.0).Floor as real == r * 100.0
  {
    var y := x * 100.0;
    var n := y.Floor;
    var d := y - n as real;
    var k := if d < 0.5 then n else if d > 0.5 then n + 1 else if n % 2 == 0 then n else n + 1;
    k as real / 100.0
  }

  function Abs(x: real): real {
    if x < 0.0 then -x else x
  }

  /** `r` is a whole number of hundredths, and the hundredth `k` is no closer to `x` than `r`. */
  ghost predicate NoCloserHundredth(r: real, x: real, k: int) {
    (r * 100.0).Floor as real == r * 100.0 && Abs(r - x) <= Abs(k as real / 100.0 - x)
  }

  /** No multiple of 0.01 is closer to `x` than its rounding. */
  lemma Round2Nearest(x: real, k: int)
    ensures NoCloserHundredth(Round2(x), x, k)
  {
    var n := (x * 100.0).Floor;
    assert k <= n || k >= n + 1;
  }

  /** A value exactly halfway between two hundredths rounds to the even one. */
  lemma Round2TiesToEven(x: real)
    requires x * 100.0 - (x * 100.0).Floor as real == 0.5
    ensures (Round2(x) * 100.0).Floor % 2 == 0
  {
    var n := (x * 100.0).Floor;
    var k := if n % 2 == 0 then n else n + 1;
    assert Round2(x) == k as real / 100.0;
    assert Round2(x) * 100.0 == k as real;
  }

  /** Rounding to two places cannot leave an interval with whole-number ends. */
  lemma Round2Bounds(x: real, lo: int, hi: int)
    requires lo as real <= x <= hi as real
    ensures lo as real <= Round2(x) <= hi as real
  {
    var y := x * 100.0;
    var n := y.Floor;
    assert (100 * lo) as real <= y <= (100 * hi) as real;
    assert 100 * lo <= n <= 100 * hi;
    if n == 100 * hi {
      assert y - n as real == 0.0;
    }
  }

  /** The non-null scores of `reviews`, in order. */
  function ScoresOf(reviews: seq<Review>): (scores: seq<real>)
    ensures |scores| <= |reviews|
    ensures scores == [] <==> forall r :: r in reviews ==> r.vibeScore.None?
  {
    if reviews == [] then []
    else
      var rest := ScoresOf(reviews[1..]);
      assert forall r :: r in reviews <==> r == reviews[0] || r in reviews[1..];
      match reviews[0].vibeScore
      case None => rest
      case Some(v) => [v] + rest
  }

  /** The number of reviews whose score is not null. */
  function ScoredCount(reviews: seq<Review>): nat {
    if reviews == [] then 0
    else (if reviews[0].vibeScore.Some? then 1 else 0) + ScoredCount(reviews[1..])
  }

  /** The kept scores are exactly the non-null scores of the reviews, one per scored review. */
  lemma {:induction false} ScoresOfExact(reviews: seq<Review>)
    ensures forall x :: x in ScoresOf(reviews) <==> exists r :: r in reviews && r.vibeScore == Some(x)
    ensures |ScoresOf(reviews)| == ScoredCount(reviews)
  {
    if reviews != [] {
      ScoresOfExact(reviews[1..]);
      assert forall r :: r in reviews <==> r == reviews[0] || r in reviews[1..];
    }
  }

  /** Collecting scores distributes over concatenation, so their order is the table order. */
  lemma {:induction false} ScoresOfAppend(a: seq<Review>, b: seq<Review>)
    ensures ScoresOf(a + b) == ScoresOf(a) + ScoresOf(b)
  {
    if a == [] {
      assert a + b == b;
    } else {
      assert (a + b)[0] == a[0];
      assert (a + b)[1..] == a[1..] + b;
      ScoresOfAppend(a[1..], b);
    }
  }

  /** Every non-null score in `reviews` lies in `[lo, hi]`. */
  ghost predicate ScoresBetween(reviews: seq<Review>, lo: real, hi: real) {
    forall r :: r in reviews && r.vibeScore.Some? ==> lo <= r.vibeScore.value <= hi
  }

  lemma {:induction false} ScoresOfBetween(reviews: seq<Review>, lo: real, hi: real)
    requires ScoresBetween(reviews, lo, hi)
    ensures forall x :: x in ScoresOf(reviews) ==> lo <= x <= hi
  {
    if reviews != [] {
      assert reviews[0] in reviews;
      assert forall r :: r in reviews[1..] ==> r in reviews;
      ScoresOfBetween(reviews[1..], lo, hi);
    }
  }

  /** `compute_aggregated_vibe_score` over the review table. */
  function ComputeAggregatedVibeScore(reviews: seq<Review>, businessId: int): (score: real)
    ensures ReviewsOf(reviews, businessId) == [] ==> score == 0.0
    ensures (forall r :: r in reviews && r.businessId == businessId ==> r.vibeScore.None?) ==> score == 0.0
    ensures ScoresOf(ReviewsOf(reviews, businessId)) != [] ==>
              -0.005 <= score - Mean(ScoresOf(ReviewsOf(reviews, businessId))) <= 0.005
  {
    var allReviews := ReviewsOf(reviews, businessId);
    if allReviews == [] then 0.0
    else
      var scores := ScoresOf(allReviews);
      if scores == [] then 0.0
      else Round2(Mean(scores))
  }

  /** `query(Review).filter(Review.business_id == id).count()`. */
  function ReviewCount(reviews: seq<Review>, businessId: int): (n: nat)
    ensures n <= |reviews|
    ensures n >= |ScoresOf(ReviewsOf(reviews, businessId))|
  {
    |ReviewsOf(reviews, businessId)|
  }

  /**
   * With at least one score, the aggregate is a whole number of hundredths
   * and no multiple of 0.01 is closer to the mean of the business's scores.
   */
  lemma AggregateRoundsMean(reviews: seq<Review>, businessId: int, k: int)
    requires ScoresOf(ReviewsOf(reviews, businessId)) != []
    ensures NoCloserHundredth(ComputeAggregatedVibeScore(reviews, businessId),
                              Mean(ScoresOf(ReviewsOf(reviews, businessId))), k)
  {
    var mean := Mean(ScoresOf(ReviewsOf(reviews, businessId)));
    Round2Nearest(mean, k);
    assert ComputeAggregatedVibeScore(reviews, businessId) == Round2(mean);
  }

  /**
   * The count over an empty table is zero, and appending a review adds one
   * exactly when it names the business, scored or not.
   */
  lemma ReviewCountAppend(reviews: seq<Review>, x: Review, businessId: int)
    ensures ReviewCount([], businessId) == 0
    ensures ReviewCount(reviews + [x], businessId) == ReviewCount(reviews, businessId) + (if x.businessId == businessId then 1 else 0)
  {
    ReviewsOfAppend(reviews, [x], businessId);
    assert ReviewsOf([x][1..], businessId) == [];
  }

  /** The count is zero exactly when no review names the business. */
  lemma ReviewCountZero(reviews: seq<Review>, businessId: int)
    ensures ReviewCount(reviews, businessId) == 0 <==> forall r :: r in reviews ==> r.businessId != businessId
  {
    var own := ReviewsOf(reviews, businessId);
    if own != [] {
      assert own[0] in own;
    }
  }

  /** With every score of the business's reviews in `[lo, hi]` and at least one score, so is the aggregate. */
  lemma AggregateBetween(reviews: seq<Review>, businessId: int, lo: int, hi: int)
    requires ScoresBetween(ReviewsOf(reviews, businessId), lo as real, hi as real)
    requires ScoresOf(ReviewsOf(reviews, businessId)) != []
    ensures lo as real <= ComputeAggregatedVibeScore(reviews, businessId) <= hi as real
  {
    var own := ReviewsOf(reviews, businessId);
    ScoresOfBetween(own, lo as real, hi as real);
    var scores := ScoresOf(own);
    MeanBounds(scores, lo as real, hi as real);
    Round2Bounds(Mean(scores), lo, hi);
  }

  /** Scores on the 0..100 scale give an aggregate on the same scale. */
  lemma AggregateWithinVibeRange(reviews: seq<Review>, businessId: int)
    requires ScoresBetween(reviews, 0.0, 100.0)
    ensures 0.0 <= ComputeAggregatedVibeScore(reviews, businessId) <= 100.0
  {
    if ScoresOf(ReviewsOf(reviews, businessId)) != [] {
      assert ScoresBetween(ReviewsOf(reviews, businessId), 0.0, 100.0);
      AggregateBetween(reviews, businessId, 0, 100);
    }
  }

  /** The aggregate and the count see only the business's own reviews. */
  lemma AggregateDependsOnOwnReviews(a: seq<Review>, b: seq<Review>, businessId: int)
    requires ReviewsOf(a, businessId) == ReviewsOf(b, businessId)
    ensures ComputeAggregatedVibeScore(a, businessId) == ComputeAggregatedVibeScore(b, businessId)
    ensures ReviewCount(a, businessId) == ReviewCount(b, businessId)
  {
  }

  /** A review of another business, inserted anywhere, changes neither the aggregate nor the count. */
  lemma AggregateIgnoresOtherBusinesses(reviews: seq<Review>, k: int, x: Review, businessId: int)
    requires 0 <= k <= |reviews|
    requires x.businessId != businessId
    ensures ComputeAggregatedVibeScore(reviews[..k] + [x] + reviews[k..], businessId)
         == ComputeAggregatedVibeScore(reviews, businessId)
    ensures ReviewCount(reviews[..k] + [x] + reviews[k..], businessId) == ReviewCount(reviews, businessId)
  {
    var front, back := reviews[..k], reviews[k..];
    assert ReviewsOf([x], businessId) == [] by {
      assert ReviewsOf([x][1..], businessId) == [];
    }
    calc {
      ReviewsOf(front + [x] + back, businessId);
      { ReviewsOfAppend(front + [x], back, businessId); }
      ReviewsOf(front + [x], businessId) + ReviewsOf(back, businessId);
      { ReviewsOfAppend(front, [x], businessId); }
      ReviewsOf(front, businessId) + ReviewsOf(back, businessId);
      { ReviewsOfAppend(front, back, businessId); }
      ReviewsOf(front + back, businessId);
      { assert front + back == reviews; }
      ReviewsOf(reviews, businessId);
    }
    AggregateDependsOnOwnReviews(front + [x] + back, reviews, businessId);
  }

  /** Four reviews of business 7: scores 80, 40 and 60, and one review without a score. */
  function ExampleReviews(): seq<Review> {
    [Review(1, 1, 7, "", Some(80.0), None, None),
     Review(2, 1, 7, "", Some(40.0), None, None),
     Review(3, 1, 7, "", Some(60.0), None, None),
     Review(4, 1, 7, "", None, None, None)]
  }

  lemma ExampleReviewsAllOwn()
    ensures ReviewsOf(ExampleReviews(), 7) == ExampleReviews()
  {
    var reviews := ExampleReviews();
    assert ReviewsOf(reviews[3..], 7) == reviews[3..];
    assert ReviewsOf(reviews[2..], 7) == reviews[2..];
    assert ReviewsOf(reviews[1..], 7) == reviews[1..];
  }

  lemma ExampleScores()
    ensures ScoresOf(ExampleReviews()) == [80.0, 40.0, 60.0]
  {
    var reviews := ExampleReviews();
    assert ScoresOf(reviews[3..]) == [];
    assert ScoresOf(reviews[2..]) == [60.0];
    assert ScoresOf(reviews[1..]) == [40.0, 60.0];
  }

  lemma ExampleMean()
    ensures Mean([80.0, 40.0, 60.0]) == 60.0
  {
    var scores := [80.0, 40.0, 60.0];
    assert Sum(scores[2..]) == 60.0;
    assert Sum(scores[1..]) == 100.0;
  }

  /** The worked example: scores 80, 40, 60 and one unscored review give 60.0 over 4 reviews. */
  lemma AggregateExample()
    ensures ComputeAggregatedVibeScore(ExampleReviews(), 7) == 60.0
    ensures ReviewCount(ExampleReviews(), 7) == 4
  {
    ExampleReviewsAllOwn();
    ExampleScores();
    ExampleMean();
    assert (60.0 * 100.0).Floor == 6000;
  }

  /** The cached fields of `b` agree with a recomputation over `reviews`. */
  ghost predicate AgreesWith(b: Business, reviews: seq<Review>) {
    b.aggregatedVibeScore == ComputeAggregatedVibeScore(reviews, b.id)
    && b.totalReviews == ReviewCount(reviews, b.id)
  }

  /** Every business's cached fields agree with a recomputation. */
  ghost predicate MetricsAgree(businesses: seq<Business>, reviews: seq<Review>) {
    forall i :: 0 <= i < |businesses| ==> AgreesWith(businesses[i], reviews)
  }

  /** Every stored review has a null score. */
  ghost predicate AllUnscored(reviews: seq<Review>) {
    forall r :: r in reviews ==> r.vibeScore.None?
  }

  /** Two business records with the same identity and description. */
  predicate SameProfile(a: Business, b: Business) {
    a.id == b.id && a.name == b.name && a.category == b.category && a.location == b.location
  }

  /** The business table after `refresh_business_metrics(businessId)`. */
  function RefreshedBusinesses(businesses: seq<Business>, reviews: seq<Review>, businessId: int)
    : (refreshed: seq<Business>)
    ensures |refreshed| == |businesses|
  {
    match BusinessIndexById(businesses, businessId)
    case None => businesses
    case Some(i) =>
      businesses[i := businesses[i].(
        aggregatedVibeScore := ComputeAggregatedVibeScore(reviews, businessId),
        totalReviews := ReviewCount(reviews, businessId))]
  }

  /**
   * What a refresh changes: nothing when no business has the id; otherwise
   * only the first business with the id, whose two cached fields then agree
   * with a recomputation, while its id, name, category and location stay.
   */
  lemma RefreshedBusinessesEffect(businesses: seq<Business>, reviews: seq<Review>, businessId: int)
    ensures var r := RefreshedBusinesses(businesses, reviews, businessId);
            && |r| == |businesses|
            && (forall j :: 0 <= j < |r| ==> SameProfile(r[j], businesses[j]))
            && (BusinessIndexById(businesses, businessId).None? ==> r == businesses)
            && (BusinessIndexById(businesses, businessId).Some? ==>
                  var i := BusinessIndexById(businesses, businessId).value;
                  AgreesWith(r[i], reviews) && forall j :: 0 <= j < |r| && j != i ==> r[j] == businesses[j])
  {
  }

  /** `refresh_business_metrics`: overwrite the two cached fields of the business, if it exists. */
  method RefreshBusinessMetrics(db: Database, businessId: int)
    modifies db`businesses
    ensures db.businesses == RefreshedBusinesses(old(db.businesses), db.reviews, businessId)
    ensures old(db.Valid()) ==> db.Valid()
  {
    var index := BusinessIndexById(db.businesses, businessId);
    if index.Some? {
      var target := db.businesses[index.value];
      var score := ComputeAggregatedVibeScore(db.reviews, businessId);
      var count := ReviewCount(db.reviews, businessId);
      db.businesses := db.businesses[index.value := target.(aggregatedVibeScore := score, totalReviews := count)];
    }
    RefreshedBusinessesEffect(old(db.businesses), db.reviews, businessId);
    BusinessIndexByIdKeepsIds(old(db.businesses), db.businesses);
  }

  /** Under unique ids, after a refresh every business carrying the id agrees with a recomputation. */
  lemma RefreshedTargetAgrees(businesses: seq<Business>, reviews: seq<Review>, businessId: int)
    requires UniqueBusinessIds(businesses)
    ensures var r := RefreshedBusinesses(businesses, reviews, businessId);
            forall j :: 0 <= j < |r| && r[j].id == businessId ==> AgreesWith(r[j], reviews)
  {
    var r := RefreshedBusinesses(businesses, reviews, businessId);
    RefreshedBusinessesEffect(businesses, reviews, businessId);
    forall j | 0 <= j < |r| && r[j].id == businessId ensures AgreesWith(r[j], reviews) {
      BusinessIndexByIdUnique(businesses, businessId, j);
    }
  }

  /** Refreshing twice with no new review in between is the same as refreshing once. */
  lemma RefreshIdempotent(businesses: seq<Business>, reviews: seq<Review>, businessId: int)
    ensures RefreshedBusinesses(RefreshedBusinesses(businesses, reviews, businessId), reviews, businessId)
         == RefreshedBusinesses(businesses, reviews, businessId)
  {
    var once := RefreshedBusinesses(businesses, reviews, businessId);
    RefreshedBusinessesEffect(businesses, reviews, businessId);
    BusinessIndexByIdKeepsIds(businesses, once);
    var twice := RefreshedBusinesses(once, reviews, businessId);
    if BusinessIndexById(businesses, businessId).Some? {
      var i := BusinessIndexById(businesses, businessId).value;
      assert twice[i] == once[i];
      assert twice == once;
    }
  }

  /**
   * Appending one review and refreshing its business keeps every business's
   * cache in agreement: the refreshed one is recomputed, and the others do
   * not see a review of another business.
   */
  lemma InsertThenRefreshAgrees(businesses: seq<Business>, reviews: seq<Review>, x: Review)
    requires UniqueBusinessIds(businesses)
    requires MetricsAgree(businesses, reviews)
    ensures MetricsAgree(RefreshedBusinesses(businesses, reviews + [x], x.businessId), reviews + [x])
  {
    var after := reviews + [x];
    var refreshed := RefreshedBusinesses(businesses, after, x.businessId);
    RefreshedBusinessesEffect(businesses, after, x.businessId);
    forall j | 0 <= j < |refreshed| ensures AgreesWith(refreshed[j], after) {
      var id := businesses[j].id;
      if id == x.businessId {
        BusinessIndexByIdUnique(businesses, id, j);
      } else {
        AggregateIgnoresOtherBusinesses(reviews, |reviews|, x, id);
        assert reviews[..|reviews|] + [x] + reviews[|reviews|..] == after;
        if BusinessIndexById(businesses, x.businessId).Some? {
          assert BusinessIndexById(businesses, x.businessId).value != j;
        }
        assert refreshed[j] == businesses[j];
        assert AgreesWith(businesses[j], reviews);
      }
    }
  }

  /** Appending an unscored review keeps the review table unscored. */
  lemma AppendUnscored(reviews: seq<Review>, x: Review)
    requires AllUnscored(reviews) && x.vibeScore.None?
    ensures AllUnscored(reviews + [x])
  {
  }

  /** With no scored review in the table, every cached aggregate is 0.0. */
  lemma UnscoredAggregatesZero(businesses: seq<Business>, reviews: seq<Review>)
    requires MetricsAgree(businesses, reviews)
    requires AllUnscored(reviews)
    ensures forall i :: 0 <= i < |businesses| ==> businesses[i].aggregatedVibeScore == 0.0
  {
  }

  /** A seeded catalogue with the column defaults (0.0 and 0) agrees with the empty review table. */
  lemma SeedAgrees(businesses: seq<Business>)
    requires forall i :: 0 <= i < |businesses| ==>
               businesses[i].aggregatedVibeScore == 0.0 && businesses[i].totalReviews == 0
    ensures MetricsAgree(businesses, [])
  {
  }
}
