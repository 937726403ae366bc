/** The count-and-sum part of `getFeedbackStats`. The average shown to the user,
    `(sum / count).toFixed(1)`, is floating-point formatting and is not part of this model. */
module Feedback {

  /** A submitted feedback: a star rating, a comment and the submission time. */
  datatype Feedback = Feedback(rating: int, comment: string, date: int)

  /** `{ avg, count }` with the average kept as the exact pair `sum` over `count`. For no
      feedback the source reports `avg: 0`, which is `sum == 0` here. */
  datatype FeedbackStats = FeedbackStats(sum: int, count: nat)

  /** `feedbacks.reduce((acc, curr) => acc + curr.rating, 0)`, folding from the left. With
      every rating between 1 and 5 stars the sum lies between the count and five times
      the count. */
  function RatingSum(fs: seq<Feedback>): (r: int)
    ensures (forall i :: 0 <= i < |fs| ==> 1 <= fs[i].rating <= 5) ==> |fs| <= r <= 5 * |fs|
  {
    if fs == [] then 0 else RatingSum(fs[..|fs| - 1]) + fs[|fs| - 1].rating
  }

  /** `getFeedbackStats`: nothing for an empty list, otherwise the rating sum and count.
      With ratings from 1 to 5 stars the average `sum / count` lies between 1 and 5. */
  function FeedbackStatsOf(fs: seq<Feedback>): (r: FeedbackStats)
    ensures r.count == |fs|
    ensures r.sum == RatingSum(fs)
    ensures fs == [] ==> r == FeedbackStats(0, 0)
    ensures (forall i :: 0 <= i < |fs| ==> 1 <= fs[i].rating <= 5) ==> r.count <= r.sum <= 5 * r.count
  {
    if |fs| == 0 then FeedbackStats(0, 0) else FeedbackStats(RatingSum(fs), |fs|)
  }

  /** The sum of a concatenation is the sum of its parts: appending feedback adds its
      ratings to the total and never changes the earlier ones. */
  lemma {:induction false} RatingSumAppend(a: seq<Feedback>, b: seq<Feedback>)
    ensures RatingSum(a + b) == RatingSum(a) + RatingSum(b)
  {
    if b == [] {
      assert a + b == a;
    } else {
      var n := |b| - 1;
      assert (a + b)[..|a + b| - 1] == a + b[..n];
      assert (a + b)[|a + b| - 1] == b[n];
      RatingSumAppend(a, b[..n]);
    }
  }

  /** The two examples of the statistics: 4 and 5 stars give a sum of 9 over 2 (an average
      of 4.5), and no feedback gives zero and zero. */
  lemma FeedbackStatsExamples()
    ensures FeedbackStatsOf([Feedback(4, "", 0), Feedback(5, "", 0)]) == FeedbackStats(9, 2)
    ensures FeedbackStatsOf([]) == FeedbackStats(0, 0)
  {
    var fs := [Feedback(4, "", 0), Feedback(5, "", 0)];
    assert fs[..1] == [fs[0]] && fs[..1][..0] == [];
    assert RatingSum(fs[..1]) == 4;
    assert RatingSum(fs) == 9;
  }
}
