/**
 * Variant B's `/reviews` routes: submitting a CV for review (decode, debit one
 * credit, create the review, schedule its processing), listing the user's reviews
 * and fetching one of them.
 */
module ReviewsRouter {
  import opened Wrappers
  import opened Ordering
  import opened ClerkModels
  import opened ClerkDb
  import opened UserService
  import opened CreditService
  import opened ReviewService

  /** An exception that escapes a route: FastAPI answers 500 with this body. */
  const InternalError := HttpError(500, "Internal Server Error")
  const InsufficientCredits := HttpError(402, "Insufficient credits")
  const ReviewNotFound := HttpError(404, "Review not found")

  /**
   * The 201 response of `submit_review_request`: the new review, together with the
   * review id the background `process_review_request` task was scheduled with.
   */
  datatype Submitted = Submitted(review: Review, scheduledReviewId: nat)

  /** The body of `get_user_reviews`: `{"reviews": [...]}`. */
  datatype ReviewList = ReviewList(reviews: seq<Review>)

  /** What a successful submission leaves behind: the pending review and the notification about it. */
  function SubmittedReview(userId: nat, reviewId: nat, filename: string, content: string, now: nat): (r: Review)
    ensures r.id == reviewId && r.userId == userId && r.status == Pending && r.reviewContent == None
    ensures r.cvFilename == filename && r.cvContent == content && r.createdAt == now && r.updatedAt == now
  {
    Review(reviewId, userId, filename, content, None, Pending, now, now)
  }

  /**
   * `submit_review_request`. The upload's bytes are `content`, already decoded:
   * `None` when they are not UTF-8, which raises before anything is written.
   * Credits are then checked and debited (402 and nothing written when there is no
   * credit to take); only after the debit is committed is the review created, and
   * its processing scheduled under its id. Nothing refunds the credit later.
   */
  method SubmitReviewRequest(db: Database, clerkId: string, filename: string, content: Option<string>)
    returns (r: Result<Submitted>)
    requires db.Valid()
    modifies db
    ensures db.Valid()
    ensures db.users == old(db.users)
    ensures content.None? ==> r == Err(InternalError)
    ensures content.Some? && DeductTarget(old(db.users), old(db.balances), clerkId).None? ==> r == Err(InsufficientCredits)
    ensures r.Err? ==>
              && db.balances == old(db.balances) && db.reviews == old(db.reviews)
              && db.notifications == old(db.notifications) && db.clock == old(db.clock) && db.log == old(db.log)
    ensures r.Ok? <==> content.Some? && DeductTarget(old(db.users), old(db.balances), clerkId).Some?
    ensures r.Ok? ==>
              var u := GetUserByClerkId(old(db.users), clerkId).value;
              var k := DeductTarget(old(db.users), old(db.balances), clerkId).value;
              var review := SubmittedReview(u.id, |old(db.reviews)| + 1, filename, content.value, old(db.clock));
              var n := Notification(|old(db.notifications)| + 1, u.id, review.id, SubmittedMessage, false, old(db.clock) + 1);
              && r.value == Submitted(review, review.id)
              && db.balances == AfterDeduct(old(db.users), old(db.balances), clerkId)
              && db.reviews == old(db.reviews) + [review]
              && db.notifications == old(db.notifications) + [n]
              && db.clock == old(db.clock) + 2
              && db.log == old(db.log) + [BalanceChanged(k + 1, old(db.balances[k].balance) - 1), ReviewAdded(review.id), NotificationAdded(n.id)]
  {
    if content.None? {
      return Err(InternalError);
    }
    r := DebitThenReview(db, clerkId, filename, content.value);
  }

  /** The part of `submit_review_request` after the upload was decoded: debit, then create. */
  method DebitThenReview(db: Database, clerkId: string, filename: string, content: string)
    returns (r: Result<Submitted>)
    requires db.Valid()
    modifies db
    ensures db.Valid()
    ensures db.users == old(db.users)
    ensures r.Err? ==>
              && r == Err(InsufficientCredits)
              && db.balances == old(db.balances) && db.reviews == old(db.reviews)
              && db.notifications == old(db.notifications) && db.clock == old(db.clock) && db.log == old(db.log)
    ensures r.Ok? <==> DeductTarget(old(db.users), old(db.balances), clerkId).Some?
    ensures r.Ok? ==>
              var u := GetUserByClerkId(old(db.users), clerkId).value;
              var k := DeductTarget(old(db.users), old(db.balances), clerkId).value;
              var review := SubmittedReview(u.id, |old(db.reviews)| + 1, filename, content, old(db.clock));
              var n := Notification(|old(db.notifications)| + 1, u.id, review.id, SubmittedMessage, false, old(db.clock) + 1);
              && r.value == Submitted(review, review.id)
              && db.balances == AfterDeduct(old(db.users), old(db.balances), clerkId)
              && db.reviews == old(db.reviews) + [review]
              && db.notifications == old(db.notifications) + [n]
              && db.clock == old(db.clock) + 2
              && db.log == old(db.log) + [BalanceChanged(k + 1, old(db.balances[k].balance) - 1), ReviewAdded(review.id), NotificationAdded(n.id)]
  {
    var hasCredits := CheckAndDeductCredits(db, clerkId);
    if !hasCredits {
      return Err(InsufficientCredits);
    }
    // The debit found the user, and it leaves the users alone.
    var review := CreateReview(db, filename, content, clerkId);
    r := Ok(Submitted(review.value, review.value.id));
  }

  /** `get_user_reviews`: the user's reviews, newest first, under "reviews". */
  function GetUserReviews(users: seq<User>, reviews: seq<Review>, clerkId: string): (r: ReviewList)
    ensures GetUserByClerkId(users, clerkId).None? ==> r.reviews == []
    ensures GetUserByClerkId(users, clerkId).Some? ==>
              var userId := GetUserByClerkId(users, clerkId).value.id;
              && (forall i :: 0 <= i < |r.reviews| ==> r.reviews[i] in reviews && r.reviews[i].userId == userId)
              && (forall i :: 0 <= i < |reviews| && reviews[i].userId == userId ==> reviews[i] in r.reviews)
    ensures SortedDesc(r.reviews, ReviewCreatedAt)
  {
    ReviewList(GetReviewsByUser(users, reviews, clerkId))
  }

  /**
   * `get_review`: the review, or 404 "Review not found" when no review with that id
   * belongs to the user (a missing id and someone else's review look the same).
   */
  function GetReview(users: seq<User>, reviews: seq<Review>, reviewId: int, clerkId: string): (r: Result<Review>)
    ensures r.Err? ==> r.error == ReviewNotFound
    ensures r.Ok? <==>
              && GetUserByClerkId(users, clerkId).Some?
              && exists i :: 0 <= i < |reviews| && reviews[i].id == reviewId && reviews[i].userId == GetUserByClerkId(users, clerkId).value.id
    ensures r.Ok? ==> r.value in reviews && r.value.id == reviewId && r.value.userId == GetUserByClerkId(users, clerkId).value.id
  {
    match GetReviewById(users, reviews, reviewId, clerkId)
    case None => Err(ReviewNotFound)
    case Some(review) => Ok(review)
  }
}
