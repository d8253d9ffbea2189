/**
 * Variant B's review service: creating a review (with its notification), the
 * per-user lookups, the fallback rule of `generate_cv_review`, and the background
 * step that moves a review to processing and then to completed or failed. The
 * Hugging Face call is not modelled; its outcome is an input (`HfReply`).
 */
module ReviewService {
  import opened Wrappers
  import opened Ordering
  import opened ClerkModels
  import opened ClerkDb
  import opened UserService
  import opened NotificationService

  /** What `client.text_generation` gave back: the generated text, or the message of the exception it raised. */
  datatype HfReply = Generated(text: string) | Raised(message: string)

  /**
   * What happens between the processing notification and the completion of
   * `process_review_request`: the generation answers, or an exception escapes
   * (from the session; `generate_cv_review` itself never raises).
   */
  datatype ReviewAttempt = Answered(reply: HfReply) | Interrupted(message: string)

  /** The shortest generated text that is kept instead of the mock review. */
  const MinReviewLength: nat := 100

  /** The lines of the fixed text `generate_mock_review` returns, each with its line break. */
  const MockLines: seq<string> := [
    "\n",
    "    # CV Review Feedback\n",
    "\n",
    "    Thank you for submitting your CV for review. Here's my professional feedback:\n",
    "\n",
    "    ## Overall Structure and Formatting\n",
    "    - Your CV has a clear structure, but consider using a more modern template\n",
    "    - Improve spacing between sections for better readability\n",
    "    - Use consistent formatting for dates and headings\n",
    "\n",
    "    ## Content and Relevance\n",
    "    - Your experience is well-described but could be more achievement-focused\n",
    "    - Consider adding quantifiable results to demonstrate impact\n",
    "    - Tailor your CV more specifically to the target role/industry\n",
    "\n",
    "    ## Skills and Qualifications\n",
    "    - Good range of technical skills listed\n",
    "    - Consider organizing skills by proficiency level\n",
    "    - Add any relevant certifications or continuous learning\n",
    "\n",
    "    ## Experience Description\n",
    "    - Use strong action verbs to begin each bullet point\n",
    "    - Focus more on achievements rather than responsibilities\n",
    "    - Quantify your impact where possible (e.g., increased efficiency by 20%)\n",
    "\n",
    "    ## Education Section\n",
    "    - Education section is well-structured\n",
    "    - Consider adding relevant coursework if you're a recent graduate\n",
    "    - Include any academic achievements or honors\n",
    "\n",
    "    ## Specific Improvements\n",
    "    - Add a professional summary at the beginning\n",
    "    - Include a LinkedIn profile and professional portfolio if available\n",
    "    - Proofread for any grammatical errors or typos\n",
    "    - Consider adding a section for projects or volunteer work\n",
    "\n",
    "    Overall, your CV has good content but needs refinement in presentation and focus on achievements. Implementing these suggestions will significantly improve your chances of getting interviews.\n",
    "    "
  ]

  /** The lines from `i` on, joined. */
  function JoinFrom(lines: seq<string>, i: nat): (r: string)
    requires i <= |lines|
    decreases |lines| - i
  {
    if i == |lines| then "" else lines[i] + JoinFrom(lines, i + 1)
  }

  /** The joined lines are at least as long as any one of them. */
  lemma {:induction false} JoinFromHoldsLine(lines: seq<string>, i: nat, j: nat)
    requires i <= j < |lines|
    ensures |JoinFrom(lines, i)| >= |lines[j]|
    decreases j - i
  {
    if i < j {
      JoinFromHoldsLine(lines, i + 1, j);
    }
  }

  /** The fixed text `generate_mock_review` returns, line breaks and indentation included. */
  const MockReview: string := JoinFrom(MockLines, 0)

  /** `generate_mock_review`: the fixed review, whatever the CV says. */
  function GenerateMockReview(cvContent: string): (r: string)
    ensures r == MockReview && |r| >= MinReviewLength
  {
    JoinFromHoldsLine(MockLines, 0, 36);
    MockReview
  }

  /**
   * `generate_cv_review` never raises and never returns less than 100 characters: a
   * generated text of at least 100 characters is returned as it is; an empty or
   * shorter one, or an exception, gives the mock review.
   */
  function GenerateCvReview(cvContent: string, reply: HfReply): (r: string)
    ensures |r| >= MinReviewLength
    ensures reply.Generated? && |reply.text| >= MinReviewLength ==> r == reply.text
    ensures !(reply.Generated? && |reply.text| >= MinReviewLength) ==> r == GenerateMockReview(cvContent)
  {
    match reply
    case Raised(_) => GenerateMockReview(cvContent)
    case Generated(text) =>
      if text == [] || |text| < MinReviewLength then GenerateMockReview(cvContent) else text
  }

  /**
   * `create_review`: for an unknown Clerk id, `None` and nothing written. Otherwise a
   * pending review with the given file name and content is committed, then one unread
   * notification about it.
   */
  method CreateReview(db: Database, cvFilename: string, cvContent: string, clerkId: string) returns (r: Option<Review>)
    requires db.Valid()
    modifies db
    ensures db.Valid()
    ensures db.users == old(db.users) && db.balances == old(db.balances)
    ensures r.None? <==> GetUserByClerkId(old(db.users), clerkId).None?
    ensures r.None? ==>
              && db.reviews == old(db.reviews) && db.notifications == old(db.notifications)
              && db.clock == old(db.clock) && db.log == old(db.log)
    ensures r.Some? ==>
              var u := GetUserByClerkId(old(db.users), clerkId).value;
              var n := Notification(|old(db.notifications)| + 1, u.id, r.value.id, SubmittedMessage, false, old(db.clock) + 1);
              && r.value == Review(|old(db.reviews)| + 1, u.id, cvFilename, cvContent, None, Pending, old(db.clock), old(db.clock))
              && db.reviews == old(db.reviews) + [r.value]
              && db.notifications == old(db.notifications) + [n]
              && db.clock == old(db.clock) + 2
              && db.log == old(db.log) + [ReviewAdded(r.value.id), NotificationAdded(n.id)]
  {
    var user := GetUserByClerkId(db.users, clerkId);
    if user.None? {
      return None;
    }
    var review := db.AddReview(user.value.id, cvFilename, cvContent);
    var n := CreateNotification(db, user.value.id, review.id, SubmittedMessage);
    r := Some(review);
  }

  function ReviewedBy(userId: int): Review -> bool {
    (r: Review) => r.userId == userId
  }

  /** `get_reviews_by_user`: the user's reviews, newest first; empty for an unknown Clerk id. */
  function GetReviewsByUser(users: seq<User>, reviews: seq<Review>, clerkId: string): (r: seq<Review>)
    ensures GetUserByClerkId(users, clerkId).None? ==> r == []
    ensures forall i :: 0 <= i < |r| ==> r[i] in reviews && r[i].userId == GetUserByClerkId(users, clerkId).value.id
    ensures GetUserByClerkId(users, clerkId).Some? ==>
              forall i :: 0 <= i < |reviews| && reviews[i].userId == GetUserByClerkId(users, clerkId).value.id ==> reviews[i] in r
    ensures SortedDesc(r, ReviewCreatedAt)
  {
    match GetUserByClerkId(users, clerkId)
    case None => []
    case Some(u) =>
      var mine := Filter(reviews, ReviewedBy(u.id));
      var sorted := SortDesc(mine, ReviewCreatedAt);
      SortDescSameRows(mine, ReviewCreatedAt);
      sorted
  }

  /** Reviews are stamped in table order, so newest first is the user's reviews read backwards. */
  lemma ReviewsNewestFirst(users: seq<User>, reviews: seq<Review>, clerkId: string)
    requires Increasing(reviews, ReviewCreatedAt) && GetUserByClerkId(users, clerkId).Some?
    ensures GetReviewsByUser(users, reviews, clerkId) == Reverse(Filter(reviews, ReviewedBy(GetUserByClerkId(users, clerkId).value.id)))
  {
    var u := GetUserByClerkId(users, clerkId).value;
    FilterIncreasing(reviews, ReviewedBy(u.id), ReviewCreatedAt);
    SortDescOfIncreasing(Filter(reviews, ReviewedBy(u.id)), ReviewCreatedAt);
  }

  function IsOwnReview(reviewId: int, userId: int): Review -> bool {
    (r: Review) => r.id == reviewId && r.userId == userId
  }

  /**
   * `get_review_by_id`: the review with that id if it belongs to the user with that
   * Clerk id; `None` for an unknown Clerk id, a missing id or someone else's review.
   */
  function GetReviewById(users: seq<User>, reviews: seq<Review>, reviewId: int, clerkId: string): (r: Option<Review>)
    ensures r.Some? ==> && r.value in reviews && r.value.id == reviewId
                        && GetUserByClerkId(users, clerkId).Some?
                        && r.value.userId == GetUserByClerkId(users, clerkId).value.id
    ensures r.None? <==>
              || GetUserByClerkId(users, clerkId).None?
              || forall i :: 0 <= i < |reviews| ==> !(reviews[i].id == reviewId && reviews[i].userId == GetUserByClerkId(users, clerkId).value.id)
  {
    match GetUserByClerkId(users, clerkId)
    case None => None
    case Some(u) =>
      match FirstIndex(reviews, IsOwnReview(reviewId, u.id))
      case None => None
      case Some(k) => Some(reviews[k])
  }

  /**
   * A review concluded at `now`: completed with the text, when there is one, or
   * failed with its earlier text kept.
   */
  function Concluded(r: Review, text: Option<string>, now: nat): (f: Review)
    ensures SameReview(f, r) && f.updatedAt == now
    ensures text.Some? ==> f.status == Completed && f.reviewContent == text
    ensures text.None? ==> f.status == Failed && f.reviewContent == r.reviewContent
  {
    match text
    case Some(_) => r.(reviewContent := text, status := Completed, updatedAt := now)
    case None => r.(status := Failed, updatedAt := now)
  }

  /** The review text an attempt produces: the generated or mock review, or none when processing was interrupted. */
  function AttemptText(cvContent: string, attempt: ReviewAttempt): (t: Option<string>)
    ensures attempt.Answered? ==> t == Some(GenerateCvReview(cvContent, attempt.reply)) && |t.value| >= MinReviewLength
    ensures attempt.Interrupted? ==> t.None?
  {
    match attempt
    case Answered(reply) => Some(GenerateCvReview(cvContent, reply))
    case Interrupted(_) => None
  }

  /** The review as `process_review_request` leaves it, given the time of its last update. */
  function FinishedReview(r: Review, attempt: ReviewAttempt, now: nat): (f: Review)
    ensures SameReview(f, r) && f.updatedAt == now
    ensures attempt.Answered? ==>
              f.status == Completed && f.reviewContent == Some(GenerateCvReview(r.cvContent, attempt.reply))
              && |f.reviewContent.value| >= MinReviewLength
    ensures attempt.Interrupted? ==> f.status == Failed && f.reviewContent == r.reviewContent
  {
    Concluded(r, AttemptText(r.cvContent, attempt), now)
  }

  /** The message of the notification that reports how processing ended. */
  function OutcomeMessage(attempt: ReviewAttempt): (m: string)
    ensures attempt.Answered? ==> m == CompletedMessage
    ensures attempt.Interrupted? ==> m == FailedMessage
  {
    if attempt.Answered? then CompletedMessage else FailedMessage
  }

  /**
   * `process_review_request`. An unknown review id changes nothing. Otherwise,
   * whatever the review's status was, it is committed as processing with a
   * notification saying so, and then committed as completed (with the generated or
   * mock review) or failed, with a second notification; nothing is refunded.
   */
  method ProcessReviewRequest(db: Database, reviewId: int, attempt: ReviewAttempt)
    requires db.Valid()
    modifies db
    ensures db.Valid()
    ensures db.users == old(db.users) && db.balances == old(db.balances)
    ensures !(1 <= reviewId <= |old(db.reviews)|) ==>
              && db.reviews == old(db.reviews) && db.notifications == old(db.notifications)
              && db.clock == old(db.clock) && db.log == old(db.log)
    ensures 1 <= reviewId <= |old(db.reviews)| ==>
              var r := old(db.reviews[reviewId - 1]);
              var t := old(db.clock);
              var done := FinishedReview(r, attempt, t + 2);
              var n1 := Notification(|old(db.notifications)| + 1, r.userId, reviewId, ProcessingMessage, false, t + 1);
              var n2 := Notification(|old(db.notifications)| + 2, r.userId, reviewId, OutcomeMessage(attempt), false, t + 3);
              && db.reviews == old(db.reviews)[reviewId - 1 := done]
              && db.notifications == old(db.notifications) + [n1, n2]
              && db.clock == t + 4
              && db.log == old(db.log) + [ReviewUpdated(reviewId, Processing), NotificationAdded(n1.id),
                                          ReviewUpdated(reviewId, done.status), NotificationAdded(n2.id)]
  {
    if !(1 <= reviewId <= |db.reviews|) {
      return;
    }
    StartProcessing(db, reviewId);
    var text := AttemptText(db.reviews[reviewId - 1].cvContent, attempt);
    EndProcessing(db, reviewId, text);
  }

  /** The first half of `process_review_request`: the review is committed as processing, then the user is told. */
  method StartProcessing(db: Database, reviewId: int)
    requires db.Valid() && 1 <= reviewId <= |db.reviews|
    modifies db
    ensures db.Valid()
    ensures db.users == old(db.users) && db.balances == old(db.balances)
    ensures db.reviews == old(db.reviews)[reviewId - 1 := old(db.reviews[reviewId - 1]).(status := Processing, updatedAt := old(db.clock))]
    ensures db.notifications == old(db.notifications)
              + [Notification(|old(db.notifications)| + 1, old(db.reviews[reviewId - 1]).userId, reviewId, ProcessingMessage, false, old(db.clock) + 1)]
    ensures db.clock == old(db.clock) + 2
    ensures db.log == old(db.log) + [ReviewUpdated(reviewId, Processing), NotificationAdded(|old(db.notifications)| + 1)]
  {
    var review := db.reviews[reviewId - 1];
    var now := db.Now();
    review := review.(status := Processing, updatedAt := now);
    CommitAndNotify(db, review, ProcessingMessage);
  }

  /**
   * The second half of `process_review_request`: the review is committed as completed
   * with the text, or as failed when there is none, then the user is told.
   */
  method EndProcessing(db: Database, reviewId: int, text: Option<string>)
    requires db.Valid() && 1 <= reviewId <= |db.reviews|
    modifies db
    ensures db.Valid()
    ensures db.users == old(db.users) && db.balances == old(db.balances)
    ensures db.reviews == old(db.reviews)[reviewId - 1 := Concluded(old(db.reviews[reviewId - 1]), text, old(db.clock))]
    ensures db.notifications == old(db.notifications)
              + [Notification(|old(db.notifications)| + 1, old(db.reviews[reviewId - 1]).userId, reviewId,
                              if text.Some? then CompletedMessage else FailedMessage, false, old(db.clock) + 1)]
    ensures db.clock == old(db.clock) + 2
    ensures db.log == old(db.log)
              + [ReviewUpdated(reviewId, if text.Some? then Completed else Failed), NotificationAdded(|old(db.notifications)| + 1)]
  {
    var review := db.reviews[reviewId - 1];
    var now := db.Now();
    // The `try` body on success, its `except` branch on an exception: both commit the
    // review and then notify.
    var done := Concluded(review, text, now);
    CommitAndNotify(db, done, if text.Some? then CompletedMessage else FailedMessage);
  }

  /** `db.commit()` of a changed review, then a notification about it to its owner. */
  method CommitAndNotify(db: Database, r: Review, message: string)
    requires db.Valid() && 1 <= r.id <= |db.reviews| && r.createdAt == db.reviews[r.id - 1].createdAt
    modifies db
    ensures db.Valid()
    ensures db.users == old(db.users) && db.balances == old(db.balances)
    ensures db.reviews == old(db.reviews)[r.id - 1 := r]
    ensures db.notifications == old(db.notifications) + [Notification(|old(db.notifications)| + 1, r.userId, r.id, message, false, old(db.clock))]
    ensures db.clock == old(db.clock) + 1
    ensures db.log == old(db.log) + [ReviewUpdated(r.id, r.status), NotificationAdded(|old(db.notifications)| + 1)]
  {
    db.SetReview(r);
    var n := CreateNotification(db, r.userId, r.id, message);
  }
}
