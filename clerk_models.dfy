/**
 * Record shapes of the Clerk-authenticated backend (variant B): users known by
 * their Clerk id, one credit balance row per user, CV reviews and notifications.
 * Field names follow the services that read and write them. Timestamps are ticks
 * of the database's logical clock (see ClerkDb).
 */
module ClerkModels {
  import opened Wrappers

  datatype User = User(id: nat, clerkId: string, email: string, createdAt: nat)

  datatype CreditBalance = CreditBalance(id: nat, userId: nat, balance: int, createdAt: nat)

  /** The `status` strings a review moves through. */
  datatype ReviewStatus = Pending | Processing | Completed | Failed

  function ReviewStatusValue(st: ReviewStatus): string {
    match st
    case Pending => "pending"
    case Processing => "processing"
    case Completed => "completed"
    case Failed => "failed"
  }

  datatype Review = Review(
    id: nat,
    userId: nat,
    cvFilename: string,
    cvContent: string,
    reviewContent: Option<string>,
    status: ReviewStatus,
    createdAt: nat,
    updatedAt: nat)

  /** The columns a review keeps from creation on. */
  predicate SameReview(a: Review, b: Review) {
    a.id == b.id && a.userId == b.userId && a.cvFilename == b.cvFilename
    && a.cvContent == b.cvContent && a.createdAt == b.createdAt
  }

  datatype Notification = Notification(
    id: nat,
    userId: nat,
    reviewId: int,
    message: string,
    isRead: bool,
    createdAt: nat)

  /** The columns a notification keeps from creation on: everything but the read flag. */
  predicate SameNotification(a: Notification, b: Notification) {
    a.id == b.id && a.userId == b.userId && a.reviewId == b.reviewId
    && a.message == b.message && a.createdAt == b.createdAt
  }

  function UserId(u: User): int { u.id }
  function BalanceId(b: CreditBalance): int { b.id }
  function ReviewId(r: Review): int { r.id }
  function NotificationId(n: Notification): int { n.id }
  function ReviewCreatedAt(r: Review): int { r.createdAt }
  function NotificationCreatedAt(n: Notification): int { n.createdAt }

  /** The balance a new user starts with. */
  const InitialBalance: int := 5

  const SubmittedMessage: string := "Your CV review request has been submitted and is pending processing."
  const ProcessingMessage: string := "Your CV review request is now being processed."
  const CompletedMessage: string := "Your CV review is now complete and ready to view."
  const FailedMessage: string := "Your CV review request failed to process. Please try again."
}
