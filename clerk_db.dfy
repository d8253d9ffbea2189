/**
 * The SQLAlchemy session of variant B as in-memory tables, on the same terms as
 * variant A's: ids 1, 2, 3, ... in insertion order, no deletes, a logical clock
 * for `datetime.utcnow()`, and a log of commits.
 */
module ClerkDb {
  import opened Wrappers
  import opened Ordering
  import opened ClerkModels

  /** One `db.commit()`, named by what it made durable. */
  datatype Commit =
    | UserAdded(userId: nat)
    | BalanceAdded(balanceId: nat)
    | BalanceChanged(balanceId: nat, balance: int)
    | ReviewAdded(reviewId: nat)
    | ReviewUpdated(reviewId: nat, status: ReviewStatus)
    | NotificationAdded(notificationId: nat)
    | NotificationRead(readId: int)
    | AllNotificationsRead(userId: nat)

  class Database {
    var users: seq<User>
    var balances: seq<CreditBalance>
    var reviews: seq<Review>
    var notifications: seq<Notification>
    var clock: nat
    ghost var log: seq<Commit>

    ghost predicate Valid()
      reads this
    {
      && Numbered(users, UserId)
      && Numbered(balances, BalanceId)
      && Numbered(reviews, ReviewId)
      && Numbered(notifications, NotificationId)
      && (forall i :: 0 <= i < |balances| ==> 1 <= balances[i].userId <= |users|)
      && Increasing(reviews, ReviewCreatedAt)
      && (forall i :: 0 <= i < |reviews| ==> reviews[i].createdAt < clock)
      && Increasing(notifications, NotificationCreatedAt)
      && (forall i :: 0 <= i < |notifications| ==> notifications[i].createdAt < clock)
    }

    /** An empty database. */
    constructor ()
      ensures Valid()
      ensures users == [] && balances == [] && reviews == [] && notifications == [] && clock == 0 && log == []
    {
      users := [];
      balances := [];
      reviews := [];
      notifications := [];
      clock := 0;
      log := [];
    }

    /** `datetime.utcnow()`: the current time, after which the clock has moved on. */
    method Now() returns (t: nat)
      requires Valid()
      modifies this
      ensures Valid()
      ensures t == old(clock) && clock == old(clock) + 1
      ensures users == old(users) && balances == old(balances) && reviews == old(reviews)
      ensures notifications == old(notifications) && log == old(log)
    {
      t := clock;
      clock := clock + 1;
    }

    /** `db.add(User(...))` and commit. */
    method AddUser(clerkId: string, email: string) returns (u: User)
      requires Valid()
      modifies this
      ensures Valid()
      ensures u == User(|old(users)| + 1, clerkId, email, old(clock))
      ensures users == old(users) + [u] && clock == old(clock) + 1
      ensures balances == old(balances) && reviews == old(reviews) && notifications == old(notifications)
      ensures log == old(log) + [UserAdded(u.id)]
    {
      var now := Now();
      u := User(|users| + 1, clerkId, email, now);
      users := users + [u];
      log := log + [UserAdded(u.id)];
    }

    /** `db.add(CreditBalance(...))` for an existing user, and commit. */
    method AddBalance(userId: nat, balance: int) returns (b: CreditBalance)
      requires Valid() && 1 <= userId <= |users|
      modifies this
      ensures Valid()
      ensures b == CreditBalance(|old(balances)| + 1, userId, balance, old(clock))
      ensures balances == old(balances) + [b] && clock == old(clock) + 1
      ensures users == old(users) && reviews == old(reviews) && notifications == old(notifications)
      ensures log == old(log) + [BalanceAdded(b.id)]
    {
      var now := Now();
      b := CreditBalance(|balances| + 1, userId, balance, now);
      balances := balances + [b];
      log := log + [BalanceAdded(b.id)];
    }

    /** Sets the amount of the balance row at index `k` and commits. */
    method SetBalance(k: nat, balance: int)
      requires Valid() && k < |balances|
      modifies this
      ensures Valid()
      ensures balances == old(balances)[k := old(balances[k]).(balance := balance)]
      ensures users == old(users) && reviews == old(reviews) && notifications == old(notifications)
      ensures clock == old(clock)
      ensures log == old(log) + [BalanceChanged(k + 1, balance)]
    {
      balances := balances[k := balances[k].(balance := balance)];
      log := log + [BalanceChanged(k + 1, balance)];
    }

    /** `db.add(Review(...))` for a new pending review, and commit. */
    method AddReview(userId: nat, cvFilename: string, cvContent: string) returns (r: Review)
      requires Valid()
      modifies this
      ensures Valid()
      ensures r == Review(|old(reviews)| + 1, userId, cvFilename, cvContent, None, Pending, old(clock), old(clock))
      ensures reviews == old(reviews) + [r] && clock == old(clock) + 1
      ensures users == old(users) && balances == old(balances) && notifications == old(notifications)
      ensures log == old(log) + [ReviewAdded(r.id)]
    {
      var now := Now();
      r := Review(|reviews| + 1, userId, cvFilename, cvContent, None, Pending, now, now);
      reviews := reviews + [r];
      log := log + [ReviewAdded(r.id)];
    }

    /** Writes back a review row under its own id and commits. */
    method SetReview(r: Review)
      requires Valid() && 1 <= r.id <= |reviews| && r.createdAt == reviews[r.id - 1].createdAt
      modifies this
      ensures Valid()
      ensures reviews == old(reviews)[r.id - 1 := r]
      ensures users == old(users) && balances == old(balances) && notifications == old(notifications)
      ensures clock == old(clock)
      ensures log == old(log) + [ReviewUpdated(r.id, r.status)]
    {
      reviews := reviews[r.id - 1 := r];
      log := log + [ReviewUpdated(r.id, r.status)];
    }

    /** `db.add(Notification(...))`, unread, and commit. */
    method AddNotification(userId: nat, reviewId: int, message: string) returns (n: Notification)
      requires Valid()
      modifies this
      ensures Valid()
      ensures n == Notification(|old(notifications)| + 1, userId, reviewId, message, false, old(clock))
      ensures notifications == old(notifications) + [n] && clock == old(clock) + 1
      ensures users == old(users) && balances == old(balances) && reviews == old(reviews)
      ensures log == old(log) + [NotificationAdded(n.id)]
    {
      var now := Now();
      n := Notification(|notifications| + 1, userId, reviewId, message, false, now);
      notifications := notifications + [n];
      log := log + [NotificationAdded(n.id)];
    }

    /** Sets the read flag of the notification at index `k`, without committing. */
    method SetRead(k: nat)
      requires Valid() && k < |notifications|
      modifies this
      ensures Valid()
      ensures notifications == old(notifications)[k := old(notifications[k]).(isRead := true)]
      ensures users == old(users) && balances == old(balances) && reviews == old(reviews)
      ensures clock == old(clock) && log == old(log)
    {
      notifications := notifications[k := notifications[k].(isRead := true)];
    }
  }
}
