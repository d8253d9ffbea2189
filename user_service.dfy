/**
 * Variant B's user lookups and registration: a user is found by Clerk id, and a
 * new user gets a credit balance of five in a second commit.
 */
module UserService {
  import opened Wrappers
  import opened Ordering
  import opened ClerkModels
  import opened ClerkDb

  function HasClerkId(clerkId: string): User -> bool {
    (u: User) => u.clerkId == clerkId
  }

  function OwnsBalance(userId: int): CreditBalance -> bool {
    (b: CreditBalance) => b.userId == userId
  }

  /**
   * `get_user_by_clerk_id`: the first user row with that Clerk id, or `None` when no
   * row has it.
   */
  function GetUserByClerkId(users: seq<User>, clerkId: string): (r: Option<User>)
    ensures r.None? <==> forall i :: 0 <= i < |users| ==> users[i].clerkId != clerkId
    ensures r.Some? ==> r.value in users && r.value.clerkId == clerkId
    ensures r.Some? ==> exists k :: 0 <= k < |users| && users[k] == r.value && forall j :: 0 <= j < k ==> users[j].clerkId != clerkId
  {
    match FirstIndex(users, HasClerkId(clerkId))
    case None => None
    case Some(k) => Some(users[k])
  }

  /** Index of the first balance row of the user, which is the row the services read and write. */
  function BalanceIndex(balances: seq<CreditBalance>, userId: int): (r: Option<nat>)
    ensures r.Some? ==> r.value < |balances| && balances[r.value].userId == userId
    ensures r.Some? ==> forall j :: 0 <= j < r.value ==> balances[j].userId != userId
    ensures r.None? ==> forall j :: 0 <= j < |balances| ==> balances[j].userId != userId
  {
    FirstIndex(balances, OwnsBalance(userId))
  }

  /** `get_credit_balance`: the user's balance row, or `None` when the user has none. */
  function GetCreditBalance(balances: seq<CreditBalance>, userId: int): (r: Option<CreditBalance>)
    ensures r.None? <==> forall j :: 0 <= j < |balances| ==> balances[j].userId != userId
    ensures r.Some? ==> r.value in balances && r.value.userId == userId
  {
    match BalanceIndex(balances, userId)
    case None => None
    case Some(k) => Some(balances[k])
  }

  /**
   * `create_user`: commits a user with the given Clerk id and email, then commits one
   * balance row of five credits for it, which is then the balance the services see.
   * A Clerk id not seen before now finds this user.
   */
  method CreateUser(db: Database, clerkId: string, email: string) returns (u: User)
    requires db.Valid()
    modifies db
    ensures db.Valid()
    ensures u == User(|old(db.users)| + 1, clerkId, email, old(db.clock))
    ensures db.users == old(db.users) + [u]
    ensures db.balances == old(db.balances) + [CreditBalance(|old(db.balances)| + 1, u.id, InitialBalance, old(db.clock) + 1)]
    ensures GetCreditBalance(db.balances, u.id) == Some(db.balances[|db.balances| - 1])
    ensures GetUserByClerkId(old(db.users), clerkId).None? ==> GetUserByClerkId(db.users, clerkId) == Some(u)
    ensures db.reviews == old(db.reviews) && db.notifications == old(db.notifications)
    ensures db.clock == old(db.clock) + 2
    ensures db.log == old(db.log) + [UserAdded(u.id), BalanceAdded(|old(db.balances)| + 1)]
  {
    u := db.AddUser(clerkId, email);
    var b := db.AddBalance(u.id, InitialBalance);
    FirstIndexIs(db.balances, OwnsBalance(u.id), |db.balances| - 1);
    if GetUserByClerkId(old(db.users), clerkId).None? {
      FirstIndexIs(db.users, HasClerkId(clerkId), |db.users| - 1);
    }
  }
}
