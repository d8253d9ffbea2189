/**
 * Variant B's credit service: debit one credit when the user has at least one,
 * and add any amount to a user's balance. Neither writes a transaction record.
 */
module CreditService {
  import opened Wrappers
  import opened Ordering
  import opened ClerkModels
  import opened ClerkDb
  import opened UserService

  /**
   * The balance row `check_and_deduct_credits` debits: the first balance row of the
   * user with that Clerk id, provided the user and the row exist and it holds at
   * least one credit.
   */
  function DeductTarget(users: seq<User>, balances: seq<CreditBalance>, clerkId: string): (r: Option<nat>)
    ensures r.Some? ==> r.value < |balances| && balances[r.value].balance >= 1
    ensures r.Some? <==>
              && GetUserByClerkId(users, clerkId).Some?
              && GetCreditBalance(balances, GetUserByClerkId(users, clerkId).value.id).Some?
              && GetCreditBalance(balances, GetUserByClerkId(users, clerkId).value.id).value.balance >= 1
    ensures r.Some? ==> r == BalanceIndex(balances, GetUserByClerkId(users, clerkId).value.id)
  {
    match GetUserByClerkId(users, clerkId)
    case None => None
    case Some(u) =>
      match BalanceIndex(balances, u.id)
      case None => None
      case Some(k) => if balances[k].balance < 1 then None else Some(k)
  }

  /**
   * The balance rows after `check_and_deduct_credits`: unchanged when it answers
   * False; otherwise exactly one row has one credit fewer, and that row was at least
   * one, so it is not negative afterwards.
   */
  function AfterDeduct(users: seq<User>, balances: seq<CreditBalance>, clerkId: string): (r: seq<CreditBalance>)
    ensures |r| == |balances|
    ensures DeductTarget(users, balances, clerkId).None? ==> r == balances
    ensures DeductTarget(users, balances, clerkId).Some? ==>
              var k := DeductTarget(users, balances, clerkId).value;
              && r[k].balance == balances[k].balance - 1 && r[k].balance >= 0
              && r[k].id == balances[k].id && r[k].userId == balances[k].userId
              && forall i :: 0 <= i < |balances| && i != k ==> r[i] == balances[i]
  {
    match DeductTarget(users, balances, clerkId)
    case None => balances
    case Some(k) => balances[k := balances[k].(balance := balances[k].balance - 1)]
  }

  function Balance(b: CreditBalance): int { b.balance }

  /** A successful debit takes exactly one credit out of all balances together. */
  lemma DeductTakesOne(users: seq<User>, balances: seq<CreditBalance>, clerkId: string)
    requires DeductTarget(users, balances, clerkId).Some?
    ensures SumInt(AfterDeduct(users, balances, clerkId), Balance) == SumInt(balances, Balance) - 1
  {
    var k := DeductTarget(users, balances, clerkId).value;
    SumIntUpdate(balances, k, balances[k].(balance := balances[k].balance - 1), Balance);
  }

  /**
   * `check_and_deduct_credits`: False, with nothing written, for an unknown Clerk id,
   * a missing balance row or a balance below one; otherwise the debit of AfterDeduct,
   * committed, and True.
   */
  method CheckAndDeductCredits(db: Database, clerkId: string) returns (ok: bool)
    requires db.Valid()
    modifies db
    ensures db.Valid()
    ensures ok <==> DeductTarget(old(db.users), old(db.balances), clerkId).Some?
    ensures db.balances == AfterDeduct(old(db.users), old(db.balances), clerkId)
    ensures db.users == old(db.users) && db.reviews == old(db.reviews) && db.notifications == old(db.notifications)
    ensures db.clock == old(db.clock)
    ensures !ok ==> db.log == old(db.log)
    ensures ok ==>
              var k := DeductTarget(old(db.users), old(db.balances), clerkId).value;
              db.log == old(db.log) + [BalanceChanged(k + 1, db.balances[k].balance)]
  {
    var user := GetUserByClerkId(db.users, clerkId);
    if user.None? {
      return false;
    }
    var k := BalanceIndex(db.balances, user.value.id);
    if k.None? || db.balances[k.value].balance < 1 {
      return false;
    }
    db.SetBalance(k.value, db.balances[k.value].balance - 1);
    ok := true;
  }

  /**
   * The balance rows after `add_credits`: unchanged when the user has no balance row;
   * otherwise exactly the user's row has `amount` more.
   */
  function AfterAdd(balances: seq<CreditBalance>, userId: int, amount: int): (r: seq<CreditBalance>)
    ensures |r| == |balances|
    ensures BalanceIndex(balances, userId).None? ==> r == balances
    ensures BalanceIndex(balances, userId).Some? ==>
              var k := BalanceIndex(balances, userId).value;
              && r[k] == balances[k].(balance := balances[k].balance + amount)
              && forall i :: 0 <= i < |balances| && i != k ==> r[i] == balances[i]
  {
    match BalanceIndex(balances, userId)
    case None => balances
    case Some(k) => balances[k := balances[k].(balance := balances[k].balance + amount)]
  }

  /** Adding back the one credit a debit took restores every balance row. */
  lemma AddUndoesDeduct(users: seq<User>, balances: seq<CreditBalance>, clerkId: string)
    requires DeductTarget(users, balances, clerkId).Some?
    ensures AfterAdd(AfterDeduct(users, balances, clerkId), GetUserByClerkId(users, clerkId).value.id, 1) == balances
  {
    var u := GetUserByClerkId(users, clerkId).value;
    var k := DeductTarget(users, balances, clerkId).value;
    var debited := AfterDeduct(users, balances, clerkId);
    FirstIndexIs(debited, OwnsBalance(u.id), k);
  }

  /**
   * `add_credits`: `None`, with nothing written, when the user has no balance row;
   * otherwise the row with `amount` added, committed and returned. The amount is not
   * checked here.
   */
  method AddCredits(db: Database, userId: int, amount: int) returns (r: Option<CreditBalance>)
    requires db.Valid()
    modifies db
    ensures db.Valid()
    ensures r.None? <==> GetCreditBalance(old(db.balances), userId).None?
    ensures db.balances == AfterAdd(old(db.balances), userId, amount)
    ensures r.Some? ==> r.value.balance == GetCreditBalance(old(db.balances), userId).value.balance + amount
    ensures r.Some? ==> r == GetCreditBalance(db.balances, userId)
    ensures db.users == old(db.users) && db.reviews == old(db.reviews) && db.notifications == old(db.notifications)
    ensures db.clock == old(db.clock)
    ensures r.None? ==> db.log == old(db.log)
    ensures r.Some? ==> db.log == old(db.log) + [BalanceChanged(r.value.id, r.value.balance)]
  {
    var k := BalanceIndex(db.balances, userId);
    if k.None? {
      return None;
    }
    db.SetBalance(k.value, db.balances[k.value].balance + amount);
    FirstIndexIs(db.balances, OwnsBalance(userId), k.value);
    r := Some(db.balances[k.value]);
  }
}
