/**
 * The `/credits` routes: reading the signed-in user's credit balance and adding a
 * positive number of credits to it. They work on the user object the request was
 * authenticated as, whose `credit_balance` is updated in place and committed.
 */
module CreditsRouter {
  import opened Wrappers
  import opened Text

  /** The authenticated user, as far as these routes see it. */
  class CurrentUser {
    var creditBalance: int

    constructor (creditBalance: int)
      ensures this.creditBalance == creditBalance
    {
      this.creditBalance := creditBalance;
    }
  }

  /** The body of `get_credit_balance`: `{"credit_balance": ...}`. */
  datatype BalanceBody = BalanceBody(creditBalance: int)

  /** The body of `add_credits`: `{"message": ..., "new_balance": ...}`. */
  datatype CreditsAdded = CreditsAdded(message: string, newBalance: int)

  const NonPositiveAmount := HttpError(400, "Credit amount must be positive")

  /** `f"Added {amount} credits"`: the digits between the two words read back as the amount. */
  function AddedMessage(amount: nat): (m: string)
    ensures |m| > 14 && m[..6] == "Added " && m[|m| - 8..] == " credits"
    ensures IsDigits(m[6..|m| - 8]) && DigitsValue(m[6..|m| - 8]) == amount
  {
    var digits := NatToString(amount);
    var m := "Added " + digits + " credits";
    assert m[6..|m| - 8] == digits;
    NatToStringValue(amount);
    m
  }

  /** `get_credit_balance`: the current balance, read without changing it. */
  method GetCreditBalance(user: CurrentUser) returns (r: BalanceBody)
    ensures r.creditBalance == user.creditBalance
  {
    r := BalanceBody(user.creditBalance);
  }

  /**
   * `add_credits`: an amount of zero or less is refused with 400 and the balance is
   * left as it was; otherwise the balance grows by exactly the amount, and the
   * response reports the amount and the new balance.
   */
  method AddCredits(user: CurrentUser, amount: int) returns (r: Result<CreditsAdded>)
    modifies user
    ensures amount <= 0 ==> r == Err(NonPositiveAmount) && user.creditBalance == old(user.creditBalance)
    ensures amount > 0 ==>
              && user.creditBalance == old(user.creditBalance) + amount
              && r == Ok(CreditsAdded(AddedMessage(amount), user.creditBalance))
  {
    if amount <= 0 {
      return Err(NonPositiveAmount);
    }
    user.creditBalance := user.creditBalance + amount;
    r := Ok(CreditsAdded(AddedMessage(amount), user.creditBalance));
  }
}
