/**
 * The SQLModel session of variant A as in-memory tables. Rows get the ids
 * 1, 2, 3, ... in insertion order and the core never deletes, so the row with
 * id `i` sits at index `i - 1`. `clock` stands for `datetime.utcnow()`: every
 * timestamped insert or update reads it and moves it on, so timestamps are
 * distinct and grow with insertion order. `log` records each `commit()`.
 */
module SqlDb {
  import opened Wrappers
  import opened Ordering
  import opened SqlModels

  /** One `db.commit()`, named by what it made durable. */
  datatype Commit =
    | UserAdded(userId: nat)
    | SubmissionAdded(submissionId: nat)
    | CreditsDebited(userId: nat, transactionId: nat)
    | SubmissionUpdated(submissionId: nat, status: SubmissionStatus)

  predicate UsersNumbered(us: seq<User>) {
    forall i :: 0 <= i < |us| ==> us[i].id == i + 1
  }

  predicate SubmissionsNumbered(ss: seq<Submission>) {
    forall i :: 0 <= i < |ss| ==> ss[i].id == i + 1
  }

  predicate TransactionsNumbered(ts: seq<CreditTransaction>) {
    forall i :: 0 <= i < |ts| ==> ts[i].id == i + 1
  }

  /** `db.get(Submission, id)`: the row whose primary key is `id`, if any. */
  function GetSubmissionRow(ss: seq<Submission>, id: int): (r: Option<Submission>)
    requires SubmissionsNumbered(ss)
    ensures r.Some? ==> r.value in ss && r.value.id == id
    ensures r.None? ==> forall i :: 0 <= i < |ss| ==> ss[i].id != id
  {
    if 1 <= id <= |ss| then Some(ss[id - 1]) else None
  }

  /** Net credits a user's transactions record: `sum(t.amount for t in user.credit_transactions)`. */
  function TransactionTotal(ts: seq<CreditTransaction>, userId: int): int
    decreases |ts|
  {
    if ts == [] then 0
    else TransactionTotal(ts[..|ts| - 1], userId) + (if ts[|ts| - 1].userId == userId then ts[|ts| - 1].amount else 0)
  }

  /** A new transaction moves its own user's total by its amount and no other user's. */
  lemma TransactionTotalAppend(ts: seq<CreditTransaction>, t: CreditTransaction, userId: int)
    ensures TransactionTotal(ts + [t], userId) == TransactionTotal(ts, userId) + (if t.userId == userId then t.amount else 0)
  {
    assert (ts + [t])[..|ts|] == ts;
  }

  class Database {
    var users: seq<User>
    var submissions: seq<Submission>
    var transactions: seq<CreditTransaction>
    var clock: nat
    ghost var log: seq<Commit>

    ghost predicate Valid()
      reads this
    {
      && UsersNumbered(users)
      && SubmissionsNumbered(submissions)
      && TransactionsNumbered(transactions)
      && Increasing(submissions, SubmittedAt)
      && (forall i :: 0 <= i < |submissions| ==> submissions[i].submittedAt < clock)
    }

    /** The authenticated user of a request has a row. */
    predicate HasUser(id: int)
      reads this
    {
      1 <= id <= |users|
    }

    /** A user's credits that no transaction accounts for: credits minus the sum of their transactions. */
    ghost function Unrecorded(id: int): int
      reads this
      requires HasUser(id)
    {
      users[id - 1].credits - TransactionTotal(transactions, id)
    }

    /** An empty database, as `create_all` leaves it. */
    constructor ()
      ensures Valid()
      ensures users == [] && submissions == [] && transactions == [] && clock == 0 && log == []
    {
      users := [];
      submissions := [];
      transactions := [];
      clock := 0;
      log := [];
    }

    /** `datetime.utcnow()`: the current time, after which the clock has moved on. */
    method Now() returns (t: nat)
      requires Valid()
      modifies this
      ensures Valid()
      ensures t == old(clock) && clock == old(clock) + 1
      ensures users == old(users) && submissions == old(submissions) && transactions == old(transactions)
      ensures log == old(log)
    {
      t := clock;
      clock := clock + 1;
    }

    /** Inserts a user with the column defaults (no credits, active) and commits. */
    method AddUser(email: string, username: string, hashedPassword: string) returns (u: User)
      requires Valid()
      modifies this
      ensures Valid()
      ensures u == NewUser(|old(users)| + 1, email, username, hashedPassword, old(clock))
      ensures users == old(users) + [u] && HasUser(u.id)
      ensures submissions == old(submissions) && transactions == old(transactions)
      ensures clock == old(clock) + 1
      ensures log == old(log) + [UserAdded(u.id)]
    {
      var now := Now();
      u := NewUser(|users| + 1, email, username, hashedPassword, now);
      users := users + [u];
      log := log + [UserAdded(u.id)];
    }

    /** `db.add(Submission(...))` for a new pending submission, stamped now. */
    method AddSubmission(userId: nat, filename: string, originalFilename: string) returns (s: Submission)
      requires Valid()
      modifies this
      ensures Valid()
      ensures s == NewSubmission(|old(submissions)| + 1, userId, filename, originalFilename, old(clock))
      ensures submissions == old(submissions) + [s]
      ensures users == old(users) && transactions == old(transactions) && log == old(log)
      ensures clock == old(clock) + 1
    {
      var now := Now();
      s := NewSubmission(|submissions| + 1, userId, filename, originalFilename, now);
      submissions := submissions + [s];
    }

    /** Writes back a submission row under its own id. */
    method SetSubmission(s: Submission)
      requires Valid() && 1 <= s.id <= |submissions|
      requires s.submittedAt == submissions[s.id - 1].submittedAt
      modifies this
      ensures Valid()
      ensures submissions == old(submissions)[s.id - 1 := s]
      ensures users == old(users) && transactions == old(transactions) && clock == old(clock) && log == old(log)
    {
      submissions := submissions[s.id - 1 := s];
    }

    /** Writes back a user row under its own id. */
    method SetUser(u: User)
      requires Valid() && HasUser(u.id)
      modifies this
      ensures Valid()
      ensures users == old(users)[u.id - 1 := u]
      ensures submissions == old(submissions) && transactions == old(transactions) && clock == old(clock) && log == old(log)
    {
      users := users[u.id - 1 := u];
    }

    /** `db.add(CreditTransaction(...))`, stamped now. */
    method AddTransaction(userId: nat, amount: int, kind: CreditTransactionType, description: string) returns (t: CreditTransaction)
      requires Valid()
      modifies this
      ensures Valid()
      ensures t == CreditTransaction(|old(transactions)| + 1, userId, amount, kind, description, old(clock))
      ensures transactions == old(transactions) + [t]
      ensures users == old(users) && submissions == old(submissions) && log == old(log)
      ensures clock == old(clock) + 1
    {
      var now := Now();
      t := CreditTransaction(|transactions| + 1, userId, amount, kind, description, now);
      transactions := transactions + [t];
    }
  }
}
