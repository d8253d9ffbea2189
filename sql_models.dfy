/**
 * Record shapes of the SQLModel backend (variant A): users with an integer credit
 * count, CV submissions and their status, and credit transactions.
 * Timestamps are ticks of the database's logical clock (see SqlDb).
 */
module SqlModels {
  import opened Wrappers

  /** Lifecycle of a CV submission. */
  datatype SubmissionStatus = Pending | Processing | Completed | Failed

  /** Every status, in declaration order (what `for status in SubmissionStatus` visits). */
  const AllStatuses: seq<SubmissionStatus> := [Pending, Processing, Completed, Failed]

  /** The string value each status is stored and serialised as. */
  function StatusValue(st: SubmissionStatus): string {
    match st
    case Pending => "pending"
    case Processing => "processing"
    case Completed => "completed"
    case Failed => "failed"
  }

  /** There are exactly four statuses, each listed once, with four distinct string values. */
  lemma {:induction false} StatusesComplete()
    ensures |AllStatuses| == 4
    ensures forall st :: st in AllStatuses
    ensures forall i, j :: 0 <= i < j < |AllStatuses| ==> AllStatuses[i] != AllStatuses[j]
    ensures forall a, b :: StatusValue(a) == StatusValue(b) ==> a == b
  {
    forall st ensures st in AllStatuses {
      assert st.Pending? || st.Processing? || st.Completed? || st.Failed?;
    }
    forall a, b | StatusValue(a) == StatusValue(b) ensures a == b {
      assert StatusValue(a)[0] == StatusValue(b)[0];
      if a.Processing? || b.Processing? {
        assert StatusValue(a)[1] == StatusValue(b)[1];
      }
    }
  }

  /** Kind of a credit transaction. */
  datatype CreditTransactionType = Purchase | Usage | Refund | Bonus

  const AllTransactionTypes: seq<CreditTransactionType> := [Purchase, Usage, Refund, Bonus]

  function TransactionTypeValue(t: CreditTransactionType): string {
    match t
    case Purchase => "purchase"
    case Usage => "usage"
    case Refund => "refund"
    case Bonus => "bonus"
  }

  /** There are exactly four transaction kinds, with four distinct string values. */
  lemma {:induction false} TransactionTypesComplete()
    ensures |AllTransactionTypes| == 4
    ensures forall t :: t in AllTransactionTypes
    ensures forall a, b :: TransactionTypeValue(a) == TransactionTypeValue(b) ==> a == b
  {
    forall t ensures t in AllTransactionTypes {
      assert t.Purchase? || t.Usage? || t.Refund? || t.Bonus?;
    }
    forall a, b | TransactionTypeValue(a) == TransactionTypeValue(b) ensures a == b {
      assert TransactionTypeValue(a)[0] == TransactionTypeValue(b)[0];
    }
  }

  datatype User = User(
    id: nat,
    email: string,
    username: string,
    hashedPassword: string,
    credits: int,
    isActive: bool,
    createdAt: nat)

  /** A user row as first inserted: the column defaults give no credits and an active account. */
  function NewUser(id: nat, email: string, username: string, hashedPassword: string, now: nat): (u: User)
    ensures u.credits == 0 && u.isActive
    ensures u.id == id && u.email == email && u.username == username && u.hashedPassword == hashedPassword
    ensures u.createdAt == now
  {
    User(id, email, username, hashedPassword, 0, true, now)
  }

  datatype Submission = Submission(
    id: nat,
    userId: nat,
    filename: string,
    originalFilename: string,
    status: SubmissionStatus,
    score: Option<real>,
    feedback: Option<string>,
    submittedAt: nat,
    completedAt: Option<nat>)

  /** A submission as first inserted: pending, with no score, feedback or completion time yet. */
  function NewSubmission(id: nat, userId: nat, filename: string, originalFilename: string, now: nat): (s: Submission)
    ensures s.status == Pending && s.score == None && s.feedback == None && s.completedAt == None
    ensures s.id == id && s.userId == userId && s.filename == filename && s.originalFilename == originalFilename
    ensures s.submittedAt == now
  {
    Submission(id, userId, filename, originalFilename, Pending, None, None, now, None)
  }

  /** One entry of a user's credit history: a signed amount, its kind and a description. */
  datatype CreditTransaction = CreditTransaction(
    id: nat,
    userId: nat,
    amount: int,
    kind: CreditTransactionType,
    description: string,
    createdAt: nat)

  function SubmittedAt(s: Submission): int { s.submittedAt }

  /** The columns no operation of the core rewrites once a submission exists. */
  predicate SameSubmission(a: Submission, b: Submission) {
    a.id == b.id && a.userId == b.userId && a.filename == b.filename
    && a.originalFilename == b.originalFilename && a.submittedAt == b.submittedAt
  }

  /** A user row with only its credit count changed. */
  predicate SameUserExceptCredits(a: User, b: User) {
    a.id == b.id && a.email == b.email && a.username == b.username
    && a.hashedPassword == b.hashedPassword && a.isActive == b.isActive && a.createdAt == b.createdAt
  }
}
