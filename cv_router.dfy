/**
 * Variant A's CV pipeline: `upload_cv` checks credits and the file type, stores a
 * pending submission, debits one credit and records a USAGE transaction;
 * `process_cv` moves a submission to processing and then to completed or failed.
 * File contents, the uuid and the background-task runner are not modelled: the
 * uuid is a parameter and the outcome of reading the stored file is an input.
 */
module CvRouter {
  import opened Wrappers
  import opened Text
  import opened Ordering
  import opened SqlModels
  import opened SqlDb
  import opened OpenAiAnalysis
  import SubmissionsRouter

  /** `settings.min_credits_per_submission`. */
  const MinCreditsPerSubmission: int := 1

  const AllowedExtensions: seq<string> := [".txt", ".md", ".docx", ".pdf"]
  const UnsupportedTypeDetail: string := "Unsupported file type. Allowed extensions: .txt, .md, .docx, .pdf"
  const UsagePrefix: string := "CV analysis: "
  const ProcessingErrorPrefix: string := "Error processing CV: "

  /** Reading the stored CV as text: its contents, or the message of the exception raised. */
  datatype FileRead = ReadOk(text: string) | ReadFailed(message: string)

  /** What a successful upload yields: the new submission, and the submission id the background task is given. */
  datatype Upload = Upload(submission: Submission, scheduled: nat)

  function NotEnoughCreditsDetail(credits: int): string {
    "Not enough credits. Required: " + IntToString(MinCreditsPerSubmission) + ", Available: " + IntToString(credits)
  }

  /** `file.filename.lower().endswith(allowed_extensions)`. */
  predicate AllowedExtension(filename: string) {
    var l := Lower(filename);
    EndsWith(l, ".txt") || EndsWith(l, ".md") || EndsWith(l, ".docx") || EndsWith(l, ".pdf")
  }

  /**
   * The two guards of `upload_cv`, credits first: the error it raises, if any.
   * The 402 detail reports the required and the available credits.
   */
  function UploadGuard(credits: int, filename: string): (r: Option<HttpError>)
    ensures credits < MinCreditsPerSubmission ==> r == Some(HttpError(402, NotEnoughCreditsDetail(credits)))
    ensures credits >= MinCreditsPerSubmission && !AllowedExtension(filename) ==> r == Some(HttpError(400, UnsupportedTypeDetail))
    ensures r.None? <==> credits >= MinCreditsPerSubmission && AllowedExtension(filename)
  {
    if credits < MinCreditsPerSubmission then Some(HttpError(402, NotEnoughCreditsDetail(credits)))
    else if !AllowedExtension(filename) then Some(HttpError(400, UnsupportedTypeDetail))
    else None
  }

  /**
   * `os.path.splitext(p)[1]` on a POSIX path: from the last '.', provided that dot is
   * in the last path component and something other than a dot comes before it there;
   * otherwise empty (a leading-dot name such as ".pdf" has no extension).
   */
  function Extension(p: string): (r: string)
    ensures EndsWith(p, r)
    ensures r != [] ==> DotExtension(r)
  {
    var sep := RFind(p, '/');
    var dot := RFind(p, '.');
    if dot > sep && SkipDots(p, sep + 1, dot) < dot then p[dot..] else []
  }

  /** Where `splitext` stops skipping the leading dots of the last path component, before `dot`. */
  function SkipDots(p: string, i: nat, dot: nat): (k: nat)
    requires i <= dot <= |p|
    ensures i <= k <= dot && (k < dot ==> p[k] != '.')
    ensures forall j :: i <= j < k ==> p[j] == '.'
    decreases dot - i
  {
    if i < dot && p[i] == '.' then SkipDots(p, i + 1, dot) else i
  }

  /** A dot followed by no other dot and no '/': the shape of every non-empty extension. */
  predicate DotExtension(e: string) {
    |e| >= 1 && e[0] == '.' && forall i :: 1 <= i < |e| ==> e[i] != '.' && e[i] != '/'
  }

  /**
   * A name made of a stem and a dot-extension has that extension, provided the
   * stem's last path component holds something other than a dot.
   */
  lemma ExtensionOfName(stem: string, e: string)
    requires DotExtension(e)
    requires exists i :: RFind(stem, '/') < i < |stem| && stem[i] != '.'
    ensures Extension(stem + e) == e
  {
    var p := stem + e;
    var i :| RFind(stem, '/') < i < |stem| && stem[i] != '.';
    LastSlashOfName(stem, e);
    assert p[|stem|..] == e;
    LastDotAt(p, |stem|);
    assert p[i] == stem[i];
    ExtensionAt(p, i);
    assert p[|stem|..] == e;
  }

  /** Appending a text without '/' leaves the last '/' where it was. */
  lemma LastSlashOfName(stem: string, e: string)
    requires DotExtension(e)
    ensures RFind(stem + e, '/') == RFind(stem, '/')
  {
    var p := stem + e;
    forall j | RFind(stem, '/') < j < |p| ensures p[j] != '/' {
      if j >= |stem| {
        assert p[j] == e[j - |stem|];
      }
    }
    RFindLast(p, '/', RFind(stem, '/'));
  }

  /** When `p[d..]` is a dot-extension, the last '.' of `p` is at `d`. */
  lemma LastDotAt(p: string, d: nat)
    requires d <= |p| && DotExtension(p[d..])
    ensures RFind(p, '.') == d
  {
    forall j | d < j < |p| ensures p[j] != '.' {
      assert p[j] == p[d..][j - d];
    }
    RFindLast(p, '.', d);
  }

  /** Extension of a name with a non-dot character `p[i]` between its last '/' and its last '.'. */
  lemma ExtensionAt(p: string, i: int)
    requires RFind(p, '/') < i < RFind(p, '.') && p[i] != '.'
    ensures Extension(p) == p[RFind(p, '.')..]
  {
  }

  /**
   * Uploading `stem + e` with `e` the `k`-th allowed extension in any letter case:
   * the name passes the type check and the stored name keeps exactly `e`.
   */
  lemma AllowedNameExtension(stem: string, e: string, k: nat)
    requires k < |AllowedExtensions| && Lower(e) == AllowedExtensions[k]
    requires exists i :: RFind(stem, '/') < i < |stem| && stem[i] != '.'
    ensures AllowedExtension(stem + e)
    ensures Extension(stem + e) == e
  {
    ExtensionShape(k);
    DotExtensionOfLower(e);
    ExtensionOfName(stem, e);
    AllowedName(stem, e, k);
  }

  /** Any name ending in an allowed extension, in any letter case, passes the type check. */
  lemma AllowedName(stem: string, e: string, k: nat)
    requires k < |AllowedExtensions| && Lower(e) == AllowedExtensions[k]
    ensures AllowedExtension(stem + e)
  {
    var p := stem + e;
    assert p[|stem|..] == e;
    LowerDrop(p, |stem|);
    AllowedByExtension(p, k);
  }

  /** Lower-casing changes neither dots nor slashes, so a name is a dot-extension when its lower-cased form is. */
  lemma DotExtensionOfLower(e: string)
    requires DotExtension(Lower(e))
    ensures DotExtension(e)
  {
    var le := Lower(e);
    assert LowerChar(e[0]) == le[0];
    forall i | 1 <= i < |e| ensures e[i] != '.' && e[i] != '/' {
      assert LowerChar(e[i]) == le[i];
    }
  }

  /** Lower-casing works character by character, so it commutes with taking a suffix. */
  lemma LowerDrop(p: string, d: nat)
    requires d <= |p|
    ensures Lower(p)[d..] == Lower(p[d..])
  {
    var l, ld := Lower(p), Lower(p[d..]);
    forall j | 0 <= j < |ld| ensures l[d..][j] == ld[j] {
      assert p[d..][j] == p[d + j];
    }
  }

  /** A name whose lower-cased form ends with an allowed extension passes the type check. */
  lemma AllowedByExtension(filename: string, k: nat)
    requires k < |AllowedExtensions| && EndsWith(Lower(filename), AllowedExtensions[k])
    ensures AllowedExtension(filename)
  {
    if k == 0 {
      assert AllowedExtensions[k] == ".txt";
    } else if k == 1 {
      assert AllowedExtensions[k] == ".md";
    } else if k == 2 {
      assert AllowedExtensions[k] == ".docx";
    } else {
      assert AllowedExtensions[k] == ".pdf";
    }
  }

  /**
   * The stored name keeps the uploaded file's extension: when there is one, it is
   * one of the allowed extensions up to letter case.
   */
  lemma ExtensionOfAllowed(filename: string)
    requires AllowedExtension(filename)
    ensures Extension(filename) == [] || Lower(Extension(filename)) in AllowedExtensions
  {
    if Extension(filename) != [] {
      var k := AllowedSuffix(filename);
      ExtensionShape(k);
      KnownExtension(filename, AllowedExtensions[k]);
    }
  }

  /** Which allowed extension an accepted name ends with. */
  lemma AllowedSuffix(filename: string) returns (k: nat)
    requires AllowedExtension(filename)
    ensures k < |AllowedExtensions| && EndsWith(Lower(filename), AllowedExtensions[k])
  {
    var l := Lower(filename);
    if EndsWith(l, ".txt") {
      k := 0;
    } else if EndsWith(l, ".md") {
      k := 1;
    } else if EndsWith(l, ".docx") {
      k := 2;
    } else {
      k := 3;
    }
  }

  /** Each allowed extension is a dot followed by no other dot and no slash. */
  lemma ExtensionShape(k: nat)
    requires k < |AllowedExtensions|
    ensures |AllowedExtensions[k]| >= 1 && AllowedExtensions[k][0] == '.' && '.' !in AllowedExtensions[k][1..]
    ensures DotExtension(AllowedExtensions[k])
  {
    var e := AllowedExtensions[k];
    if k == 0 {
      assert e[1..] == "txt";
    } else if k == 1 {
      assert e[1..] == "md";
    } else if k == 2 {
      assert e[1..] == "docx";
    } else {
      assert e[1..] == "pdf";
    }
  }

  /** A name whose lower-cased form ends with a dot-extension `e` has `e` as its extension, up to case, once it has one at all. */
  lemma KnownExtension(filename: string, e: string)
    requires DotExtension(e)
    requires EndsWith(Lower(filename), e) && Extension(filename) != []
    ensures Lower(Extension(filename)) == e
  {
    var d := |filename| - |e|;
    LowerDrop(filename, d);
    DotExtensionOfLower(filename[d..]);
    LastDotAt(filename, d);
  }

  /** The user row after the debit: one credit fewer, nothing else changed. */
  function Debit(u: User): (r: User)
    ensures r.credits == u.credits - MinCreditsPerSubmission
    ensures SameUserExceptCredits(r, u)
  {
    u.(credits := u.credits - MinCreditsPerSubmission)
  }

  /** The USAGE transaction an upload records, for the credit it took. */
  function UsageTransaction(id: nat, userId: nat, filename: string, now: nat): (t: CreditTransaction)
    ensures t.amount == -MinCreditsPerSubmission && t.kind == Usage
    ensures t.id == id && t.userId == userId && t.createdAt == now
    ensures StartsWith(t.description, UsagePrefix) && t.description[|UsagePrefix|..] == filename
  {
    CreditTransaction(id, userId, -MinCreditsPerSubmission, Usage, UsagePrefix + filename, now)
  }

  /**
   * `upload_cv`. A rejected request changes nothing. An accepted one makes two
   * commits: first the pending submission, then the debit together with its USAGE
   * transaction (see RecordUpload).
   */
  method UploadCv(db: Database, userId: nat, filename: string, uniqueStem: string) returns (r: Result<Upload>)
    requires db.Valid() && db.HasUser(userId)
    modifies db
    ensures db.Valid()
    ensures r.Err? <==> UploadGuard(old(db.users[userId - 1].credits), filename).Some?
    ensures r.Err? ==>
              && r.error == UploadGuard(old(db.users[userId - 1].credits), filename).value
              && db.users == old(db.users) && db.submissions == old(db.submissions)
              && db.transactions == old(db.transactions) && db.clock == old(db.clock) && db.log == old(db.log)
    ensures r.Ok? ==>
              var sub := NewSubmission(|old(db.submissions)| + 1, userId, uniqueStem + Extension(filename), filename, old(db.clock));
              var tx := UsageTransaction(|old(db.transactions)| + 1, userId, filename, old(db.clock) + 1);
              && r.value == Upload(sub, sub.id)
              && db.submissions == old(db.submissions) + [sub]
              && db.users == old(db.users)[userId - 1 := Debit(old(db.users[userId - 1]))]
              && db.transactions == old(db.transactions) + [tx]
              && db.clock == old(db.clock) + 2
              && db.log == old(db.log) + [SubmissionAdded(sub.id), CreditsDebited(userId, tx.id)]
    ensures forall u :: 1 <= u <= |db.users| ==>
              db.Unrecorded(u) == old(db.Unrecorded(u))
  {
    var credits := db.users[userId - 1].credits;
    if credits < MinCreditsPerSubmission {
      return Err(HttpError(402, NotEnoughCreditsDetail(credits)));
    }
    if !AllowedExtension(filename) {
      return Err(HttpError(400, UnsupportedTypeDetail));
    }
    var upload := RecordUpload(db, userId, uniqueStem + Extension(filename), filename);
    r := Ok(upload);
  }

  /**
   * The writes of an accepted upload: the pending submission is committed first, then
   * the user's credits drop by one and a USAGE transaction of -1 is committed with
   * them. Every user's credits minus the sum of their transactions stays what it was,
   * and the uploader's credits stay non-negative.
   */
  method RecordUpload(db: Database, userId: nat, stored: string, filename: string) returns (upload: Upload)
    requires db.Valid() && db.HasUser(userId) && db.users[userId - 1].credits >= MinCreditsPerSubmission
    modifies db
    ensures db.Valid()
    ensures var sub := NewSubmission(|old(db.submissions)| + 1, userId, stored, filename, old(db.clock));
            var tx := UsageTransaction(|old(db.transactions)| + 1, userId, filename, old(db.clock) + 1);
            && upload == Upload(sub, sub.id)
            && db.submissions == old(db.submissions) + [sub]
            && db.users == old(db.users)[userId - 1 := Debit(old(db.users[userId - 1]))]
            && db.transactions == old(db.transactions) + [tx]
            && db.clock == old(db.clock) + 2
            && db.log == old(db.log) + [SubmissionAdded(sub.id), CreditsDebited(userId, tx.id)]
    ensures db.users[userId - 1].credits >= 0
    ensures forall u :: 1 <= u <= |db.users| ==> db.Unrecorded(u) == old(db.Unrecorded(u))
  {
    var sub := db.AddSubmission(userId, stored, filename);
    db.log := db.log + [SubmissionAdded(sub.id)];

    db.SetUser(Debit(db.users[userId - 1]));
    var before := db.transactions;
    var tx := db.AddTransaction(userId, -MinCreditsPerSubmission, Usage, UsagePrefix + filename);
    db.log := db.log + [CreditsDebited(userId, tx.id)];
    forall u | 1 <= u <= |db.users|
      ensures TransactionTotal(db.transactions, u) == TransactionTotal(before, u) + (if u == userId then tx.amount else 0)
    {
      TransactionTotalAppend(before, tx, u);
    }
    upload := Upload(sub, sub.id);
  }

  /** The row as `process_cv` first commits it: in processing, whatever its status was. */
  function MarkProcessing(s: Submission): (r: Submission)
    ensures r.status == Processing && SameSubmission(r, s)
    ensures r.score == s.score && r.feedback == s.feedback && r.completedAt == s.completedAt
  {
    s.(status := Processing)
  }

  /**
   * The row as `process_cv` leaves it, completed at `now`. A file that cannot be read
   * fails the submission with the error as feedback and leaves the score as it was.
   * Otherwise the submission completes with `analyze_cv`'s score and feedback; since
   * `analyze_cv` never raises, an error from the model API also ends completed, with
   * score 0.
   */
  function Finish(s: Submission, read: FileRead, apiKey: Option<string>, call: ApiCall,
                  parseFloat: string -> Option<real>, now: nat): (r: Submission)
    ensures SameSubmission(r, s) && r.completedAt == Some(now)
    ensures r.status == Completed || r.status == Failed
    ensures read.ReadFailed? ==>
              && r.status == Failed && r.score == s.score
              && r.feedback == Some(ProcessingErrorPrefix + read.message)
    ensures read.ReadOk? ==>
              && r.status == Completed
              && r.score == Some(AnalyzeCv(apiKey, call, parseFloat).score)
              && r.feedback == Some(AnalyzeCv(apiKey, call, parseFloat).feedback)
    ensures read.ReadOk? && HasKey(apiKey) && call.Raised? ==>
              r.status == Completed && r.score == Some(ErrorScore)
  {
    match read
    case ReadFailed(message) =>
      s.(status := Failed, feedback := Some(ProcessingErrorPrefix + message), completedAt := Some(now))
    case ReadOk(_) =>
      var a := AnalyzeCv(apiKey, call, parseFloat);
      s.(score := Some(a.score), feedback := Some(a.feedback), status := Completed, completedAt := Some(now))
  }

  /**
   * The submissions table after `process_cv` has run on `id` at time `now`: unchanged
   * for an unknown id, otherwise that one row finished and every other row as it was.
   */
  function ProcessedTable(ss: seq<Submission>, id: int, read: FileRead, apiKey: Option<string>, call: ApiCall,
                          parseFloat: string -> Option<real>, now: nat): (r: seq<Submission>)
    requires SubmissionsNumbered(ss)
    ensures |r| == |ss| && SubmissionsNumbered(r)
    ensures forall i :: 0 <= i < |ss| && ss[i].id != id ==> r[i] == ss[i]
    ensures GetSubmissionRow(ss, id).Some? ==>
              && (r[id - 1].status == Completed || r[id - 1].status == Failed)
              && SameSubmission(r[id - 1], ss[id - 1]) && r[id - 1].completedAt == Some(now)
  {
    if 1 <= id <= |ss| then ss[id - 1 := Finish(MarkProcessing(ss[id - 1]), read, apiKey, call, parseFloat, now)]
    else ss
  }

  /**
   * `process_cv`. An unknown id changes nothing. Otherwise it commits the row in
   * processing and then commits the finished row; no other row, no user and no
   * transaction changes (a failure refunds nothing).
   */
  method ProcessCv(db: Database, submissionId: int, read: FileRead, apiKey: Option<string>, call: ApiCall,
                   parseFloat: string -> Option<real>)
    requires db.Valid()
    modifies db
    ensures db.Valid()
    ensures db.users == old(db.users) && db.transactions == old(db.transactions)
    ensures db.submissions == ProcessedTable(old(db.submissions), submissionId, read, apiKey, call, parseFloat, old(db.clock))
    ensures GetSubmissionRow(old(db.submissions), submissionId).None? ==>
              db.submissions == old(db.submissions) && db.clock == old(db.clock) && db.log == old(db.log)
    ensures GetSubmissionRow(old(db.submissions), submissionId).Some? ==>
              var done := Finish(MarkProcessing(old(db.submissions[submissionId - 1])), read, apiKey, call, parseFloat, old(db.clock));
              && db.submissions == old(db.submissions)[submissionId - 1 := done]
              && db.clock == old(db.clock) + 1
              && db.log == old(db.log) + [SubmissionUpdated(submissionId, Processing), SubmissionUpdated(submissionId, done.status)]
  {
    if !(1 <= submissionId <= |db.submissions|) {
      return;
    }
    var s := db.submissions[submissionId - 1];
    s := s.(status := Processing);
    db.SetSubmission(s);
    db.log := db.log + [SubmissionUpdated(submissionId, Processing)];

    var now := db.Now();
    match read {
      case ReadFailed(message) =>
        s := s.(status := Failed);
        s := s.(feedback := Some(ProcessingErrorPrefix + message));
        s := s.(completedAt := Some(now));
      case ReadOk(_) =>
        var a := AnalyzeCv(apiKey, call, parseFloat);
        s := s.(score := Some(a.score));
        s := s.(feedback := Some(a.feedback));
        s := s.(status := Completed);
        s := s.(completedAt := Some(now));
    }
    assert s == Finish(MarkProcessing(old(db.submissions[submissionId - 1])), read, apiKey, call, parseFloat, now);
    db.SetSubmission(s);
    db.log := db.log + [SubmissionUpdated(submissionId, s.status)];
  }

  /** `get_user_submissions`: the user's submissions, newest first, with `skip`/`limit` applied as SQLite does (see `Page`). */
  function GetUserSubmissions(ss: seq<Submission>, userId: int, skip: int, limit: int): (r: seq<Submission>)
    ensures limit >= 0 ==> |r| <= limit
    ensures SortedDesc(r, SubmittedAt)
    ensures forall i :: 0 <= i < |r| ==> r[i] in ss && r[i].userId == userId
    ensures Increasing(ss, SubmittedAt) ==>
              r == Page(Reverse(Filter(ss, SubmissionsRouter.Selection(userId, None))), skip, limit)
  {
    var listed := SubmissionsRouter.GetSubmissions(ss, userId, None, skip, limit);
    if Increasing(ss, SubmittedAt) then
      SubmissionsRouter.GetSubmissionsNewestFirst(ss, userId, None, skip, limit);
      listed
    else
      listed
  }
}
