# Credit-guarded CV review pipeline, modelled in Dafny

This project models the core of the resume-scoring backend. A user spends credits to
have a CV assessed. The assessment runs in the background and ends completed or
failed. The backend exists in two variants, and each is modelled in its own modules.

**Variant A (SQLModel).**
- Users hold an integer `credits` count.
- `upload_cv` checks that the user has at least one credit and that the file type is
  allowed. It then commits a pending `Submission`, and in a second commit takes one
  credit and records a `USAGE` `CreditTransaction` of -1.
- `process_cv` commits the submission as processing. It then commits it as completed,
  with the score and feedback of `analyze_cv`, or as failed.
- `analyze_cv` turns the chat model's reply into a score and a feedback text, with fixed
  fallbacks. It never raises.
- An in-memory `JobQueue` dispatches jobs first in, first out.
- The submissions router lists, fetches and summarises a user's submissions.

**Variant B (Clerk).**
- Users are known by their Clerk id and own one `CreditBalance` row, which starts at 5.
- `submit_review_request` first debits one credit, then creates a pending review, and
  schedules `process_review_request`.
- `process_review_request` commits the review as processing, then as completed (with
  the generated or mock review text) or as failed. Each step adds a notification.
- Notifications can be listed newest first and marked read, one at a time or all
  together.

**How the state is modelled.**
- The database session is a class (`SqlDb.Database`, `ClerkDb.Database`) whose tables
  are sequences. Ids are handed out as 1, 2, 3, ... and nothing is deleted, so the row
  with id `i` is at index `i - 1`.
- `datetime.utcnow()` is a logical clock that moves on at every read. Timestamps are
  therefore distinct and grow with insertion order. `ORDER BY created_at DESC` is then
  exactly the table read backwards (`Ordering.SortDescOfIncreasing`).
- A ghost log records every commit, so the order of commits can be stated.

**What the model shows about the code as written.**
- Nothing refunds a credit when processing fails.
- Nothing checks that a submission or review is still pending before it is processed.
- The debit and the row it pays for are separate commits. In variant B the debit comes
  first.
- Because `analyze_cv` never raises, an error from the model API leaves a variant A
  submission completed with score 0, not failed. Only a failure to read the stored file
  fails it.
- `os.path.splitext` gives no extension for a name such as `.pdf`, so that upload is
  stored under its bare uuid.
- The credit service's `add_credits` does not check the sign of the amount. Only the
  `/credits/add` route does.

## Model

| member | source | states |
|---|---|---|
| SqlModels.StatusesComplete | api/db/models.py:39-43 | there are exactly four submission statuses, each listed once, and their string values are pairwise distinct |
| SqlModels.TransactionTypesComplete | api/db/models.py:77-81 | there are exactly four transaction kinds, with pairwise distinct string values |
| SqlModels.NewUser | api/db/models.py:12-17 | a user row starts with 0 credits, active, stamped with the current time |
| SqlModels.NewSubmission | api/db/models.py:46-55 | a submission starts pending, with no score, feedback or completion time |
| SqlDb.GetSubmissionRow | api/routers/cv.py:40 | `db.get` finds the row with that primary key, or nothing when no row has it |
| SqlDb.TransactionTotalAppend | api/db/models.py:84-90 | a new transaction moves its own user's transaction total by its amount and no other user's total |
| SqlDb.Database.AddUser | api/db/models.py:12-17 | inserting a user appends one row with the next id and the column defaults; nothing else changes |
| SqlDb.Database.AddSubmission | api/routers/cv.py:130-140 | inserting a submission appends one pending row with the next id, stamped now; the other tables are unchanged |
| SqlDb.Database.SetSubmission | api/routers/cv.py:44-46 | writing back a submission replaces exactly its own row |
| SqlDb.Database.SetUser | api/routers/cv.py:143 | writing back a user replaces exactly its own row |
| SqlDb.Database.AddTransaction | api/routers/cv.py:146-155 | inserting a transaction appends one row with the next id, stamped now |
| OpenAiAnalysis.ScoreLine | api/integrations/openai.py:73-74 | the score line is a line of the reply that begins with `SCORE:`; none is found only when no line begins so |
| OpenAiAnalysis.ScoreLineFirst | api/integrations/openai.py:73-74 | the score line found is the first of the reply's lines, in order, that begins with `SCORE:` |
| OpenAiAnalysis.ScoreText | api/integrations/openai.py:79 | the text handed to `float()` has `SCORE:` removed, is stripped and is no longer than the line |
| OpenAiAnalysis.ScoreTextOfMarked | api/integrations/openai.py:79 | for a line `SCORE:` + rest with no further `SCORE:` in rest, the text handed to `float()` is exactly rest, stripped |
| OpenAiAnalysis.FeedbackOf | api/integrations/openai.py:82-86 | the feedback beside a parsed score is always stripped |
| OpenAiAnalysis.ParseReply | api/integrations/openai.py:72-96 | no score line, or one `float()` rejects, gives (5.0, the whole reply); otherwise the score is exactly the parsed number (no range check) and the feedback is the stripped feedback of the reply |
| OpenAiAnalysis.ReplyFeedback | api/integrations/openai.py:81-86 | the feedback is the stripped text after the first `FEEDBACK:` or, without that marker, the stripped reply with the score line removed, which is shorter by at least that line |
| OpenAiAnalysis.RemovingScoreLineShrinks | api/integrations/openai.py:86 | removing the score line from the reply removes at least the line's own length |
| OpenAiAnalysis.ScoreLineOccurs | api/integrations/openai.py:73-74 | the score line found is a piece of the reply at some position |
| OpenAiAnalysis.AnalyzeCv | api/integrations/openai.py:29-100 | without an API key the result is (7.5, the mock text); an exception from the request gives (0.0, "Error analyzing CV: " + message); a reply is parsed as ParseReply says; nothing raises |
| OpenAiAnalysis.ParseFormattedReply | api/integrations/openai.py:51-55 | a reply in the format the prompt asks for (`SCORE: n`, blank line, `FEEDBACK:`, text) parses back to exactly that number and that stripped feedback |
| OpenAiAnalysis.FormattedScoreLine | api/integrations/openai.py:73-74 | in a reply of the requested format, the score line is its first line |
| OpenAiAnalysis.FormattedScoreText | api/integrations/openai.py:79 | in a reply of the requested format, the text given to `float()` is exactly the numeral |
| OpenAiAnalysis.FormattedFeedback | api/integrations/openai.py:82-84 | in a reply of the requested format, the feedback read back is exactly the feedback written |
| CvRouter.UploadGuard | api/routers/cv.py:96-109 | the credit check comes first: fewer than 1 credit gives 402 with the required and available counts; otherwise a name whose lower-case form ends in none of .txt/.md/.docx/.pdf gives 400; both pass exactly when nothing is raised |
| CvRouter.Extension | api/routers/cv.py:115 | `os.path.splitext(name)[1]` is a suffix of the name, empty or a dot followed by no dot or slash |
| CvRouter.SkipDots | api/routers/cv.py:115 | `splitext` skips the leading dots of the last path component: every skipped character is a dot, and it stops at a non-dot or at the last dot |
| CvRouter.ExtensionOfName | api/routers/cv.py:115 | a name `stem + e`, with `e` a dot followed by no dot or slash and a stem whose last component is not all dots, has extension exactly `e` |
| CvRouter.AllowedNameExtension | api/routers/cv.py:104-116 | a name `stem + e`, with `e` an allowed extension in any letter case and a stem whose last component is not all dots, passes the type check and keeps exactly `e` in the stored name |
| CvRouter.AllowedSuffix | api/routers/cv.py:104-105 | an accepted name's lower-case form ends with one of the four allowed extensions |
| CvRouter.AllowedByExtension | api/routers/cv.py:104-105 | conversely, a name whose lower-case form ends with one of them is accepted |
| CvRouter.ExtensionOfAllowed | api/routers/cv.py:104-116 | the extension kept in the stored name of an accepted upload is empty or one of the allowed extensions up to letter case |
| CvRouter.Debit | api/routers/cv.py:143 | the debit takes exactly 1 credit and changes nothing else in the user row |
| CvRouter.UsageTransaction | api/routers/cv.py:146-151 | the recorded transaction is USAGE, amount -1, for the uploader, described as "CV analysis: " + the original file name |
| CvRouter.UploadCv | api/routers/cv.py:73-160 | a guard failure raises its error and writes nothing; otherwise the new submission is the uploader's, pending, with the original name and a stored name that keeps the extension, the user has one credit fewer, one USAGE transaction of -1 is added, the submission commit precedes the debit commit, and the job is scheduled with the new id; every user's credits minus their transaction total is unchanged |
| CvRouter.RecordUpload | api/routers/cv.py:124-155 | the two commits of an accepted upload: the submission, then the debit with its transaction; the uploader's credits stay non-negative and credits minus transaction total is preserved for every user |
| CvRouter.MarkProcessing | api/routers/cv.py:44-46 | the first write sets processing whatever the prior status, and keeps score, feedback and completion time |
| CvRouter.Finish | api/routers/cv.py:48-70 | an unreadable file fails the submission with "Error processing CV: " + message as feedback, score untouched; otherwise it completes with `analyze_cv`'s score and feedback, so a model-API error completes with score 0; either way it gets a completion time |
| CvRouter.ProcessedTable | api/routers/cv.py:31-70 | after `process_cv` only the target row has changed; it is completed or failed with its identity kept; an unknown id changes nothing |
| CvRouter.ProcessCv | api/routers/cv.py:31-70 | an unknown id is a no-op; otherwise two commits (processing, then the outcome), no user or transaction changes, no refund |
| CvRouter.GetUserSubmissions | api/routers/cv.py:163-191 | for any integer `skip` and `limit`: at most `limit` rows when `limit` is not negative, all the user's, newest first; on timestamped tables exactly the page of the user's rows read backwards |
| JobQueues.JobIdsSnoc | api/queue/job_queue.py:50-52 | dispatching one more job from the front extends the dispatched ids by that job's id |
| JobQueues.JobQueue.constructor | api/queue/job_queue.py:12-16 | a new queue has nothing queued, nothing processing, and is not running |
| JobQueues.JobQueue.StartProcessing | api/queue/job_queue.py:31-38 | afterwards the queue is running; a running queue is left as it was |
| JobQueues.JobQueue.AddJob | api/queue/job_queue.py:18-29 | exactly one job is appended at the tail, earlier jobs keep their order, and the queue is running afterwards |
| JobQueues.JobQueue.Claim | api/queue/job_queue.py:50-55 | the head job is popped and entered in `processing` under its id |
| JobQueues.JobQueue.Release | api/queue/job_queue.py:63-66 | the job id leaves `processing` whatever the run did |
| JobQueues.JobQueue.Step | api/queue/job_queue.py:44-66 | on an empty queue nothing changes; otherwise the head job is dispatched, the rest of the queue remains, `processing` ends without it and the submissions table is as `process_cv` leaves it |
| JobQueues.JobQueue.RunIterations | api/queue/job_queue.py:45-66 | over a run of passes, jobs are dispatched in the order they were queued (FIFO), one per pass while any are left, and none stays in `processing` |
| JobQueues.JobQueue.Stop | api/queue/job_queue.py:71-72 | once the loop ends the queue is no longer running |
| SubmissionsRouter.GetSubmissions | api/routers/submissions.py:35-49 | for any integer `skip` and `limit`: at most `limit` rows when `limit` is not negative, all owned by the user, all in the requested status when one is given, ordered by submission time descending |
| SubmissionsRouter.GetSubmissionsNewestFirst | api/routers/submissions.py:42-47 | on timestamped tables the listing is exactly the page of the matching rows read newest first: nothing lost, nothing added |
| SubmissionsRouter.GetSubmission | api/routers/submissions.py:73-88 | 404 exactly when no row has the id; the row exactly when it exists and is the user's; otherwise 403 |
| SubmissionsRouter.StatusCountsSum | api/routers/submissions.py:114-117 | the four status counts add up to the number of submissions |
| SubmissionsRouter.AverageWithinScores | api/routers/submissions.py:120-121 | the average lies between the lowest and the highest score averaged |
| SubmissionsRouter.SumRealBounds | api/routers/submissions.py:121 | the sum of n scores lies between n times the lowest and n times the highest |
| SubmissionsRouter.GetSubmissionStats | api/routers/submissions.py:91-127 | the total is the number of the user's submissions; every status has a count equal to the number of the user's submissions in it; the average is over completed ones with a score, 0 when there are none |
| ClerkDb.Database.AddUser | api/services/user_service.py:25-33 | inserting a user appends one row with the next id and commits |
| ClerkDb.Database.AddBalance | api/services/user_service.py:36-44 | inserting a balance appends one row with the next id for an existing user and commits |
| ClerkDb.Database.SetBalance | api/services/credit_service.py:23-24 | changing a balance changes exactly that row's amount and commits |
| ClerkDb.Database.AddReview | api/services/review_service.py:26-35 | inserting a review appends one pending row with no review text and commits |
| ClerkDb.Database.SetReview | api/services/review_service.py:169-172 | writing back a review replaces exactly its own row and commits |
| ClerkDb.Database.AddNotification | api/services/notification_service.py:12-21 | inserting a notification appends one unread row and commits |
| ClerkDb.Database.SetRead | api/services/notification_service.py:71 | setting a read flag changes exactly that row's flag |
| UserService.GetUserByClerkId | api/services/user_service.py:8-12 | the first user with that Clerk id; `None` exactly when no user has it |
| UserService.BalanceIndex | api/services/credit_service.py:18 | the position of the user's first balance row, or none when the user has none |
| UserService.GetCreditBalance | api/services/user_service.py:48-52 | the user's balance row; `None` exactly when the user has none |
| UserService.CreateUser | api/services/user_service.py:20-46 | the user is stored with the given Clerk id and email, then exactly one balance of 5 for that user, in two commits; that balance is the one the services find, and a new Clerk id finds this user |
| CreditService.DeductTarget | api/services/credit_service.py:12-20 | a debit happens exactly when the user exists, has a balance row and that balance is at least 1 |
| CreditService.AfterDeduct | api/services/credit_service.py:12-24 | when the debit is refused nothing changes; otherwise exactly one row loses one credit and is not negative afterwards (1 becomes 0) |
| CreditService.DeductTakesOne | api/services/credit_service.py:23 | a successful debit takes exactly one credit out of all balances together |
| CreditService.CheckAndDeductCredits | api/services/credit_service.py:7-27 | True exactly when the debit happens; the balances afterwards are AfterDeduct's; a refusal writes nothing; no transaction record exists to write |
| CreditService.AfterAdd | api/services/credit_service.py:33-38 | with no balance row nothing changes; otherwise exactly the user's row grows by the amount |
| CreditService.AddUndoesDeduct | api/services/credit_service.py:29-41 | adding back the one credit a debit took restores every balance row |
| CreditService.AddCredits | api/services/credit_service.py:29-41 | `None` and no change without a balance row; otherwise the row with the amount added, committed and returned |
| NotificationService.CreateNotification | api/services/notification_service.py:8-23 | one unread notification with the given user, review and message is committed and returned |
| NotificationService.NotificationsOf | api/services/notification_service.py:33 | exactly the user's notifications, ordered by creation time descending |
| NotificationService.NotificationsNewestFirst | api/services/notification_service.py:33 | on timestamped tables the user's notifications newest first are their rows read backwards |
| NotificationService.GetUserNotifications | api/services/notification_service.py:25-33 | an unknown Clerk id gives an empty list; otherwise the user's notifications, newest first |
| NotificationService.ReadTarget | api/services/notification_service.py:39-49 | the row to mark exists exactly when the user exists and owns a notification with that id |
| NotificationService.AfterMarkRead | api/services/notification_service.py:39-53 | without a target nothing changes; otherwise only the target's read flag changes, to true |
| NotificationService.MarkReadIdempotent | api/services/notification_service.py:51-55 | marking the same notification read twice equals marking it once |
| NotificationService.MarkNotificationAsRead | api/services/notification_service.py:35-55 | `None` and nothing written for an unknown user or a missing or foreign notification; otherwise the notification, now read |
| NotificationService.AllRead | api/services/notification_service.py:65-73 | every notification of the user is read; other users' rows are untouched; only read flags change |
| NotificationService.AllReadIdempotent | api/services/notification_service.py:65-73 | marking all read a second time changes nothing |
| NotificationService.UnreadFrom | api/services/notification_service.py:65-68 | exactly the positions of the user's unread notifications |
| NotificationService.ReadUnreadIsAllRead | api/services/notification_service.py:65-71 | setting exactly the user's unread rows read is the same as every row of the user being read |
| NotificationService.ReadEach | api/services/notification_service.py:70-71 | the loop sets the read flag of each listed row and changes nothing else |
| NotificationService.ReadAllOf | api/services/notification_service.py:66-73 | the user's notifications are all read, every other row is as it was, and one commit is logged |
| NotificationService.MarkAllNotificationsAsRead | api/services/notification_service.py:57-75 | an unknown user gets an empty list and no change; otherwise all the user's notifications are read, others untouched, and the result is all the user's notifications newest first, not only the changed ones |
| ReviewService.GenerateMockReview | api/services/review_service.py:115-156 | the mock review is the fixed text, at least 100 characters long |
| ReviewService.GenerateCvReview | api/services/review_service.py:68-113 | never raises and never shorter than 100 characters: a generated text of at least 100 characters is returned as is; an empty or shorter one, or an exception, gives the mock review |
| ReviewService.CreateReview | api/services/review_service.py:16-46 | an unknown Clerk id gives `None` with no review and no notification; otherwise a pending review with the given file name and content, then exactly one notification linked to it |
| ReviewService.GetReviewsByUser | api/services/review_service.py:48-56 | an unknown Clerk id gives an empty list; otherwise exactly the user's reviews, newest first |
| ReviewService.ReviewsNewestFirst | api/services/review_service.py:56 | on timestamped tables the user's reviews newest first are their rows read backwards |
| ReviewService.GetReviewById | api/services/review_service.py:58-66 | the review exactly when the user exists and owns a review with that id; `None` otherwise |
| ReviewService.AttemptText | api/services/review_service.py:185-186 | a generation that returns gives a text of at least 100 characters (the generated one or the mock); an exception on the way gives no text |
| ReviewService.Concluded | api/services/review_service.py:188-207 | with a text the review is completed and holds exactly that text; without one it is failed and keeps its old text; its identity is kept and it is stamped with the given time |
| ReviewService.FinishedReview | api/services/review_service.py:185-207 | an answered generation completes the review with a text of at least 100 characters; an exception fails it and keeps its text; its identity is kept either way |
| ReviewService.OutcomeMessage | api/services/review_service.py:193-214 | the second notification says complete on success and failed on an exception |
| ReviewService.ProcessReviewRequest | api/services/review_service.py:158-216 | a missing id changes nothing; otherwise, whatever the prior status, the review is committed as processing with a notification, then as completed or failed with a second notification; no balance changes |
| ReviewService.StartProcessing | api/services/review_service.py:169-180 | the review becomes processing and a processing notification follows it |
| ReviewService.EndProcessing | api/services/review_service.py:188-216 | given the generated text, or none after an exception, the review is committed as completed with that text or as failed, and the matching notification follows it |
| ReviewService.CommitAndNotify | api/services/review_service.py:171-180 | one review row is overwritten with the new version and committed, then one unread notification about it is added; nothing else changes |
| ReviewsRouter.SubmittedReview | api/services/review_service.py:26-33 | the review a submission creates is pending, without review text, with the uploaded name and content |
| ReviewsRouter.SubmitReviewRequest | api/routers/reviews.py:23-65 | undecodable content raises before any write; no credit to take gives 402 with nothing written and nothing scheduled; otherwise one credit is debited, in a commit that precedes the review's, and the response is the new pending review with processing scheduled under its id |
| ReviewsRouter.DebitThenReview | api/routers/reviews.py:47-65 | the debit decides: refused gives 402 and no write; granted gives the debit, then the review and its notification |
| ReviewsRouter.GetUserReviews | api/routers/reviews.py:67-76 | the body holds under "reviews" exactly the user's reviews, newest first |
| ReviewsRouter.GetReview | api/routers/reviews.py:78-93 | 404 "Review not found" exactly when no review with that id belongs to the user; otherwise that review |
| CreditsRouter.AddedMessage | api/routers/credits.py:37 | the message reads "Added n credits", and the digits read back as the amount |
| CreditsRouter.GetCreditBalance | api/routers/credits.py:11-16 | the body holds the current balance, and nothing is changed |
| CreditsRouter.AddCredits | api/routers/credits.py:18-37 | an amount of 0 or less gives 400 with the balance unchanged; otherwise the balance grows by exactly the amount and the response reports the amount and the new balance |
| Text.Strip | api/integrations/openai.py:79 | `str.strip()`: the result is no longer than its input and has no leading or trailing whitespace |
| Text.StripPiece | api/integrations/openai.py:79 | the result of `strip()` is a piece `s[i..j]` of the input with only whitespace outside it |
| Text.StripUnique | api/integrations/openai.py:79 | any stripped piece of the input with only whitespace outside it is the result of `strip()`: these properties determine it |
| Text.StripAllSpace | api/integrations/openai.py:79 | a string of whitespace only strips to the empty string |
| Text.Split | api/integrations/openai.py:73 | `str.split('\n')`: at least one part, and no part contains the separator |
| Text.Find | api/integrations/openai.py:82 | `str.find`: the first position where the pattern occurs, or none |
| Text.ReplaceAllAbsent | api/integrations/openai.py:79 | `str.replace(p, r)` leaves a string in which the pattern does not occur unchanged |
| Text.ReplaceAllFirst | api/integrations/openai.py:86 | `str.replace(p, r)` works left to right: the text before the first occurrence is kept, that occurrence becomes `r`, and the rest after it is replaced in the same way |
| Text.ReplaceAllAtStart | api/integrations/openai.py:79 | a string that starts with the pattern has that occurrence replaced first |
| Text.RemoveAllNoLonger | api/integrations/openai.py:79 | `str.replace(p, '')` never makes a string longer |
| Text.Lower | api/routers/cv.py:105 | `str.lower()` on ASCII letters, character by character |
| Text.NatToStringValue | api/routers/credits.py:37 | formatting a number in an f-string and reading the digits back gives the number again |
| Ordering.SortDesc | api/routers/submissions.py:46 | `ORDER BY ... DESC` returns a permutation of its input, sorted by key descending |
| Ordering.SortDescOfIncreasing | api/services/notification_service.py:33 | on keys that grow along the table, descending order is the table read backwards |
| Ordering.Filter | api/routers/submissions.py:35-39 | `WHERE p` returns only rows of the table satisfying `p`, and every such row |
| Ordering.FilterAppend | api/routers/submissions.py:35-39 | `WHERE p` on two tables one after the other is the concatenation of the two results: table order and repeated rows are kept |
| Ordering.FilterOne | api/routers/submissions.py:35-39 | on one row, `WHERE p` keeps it exactly when `p` holds |
| Ordering.PageStart | api/routers/submissions.py:44 | SQLite's `OFFSET`: a negative offset counts as 0, and an offset past the end leaves nothing |
| Ordering.Page | api/routers/submissions.py:44-45 | `OFFSET skip LIMIT limit` on SQLite: the consecutive rows from the offset on, at most `limit` of them when `limit` is not negative and all of them when it is negative |
| Ordering.PageRows | api/routers/submissions.py:44-45 | a page holds rows of the table only |
| Ordering.PageSorted | api/routers/submissions.py:44-46 | a page of a table sorted by descending key is sorted the same way |
| Ordering.FirstIndex | api/services/user_service.py:12 | `.first()` finds the first row satisfying the filter, or none when no row does |
| Ordering.SumIntUpdate | api/services/credit_service.py:23 | overwriting one row changes a sum by the difference of that row's terms |

## Left out

- Variant A's `get_submission` appears twice, at api/routers/cv.py:194-230 and
  api/routers/submissions.py:52-88. The two are identical, so `SubmissionsRouter.GetSubmission`
  models both.
- File I/O is not modelled: the stored upload, its contents, and the upload directory. The
  outcome of reading the stored CV is the input `FileRead`.
- The uuid of a stored file name is a parameter.
- The OpenAI request, the Hugging Face request and Python's `float()` are inputs (`ApiCall`,
  `HfReply`, `parseFloat`). The prompts are not modelled.
- UTF-8 decoding of an upload is an input: the content arrives decoded, or as `None` when
  decoding raises.
- `datetime.utcnow()` is a logical clock. Real clock values, and two rows stamped in the same
  instant, are not modelled.
- The asyncio task, its one-second sleep, the five-second sleep in `process_review_request`,
  the background-task runner and all concurrency are not modelled. In particular, the credit
  check and the debit are not locked, so two simultaneous uploads could both pass the check;
  that race is not modelled.
- Exceptions raised by a commit or by the session are not modelled, except where the source
  catches them.
- Authentication, the frontend and document conversion are not part of this model. Ownership
  is a plain user-id comparison, and the current user of variant A is assumed to exist.
- Floating-point scores are reals. IEEE rounding, and Python's integer `0` for an empty
  average, are not distinguished from the real 0.
- Logging and `print` calls are left out.
- The database is taken to be SQLite, the default of api/config/settings.py:17. Paging follows
  SQLite's handling of negative values (`Ordering.PageStart`, `Ordering.Page`); other database
  engines, which may reject them, are not modelled.
- Text.Lower: only ASCII letters are lowered. This is exact for the extension check, whose
  targets are ASCII, but not for every Unicode name.
- `.first()` without an `ORDER BY` is taken to return rows in insertion order.
- The variant B record module, api/models/models.py, names some columns differently from the
  services that use them: `filename`/`content`/`review_result`, and no `clerk_id`. The model
  follows the services.
- CreateReview: `created_at` and `updated_at` are one clock reading, where the source reads
  the clock twice.
- ProcessReviewRequest: the exception case is modelled as one that escapes after the
  processing notification and before the completion is committed. An exception in the middle
  of the completion writes is not modelled.
- The `/credits` routes work on an authenticated user object (`app.models.user`) that is not
  part of this model. That object is modelled as `CreditsRouter.CurrentUser`, holding only
  its integer balance.
