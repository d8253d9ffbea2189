/**
 * Variant A's in-memory job queue: a FIFO list of jobs, a map of the jobs being
 * run, and a running flag. The asyncio task and its one-second sleep are not
 * modelled; one pass of the `while True` loop is `Step`, and a finite run of
 * passes is `RunIterations`.
 */
module JobQueues {
  import opened Wrappers
  import opened Ordering
  import opened SqlDb
  import opened OpenAiAnalysis
  import opened CvRouter

  /** The keyword arguments a job hands to `process_cv`, besides the session. */
  datatype JobParams = JobParams(submissionId: int)

  /** A queue entry: `{"id", "params", "added_at"}`. */
  datatype Job = Job(id: int, params: JobParams, addedAt: nat)

  /** What the outside world does while one dispatched job runs: the file read and the model call. */
  datatype Run = Run(read: FileRead, call: ApiCall)

  function JobIds(jobs: seq<Job>): (r: seq<int>)
    ensures |r| == |jobs| && forall i :: 0 <= i < |jobs| ==> r[i] == jobs[i].id
    decreases |jobs|
  {
    if jobs == [] then [] else [jobs[0].id] + JobIds(jobs[1..])
  }

  /** Taking one more job from the front extends the dispatched ids by that job's id. */
  lemma JobIdsSnoc(jobs: seq<Job>, n: nat)
    requires n < |jobs|
    ensures JobIds(jobs[..n + 1]) == JobIds(jobs[..n]) + [jobs[n].id]
  {
  }

  class JobQueue {
    var queue: seq<Job>
    var processing: map<int, Job>
    var isRunning: bool

    /** A new queue: nothing queued, nothing being processed, not running. */
    constructor ()
      ensures queue == [] && processing == map[] && !isRunning
    {
      queue := [];
      processing := map[];
      isRunning := false;
    }

    /** `start_processing`: a no-op when running; otherwise it marks the queue running. */
    method StartProcessing()
      modifies this
      ensures isRunning
      ensures queue == old(queue) && processing == old(processing)
    {
      if isRunning {
        return;
      }
      isRunning := true;
    }

    /**
     * `add_job`: appends one job at the tail, leaving the jobs before it in order, and
     * starts processing when it was not already running.
     */
    method AddJob(jobId: int, params: JobParams, now: nat)
      modifies this
      ensures queue == old(queue) + [Job(jobId, params, now)]
      ensures processing == old(processing)
      ensures isRunning
    {
      queue := queue + [Job(jobId, params, now)];
      if !isRunning {
        StartProcessing();
      }
    }

    /** `self.queue.pop(0)` and `self.processing[job_id] = job`: the head job is marked as running. */
    method Claim() returns (job: Job)
      requires queue != []
      modifies this
      ensures job == old(queue)[0] && queue == old(queue)[1..]
      ensures processing == old(processing)[job.id := job]
      ensures isRunning == old(isRunning)
    {
      job := queue[0];
      queue := queue[1..];
      processing := processing[job.id := job];
    }

    /** The `finally` of a dispatch: the job id leaves `processing`, whatever the run did. */
    method Release(jobId: int)
      modifies this
      ensures processing == old(processing) - {jobId}
      ensures queue == old(queue) && isRunning == old(isRunning)
    {
      if jobId in processing {
        processing := processing - {jobId};
      }
    }

    /**
     * One pass of `_process_jobs`. On an empty queue nothing changes. Otherwise the
     * head job is taken off, marked as processing, run through `process_cv`, and
     * removed from `processing` again; the next pass sees the rest of the queue.
     */
    method Step(db: Database, run: Run, apiKey: Option<string>, parseFloat: string -> Option<real>)
      returns (dispatched: Option<int>)
      requires db.Valid()
      modifies this, db
      ensures db.Valid()
      ensures isRunning == old(isRunning)
      ensures old(queue) == [] ==>
                && dispatched == None && queue == old(queue) && processing == old(processing)
                && db.submissions == old(db.submissions) && db.clock == old(db.clock)
      ensures old(queue) != [] ==>
                var job := old(queue)[0];
                && dispatched == Some(job.id)
                && queue == old(queue)[1..]
                && processing == old(processing) - {job.id}
                && db.submissions == ProcessedTable(old(db.submissions), job.params.submissionId, run.read, apiKey, run.call, parseFloat, old(db.clock))
      ensures db.users == old(db.users) && db.transactions == old(db.transactions)
    {
      if queue == [] {
        return None;
      }
      var job := Claim();
      ProcessCv(db, job.params.submissionId, run.read, apiKey, run.call, parseFloat);
      Release(job.id);
      dispatched := Some(job.id);
    }

    /**
     * A number of passes of `_process_jobs`, one per element of `runs`: the jobs are
     * dispatched in the order they were queued, one per pass while any are left.
     * What each pass does to the submissions table is stated by `Step`; here the
     * table is only kept valid, and users and transactions are untouched.
     */
    method RunIterations(db: Database, runs: seq<Run>, apiKey: Option<string>, parseFloat: string -> Option<real>)
      returns (dispatched: seq<int>)
      requires db.Valid()
      modifies this, db
      ensures db.Valid()
      ensures dispatched == JobIds(old(queue)[..Min(|runs|, |old(queue)|)])
      ensures queue == old(queue)[Min(|runs|, |old(queue)|)..]
      ensures forall id :: id in processing <==> id in old(processing) && id !in dispatched
      ensures isRunning == old(isRunning)
      ensures db.users == old(db.users) && db.transactions == old(db.transactions)
    {
      ghost var q0 := queue;
      dispatched := [];
      var i := 0;
      while i < |runs|
        invariant 0 <= i <= |runs|
        invariant db.Valid()
        invariant dispatched == JobIds(q0[..Min(i, |q0|)])
        invariant queue == q0[Min(i, |q0|)..]
        invariant forall id :: id in processing <==> id in old(processing) && id !in dispatched
        invariant isRunning == old(isRunning)
        invariant db.users == old(db.users) && db.transactions == old(db.transactions)
      {
        var d := Step(db, runs[i], apiKey, parseFloat);
        if d.Some? {
          JobIdsSnoc(q0, i);
          dispatched := dispatched + [d.value];
        }
        i := i + 1;
      }
    }

    /** The `finally` of `_process_jobs`: once the loop ends, the queue is no longer running. */
    method Stop()
      modifies this
      ensures !isRunning
      ensures queue == old(queue) && processing == old(processing)
    {
      isRunning := false;
    }
  }
}
