/**
 The job state, told from the log alone: what each field of each job, each queue total and
 each idempotency key is after any sequence of records that fits, and which sequences fit.
 */
module JobHistory {
  import opened Wrappers
  import opened LogFormat
  import opened Jobs
  import opened JobRuns

  // --- looking things up in a log -------------------------------------------------------------

  /** What one looks for in a log. */
  datatype Topic =
    | Making(id: JobId)                  // the job is enqueued
    | Scheduling(id: JobId)              // it is told when to run
    | Restarting(id: JobId)              // its attempts start over
    | Leasing(id: JobId)                 // it is handed to a worker
    | Letting(id: JobId)                 // its lease is told when to end
    | Holding(id: JobId)                 // a lease of it begins or ends
    | Failing(id: JobId)                 // an attempt fails
    | Deciding(id: JobId)                // anything but a heartbeat
    | AnyMaking | AnyLeasing
    | Filling(queue: Bytes)              // a job is enqueued to the queue
    | Keying(key: Bytes)                 // a job is enqueued under the key
    | Succeeding(of: set<JobId>) | Faltering(of: set<JobId>) | Dying(of: set<JobId>) | Cancelling(of: set<JobId>)

  predicate About(r: Record, id: JobId) { if r.JobsPurged? then id in r.ids else r.id == id }

  predicate On(r: Record, t: Topic) {
    match t
    case Making(id) => r.JobEnqueued? && r.id == id
    case Scheduling(id) => (r.JobEnqueued? || (r.AttemptFailed? && !r.dead) || r.DeadJobRetried?) && r.id == id
    case Restarting(id) => (r.JobEnqueued? || r.DeadJobRetried?) && r.id == id
    case Leasing(id) => r.JobLeased? && r.id == id
    case Letting(id) => (r.JobLeased? || r.LeaseExtended?) && r.id == id
    case Holding(id) =>
      (r.JobLeased? || r.JobSucceeded? || r.AttemptFailed? || r.JobCancelled?) && r.id == id
    case Failing(id) => r.AttemptFailed? && r.id == id
    case Deciding(id) => !r.LeaseExtended? && About(r, id)
    case AnyMaking => r.JobEnqueued?
    case AnyLeasing => r.JobLeased?
    case Filling(queue) => r.JobEnqueued? && r.queue == queue
    case Keying(key) => r.JobEnqueued? && r.idemKey == key
    case Succeeding(of) => r.JobSucceeded? && r.id in of
    case Faltering(of) => r.AttemptFailed? && r.id in of
    case Dying(of) => r.AttemptFailed? && r.dead && r.id in of
    case Cancelling(of) => r.JobCancelled? && r.id in of
  }

  /** The latest record on the topic. */
  function Latest(recs: seq<Record>, t: Topic): (r: Option<Record>)
    ensures r.Some? ==> On(r.value, t)
  {
    if recs == [] then None
    else if On(recs[|recs| - 1], t) then Some(recs[|recs| - 1])
    else Latest(recs[..|recs| - 1], t)
  }

  /** The records after that. */
  function Since(recs: seq<Record>, t: Topic): seq<Record> {
    if recs == [] || On(recs[|recs| - 1], t) then [] else Since(recs[..|recs| - 1], t) + [recs[|recs| - 1]]
  }

  /** How many records are on the topic. */
  function Count(recs: seq<Record>, t: Topic): nat {
    if recs == [] then 0 else Count(recs[..|recs| - 1], t) + if On(recs[|recs| - 1], t) then 1 else 0
  }

  lemma OneMore(recs: seq<Record>, r: Record, t: Topic)
    ensures Latest(recs + [r], t) == if On(r, t) then Some(r) else Latest(recs, t)
    ensures Since(recs + [r], t) == if On(r, t) then [] else Since(recs, t) + [r]
    ensures Count(recs + [r], t) == Count(recs, t) + if On(r, t) then 1 else 0
  {
    assert (recs + [r])[..|recs|] == recs;
  }

  lemma {:induction false} NoneOn(recs: seq<Record>, t: Topic)
    requires forall i | 0 <= i < |recs| :: !On(recs[i], t)
    ensures Latest(recs, t) == None && Count(recs, t) == 0
  {
    if recs != [] { NoneOn(recs[..|recs| - 1], t); }
  }

  lemma {:induction false} SameOn(recs: seq<Record>, t: Topic, u: Topic)
    requires forall i | 0 <= i < |recs| :: On(recs[i], t) <==> On(recs[i], u)
    ensures Count(recs, t) == Count(recs, u)
  {
    if recs != [] { SameOn(recs[..|recs| - 1], t, u); }
  }

  // --- what the log says --------------------------------------------------------------------------

  /** What becomes of a job by a record about it; nothing if it is purged. */
  function StatusAfter(r: Record): Option<Status> {
    match r
    case JobEnqueued(_, _, _, _, _, _, _, _, _, _, _) => Some(Pending)
    case JobLeased(_, _, _, _) => Some(Leased)
    case LeaseExtended(_, _, _, _) => Some(Leased)
    case JobSucceeded(_, _, _) => Some(Succeeded)
    case AttemptFailed(_, _, _, _, _, dead, _) => Some(if dead then Dead else Pending)
    case JobCancelled(_, _) => Some(Cancelled)
    case DeadJobRetried(_, _, _) => Some(Pending)
    case JobsPurged(_) => None
  }

  /** Where the job stands: what the latest record about it, heartbeats apart, made of it. */
  function StatusOf(recs: seq<Record>, id: JobId): Option<Status> {
    var latest := Latest(recs, Deciding(id));
    if latest.Some? then StatusAfter(latest.value) else None
  }

  /** When a record tells a job to run. */
  function TimeOf(r: Record): Time {
    if r.JobEnqueued? || r.DeadJobRetried? then r.runAt else if r.AttemptFailed? then r.retryAt else 0
  }

  function FinishOf(r: Record): Time { if r.JobsPurged? then 0 else r.at }

  /** The job is as the log says, field by field. */
  ghost predicate JobIs(recs: seq<Record>, id: JobId, job: Job) {
    var made, scheduled := Latest(recs, Making(id)), Latest(recs, Scheduling(id));
    var leased, let, failed := Latest(recs, Leasing(id)), Latest(recs, Letting(id)), Latest(recs, Failing(id));
    var decided := Latest(recs, Deciding(id));
    && made.Some? && scheduled.Some? && decided.Some?
    && job.queue == made.value.queue && job.payload == made.value.payload && job.priority == made.value.priority
    && job.maxAttempts == made.value.maxAttempts && job.backoffBase == made.value.backoffBase
    && job.backoffCap == made.value.backoffCap && job.createdAt == made.value.at && job.idemKey == made.value.idemKey
    && StatusAfter(decided.value) == Some(job.status)
    && job.runAt == TimeOf(scheduled.value)
    && job.attempts == Count(Since(recs, Restarting(id)), Leasing(id))
    && job.lastError == (if failed.Some? then failed.value.error else [])
    && job.leaseExpiresAt == (if let.Some? then let.value.leaseExpiresAt else 0)
    && (HoldsToken(job.status) ==> leased.Some?)
    && job.token == (if HoldsToken(job.status) then leased.value.token else 0)
    && job.finishedAt == (if Terminal(job.status) then FinishOf(decided.value) else 0)
  }

  ghost predicate JobTold(recs: seq<Record>, d: Durable, id: JobId) {
    && (id in d.jobs <==> StatusOf(recs, id).Some?)
    && (id in d.jobs ==> JobIs(recs, id, d.jobs[id]))
  }

  /** The jobs that were enqueued to a queue. */
  function IdsOf(recs: seq<Record>, queue: Bytes): set<JobId> {
    set i | 0 <= i < |recs| && recs[i].JobEnqueued? && recs[i].queue == queue :: recs[i].id
  }

  /** How many jobs a queue got, and how many of those jobs succeeded, failed, died and were cancelled. */
  function Counts(recs: seq<Record>, queue: Bytes, ids: set<JobId>): Totals {
    Totals(Count(recs, Filling(queue)), Count(recs, Succeeding(ids)), Count(recs, Faltering(ids)),
           Count(recs, Dying(ids)), Count(recs, Cancelling(ids)))
  }

  /** The lifetime totals of a queue count its records. */
  ghost predicate QueueTold(recs: seq<Record>, d: Durable, queue: Bytes) {
    var ids := IdsOf(recs, queue);
    && (queue in d.totals <==> Latest(recs, Filling(queue)).Some?)
    && (queue in d.totals ==> d.totals[queue] == Counts(recs, queue, ids))
  }

  /** A key stands for the latest job enqueued under it. */
  ghost predicate KeyTold(recs: seq<Record>, idem: seq<IdemEntry>, e: IdemEntry) {
    var used := Latest(recs, Keying(e.key));
    e in idem <==> e.key != [] && used.Some? && used.value.id == e.jobId && used.value.idemExpiresAt == e.expiresAt
  }

  ghost predicate InJobOrder(idem: seq<IdemEntry>) {
    forall i, j | 0 <= i < j < |idem| :: idem[i].jobId < idem[j].jobId
  }

  /** Everything in the state is what the log says. */
  ghost predicate Told(recs: seq<Record>, d: Durable) {
    && d.nextJobId == 1 + Count(recs, AnyMaking) && d.nextToken == 1 + Count(recs, AnyLeasing)
    && (forall id :: JobTold(recs, d, id))
    && (forall queue :: QueueTold(recs, d, queue))
    && (forall e :: KeyTold(recs, d.idem, e)) && InJobOrder(d.idem)
  }

  /** All records are about jobs enqueued before. */
  ghost predicate Below(recs: seq<Record>, next: JobId) {
    && (forall i, id: JobId | 0 <= i < |recs| && About(recs[i], id) :: id < next)
    && next >= 1
  }

  lemma BelowNext(recs: seq<Record>, d: Durable, r: Record)
    requires Below(recs, d.nextJobId) && Sound(d) && Applies(d, r)
    ensures Below(recs + [r], Apply(d, r).nextJobId)
  {
    var all := recs + [r];
    forall i, id: JobId | 0 <= i < |all| && About(all[i], id) ensures id < Apply(d, r).nextJobId {
      assert JobOk(d, id);
    }
  }

  // --- one more record -----------------------------------------------------------------------------

  /** A record about other jobs changes nothing that is said about this one. */
  lemma OtherJob(recs: seq<Record>, d: Durable, r: Record, id: JobId)
    requires JobTold(recs, d, id) && Applies(d, r) && !About(r, id)
    ensures JobTold(recs + [r], Apply(d, r), id)
  {
    hide Latest, Since, Count, JobAfter, NewJob;
    OneMore(recs, r, Making(id));
    OneMore(recs, r, Scheduling(id));
    OneMore(recs, r, Restarting(id));
    OneMore(recs, r, Leasing(id));
    OneMore(recs, r, Letting(id));
    OneMore(recs, r, Failing(id));
    OneMore(recs, r, Deciding(id));
    OneMore(Since(recs, Restarting(id)), r, Leasing(id));
  }

  /** The job a record creates. */
  lemma MadeJob(recs: seq<Record>, d: Durable, r: Record)
    requires Below(recs, d.nextJobId) && Applies(d, r) && r.JobEnqueued?
    ensures JobTold(recs + [r], Apply(d, r), r.id)
  {
    hide Latest, Since, Count;
    var id := r.id;
    forall i | 0 <= i < |recs| ensures !On(recs[i], Letting(id)) && !On(recs[i], Failing(id)) {
      assert !About(recs[i], id);
    }
    NoneOn(recs, Letting(id));
    NoneOn(recs, Failing(id));
    OneMore(recs, r, Making(id));
    OneMore(recs, r, Scheduling(id));
    OneMore(recs, r, Restarting(id));
    OneMore(recs, r, Letting(id));
    OneMore(recs, r, Failing(id));
    OneMore(recs, r, Deciding(id));
    NoneOn([], Leasing(id));
  }

  lemma PurgedJob(recs: seq<Record>, d: Durable, r: Record, id: JobId)
    requires Applies(d, r) && r.JobsPurged? && id in r.ids
    ensures JobTold(recs + [r], Apply(d, r), id)
  {
    hide Latest;
    OneMore(recs, r, Deciding(id));
  }

  /** The job a record is about. */
  lemma ThisJob(recs: seq<Record>, d: Durable, r: Record)
    requires Applies(d, r) && !r.JobEnqueued? && !r.JobsPurged? && JobTold(recs, d, r.id)
    ensures JobTold(recs + [r], Apply(d, r), r.id)
  {
    hide Latest, Since, Count;
    var id := r.id;
    OneMore(recs, r, Making(id));
    OneMore(recs, r, Scheduling(id));
    OneMore(recs, r, Leasing(id));
    OneMore(recs, r, Letting(id));
    OneMore(recs, r, Failing(id));
    OneMore(recs, r, Deciding(id));
    AttemptsNext(recs, r);
  }

  /** Attempts are leases since the count was last set back. */
  lemma AttemptsNext(recs: seq<Record>, r: Record)
    requires !r.JobEnqueued? && !r.JobsPurged?
    ensures Count(Since(recs + [r], Restarting(r.id)), Leasing(r.id)) ==
            if r.DeadJobRetried? then 0
            else Count(Since(recs, Restarting(r.id)), Leasing(r.id)) + if r.JobLeased? then 1 else 0
  {
    hide Latest, Since, Count;
    OneMore(recs, r, Restarting(r.id));
    NoneOn([], Leasing(r.id));
    OneMore(Since(recs, Restarting(r.id)), r, Leasing(r.id));
  }

  lemma JobNext(recs: seq<Record>, d: Durable, r: Record, id: JobId)
    requires JobTold(recs, d, id) && Below(recs, d.nextJobId) && Applies(d, r)
    ensures JobTold(recs + [r], Apply(d, r), id)
  {
    hide JobTold, Below, Applies;
    if !About(r, id) {
      OtherJob(recs, d, r, id);
    } else if r.JobEnqueued? {
      MadeJob(recs, d, r);
    } else if r.JobsPurged? {
      PurgedJob(recs, d, r, id);
    } else {
      ThisJob(recs, d, r);
    }
  }

  lemma IdsNext(recs: seq<Record>, r: Record, queue: Bytes)
    ensures IdsOf(recs + [r], queue) == IdsOf(recs, queue) + if On(r, Filling(queue)) then {r.id} else {}
  {
    var all, ids := recs + [r], IdsOf(recs, queue);
    forall id | id in ids ensures id in IdsOf(all, queue) {
      var i :| 0 <= i < |recs| && recs[i].JobEnqueued? && recs[i].queue == queue && recs[i].id == id;
      assert all[i] == recs[i];
    }
    if On(r, Filling(queue)) { assert all[|recs|] == r && r.id in IdsOf(all, queue); }
  }

  /** A job that is new was in no record before. */
  lemma CountsAreOld(recs: seq<Record>, ids: set<JobId>, next: JobId)
    requires Below(recs, next)
    ensures Count(recs, Succeeding(ids + {next})) == Count(recs, Succeeding(ids))
    ensures Count(recs, Faltering(ids + {next})) == Count(recs, Faltering(ids))
    ensures Count(recs, Dying(ids + {next})) == Count(recs, Dying(ids))
    ensures Count(recs, Cancelling(ids + {next})) == Count(recs, Cancelling(ids))
  {
    hide Count;
    forall i | 0 <= i < |recs| ensures !About(recs[i], next) { }
    SameOn(recs, Succeeding(ids + {next}), Succeeding(ids));
    SameOn(recs, Faltering(ids + {next}), Faltering(ids));
    SameOn(recs, Dying(ids + {next}), Dying(ids));
    SameOn(recs, Cancelling(ids + {next}), Cancelling(ids));
  }

  /** Which queue a job is in: the one it was enqueued to, and no other. */
  lemma {:induction false} InItsQueue(recs: seq<Record>, d: Durable, id: JobId, queue: Bytes)
    requires JobTold(recs, d, id) && id in d.jobs && OnceEach(recs)
    ensures id in IdsOf(recs, queue) <==> d.jobs[id].queue == queue
  {
    var i := WhereLatest(recs, Making(id));
    assert recs[i].id == id && recs[i].queue == d.jobs[id].queue;
    if id in IdsOf(recs, queue) {
      var j :| 0 <= j < |recs| && recs[j].JobEnqueued? && recs[j].queue == queue && recs[j].id == id;
      assert i == j;
    }
  }

  lemma {:induction false} WhereLatest(recs: seq<Record>, t: Topic) returns (i: nat)
    requires Latest(recs, t).Some?
    ensures i < |recs| && recs[i] == Latest(recs, t).value
  {
    if On(recs[|recs| - 1], t) { i := |recs| - 1; } else { i := WhereLatest(recs[..|recs| - 1], t); }
  }

  /** No id is enqueued twice. */
  ghost predicate OnceEach(recs: seq<Record>) {
    forall i, j | 0 <= i < j < |recs| && recs[i].JobEnqueued? && recs[j].JobEnqueued? :: recs[i].id != recs[j].id
  }

  lemma OnceNext(recs: seq<Record>, d: Durable, r: Record)
    requires OnceEach(recs) && Below(recs, d.nextJobId) && Applies(d, r)
    ensures OnceEach(recs + [r])
  {
    forall i | 0 <= i < |recs| && recs[i].JobEnqueued? ensures recs[i].id < d.nextJobId {
      assert About(recs[i], recs[i].id);
    }
  }

  /** The five counts of a queue move by what the record is. */
  lemma CountsNext(recs: seq<Record>, r: Record, queue: Bytes, ids: set<JobId>)
    ensures Latest(recs + [r], Filling(queue)) ==
            if On(r, Filling(queue)) then Some(r) else Latest(recs, Filling(queue))
    ensures Counts(recs + [r], queue, ids) ==
            (var c := Counts(recs, queue, ids);
             if r.JobEnqueued? && r.queue == queue then Tallied(c, r)
             else if !r.JobEnqueued? && !r.JobsPurged? && r.id in ids then Tallied(c, r) else c)
  {
    hide Latest, Count, Since;
    OneMore(recs, r, Filling(queue));
    OneMore(recs, r, Succeeding(ids));
    OneMore(recs, r, Faltering(ids));
    OneMore(recs, r, Dying(ids));
    OneMore(recs, r, Cancelling(ids));
  }

  lemma QueueFilled(recs: seq<Record>, d: Durable, r: Record, queue: Bytes)
    requires QueueTold(recs, d, queue) && Below(recs, d.nextJobId) && OnceEach(recs) && Applies(d, r)
    requires r.JobEnqueued? && r.queue == queue
    ensures QueueTold(recs + [r], Apply(d, r), queue)
  {
    hide Latest, Count, Since, IdsOf, Below, OnceEach, NewJob;
    var ids := IdsOf(recs, queue);
    IdsNext(recs, r, queue);
    CountsNext(recs, r, queue, ids + {r.id});
    CountsAreOld(recs, ids, r.id);
    if queue !in d.totals { NothingFor(recs, queue); }
  }

  lemma QueueNext(recs: seq<Record>, d: Durable, r: Record, queue: Bytes)
    requires QueueTold(recs, d, queue) && Below(recs, d.nextJobId) && OnceEach(recs) && Applies(d, r)
    requires !r.JobEnqueued? && !r.JobsPurged? ==> JobTold(recs, d, r.id)
    requires Sound(d)
    ensures QueueTold(recs + [r], Apply(d, r), queue)
  {
    hide Latest, Count, Since, Counts, IdsOf, Below, OnceEach, JobTold, JobAfter, NewJob, Tallied;
    if On(r, Filling(queue)) {
      QueueFilled(recs, d, r, queue);
    } else {
      var ids := IdsOf(recs, queue);
      IdsNext(recs, r, queue);
      assert ids + {} == ids;
      CountsNext(recs, r, queue, ids);
      if !r.JobEnqueued? && !r.JobsPurged? {
        InItsQueue(recs, d, r.id, queue);
        assert JobOk(d, r.id);
        if !Tallies(r) { NotTallied(Counts(recs, queue, ids), r); }
      }
    }
  }

  lemma NotTallied(c: Totals, r: Record)
    requires !Tallies(r)
    ensures Tallied(c, r) == c
  {
  }

  /** Nothing counts for a queue without jobs. */
  lemma NothingFor(recs: seq<Record>, queue: Bytes)
    requires Latest(recs, Filling(queue)).None?
    ensures IdsOf(recs, queue) == {} && Count(recs, Filling(queue)) == 0
    ensures Count(recs, Succeeding({})) == 0 && Count(recs, Faltering({})) == 0 && Count(recs, Dying({})) == 0
    ensures Count(recs, Cancelling({})) == 0
  {
    forall i | 0 <= i < |recs| ensures !On(recs[i], Filling(queue)) {
      if On(recs[i], Filling(queue)) { SomeLatest(recs, Filling(queue), i); }
    }
    NoneOn(recs, Filling(queue));
    NoneOn(recs, Succeeding({}));
    NoneOn(recs, Faltering({}));
    NoneOn(recs, Dying({}));
    NoneOn(recs, Cancelling({}));
  }

  lemma {:induction false} SomeLatest(recs: seq<Record>, t: Topic, i: nat)
    requires i < |recs| && On(recs[i], t)
    ensures Latest(recs, t).Some?
  {
    if i < |recs| - 1 { SomeLatest(recs[..|recs| - 1], t, i); }
  }

  lemma {:induction false} WithoutInOrder(idem: seq<IdemEntry>, key: Bytes)
    requires InJobOrder(idem)
    ensures InJobOrder(Without(idem, key))
  {
    if idem != [] {
      var rest := Without(idem[1..], key);
      WithoutInOrder(idem[1..], key);
      forall i | 0 <= i < |rest| ensures idem[0].jobId < rest[i].jobId {
        assert rest[i] in rest;
        WithoutMembers(idem[1..], key, rest[i]);
      }
    }
  }

  lemma KeysNext(recs: seq<Record>, d: Durable, r: Record)
    requires (forall e :: KeyTold(recs, d.idem, e)) && InJobOrder(d.idem) && Below(recs, d.nextJobId) && Applies(d, r)
    ensures (forall e :: KeyTold(recs + [r], Apply(d, r).idem, e)) && InJobOrder(Apply(d, r).idem)
  {
    hide Latest, JobAfter, NewJob, Without;
    var idem := Apply(d, r).idem;
    forall e ensures KeyTold(recs + [r], idem, e) {
      assert KeyTold(recs, d.idem, e);
      OneMore(recs, r, Keying(e.key));
      if r.JobEnqueued? { WithoutMembers(d.idem, r.idemKey, e); }
    }
    if r.JobEnqueued? && r.idemKey != [] {
      WithoutInOrder(d.idem, r.idemKey);
      forall e | e in Without(d.idem, r.idemKey) ensures e.jobId < r.id {
        WithoutMembers(d.idem, r.idemKey, e);
        assert KeyTold(recs, d.idem, e);
        var i := WhereLatest(recs, Keying(e.key));
        assert About(recs[i], e.jobId);
      }
    }
  }

  /** What holds of the log itself while its records fit. */
  ghost predicate Regular(recs: seq<Record>, d: Durable) { Sound(d) && Below(recs, d.nextJobId) && OnceEach(recs) }

  lemma RegularNext(recs: seq<Record>, d: Durable, r: Record)
    requires Regular(recs, d) && Applies(d, r)
    ensures Regular(recs + [r], Apply(d, r))
  {
    hide Sound, Below, OnceEach, Apply, Applies;
    ApplyKeepsSound(d, r);
    BelowNext(recs, d, r);
    OnceNext(recs, d, r);
  }

  lemma ToldNext(recs: seq<Record>, d: Durable, r: Record)
    requires Told(recs, d) && Regular(recs, d) && Applies(d, r)
    ensures Told(recs + [r], Apply(d, r))
  {
    hide JobTold, QueueTold, KeyTold, Below, OnceEach, Apply, Applies, Count, InJobOrder, Sound;
    CountersNext(recs, d, r);
    KeysNext(recs, d, r);
    forall id ensures JobTold(recs + [r], Apply(d, r), id) { JobNext(recs, d, r, id); }
    forall queue ensures QueueTold(recs + [r], Apply(d, r), queue) { QueueNext(recs, d, r, queue); }
  }

  /** Whatever fits: the state is what the log says. */
  lemma {:induction false} LogTells(recs: seq<Record>)
    requires Accepted(EMPTY, recs)
    ensures Told(recs, Replay(EMPTY, recs)) && Regular(recs, Replay(EMPTY, recs))
  {
    hide Told, Regular, Apply, Applies;
    if recs == [] {
      NothingTold();
    } else {
      var before, r := recs[..|recs| - 1], recs[|recs| - 1];
      LogTells(before);
      assert before + [r] == recs;
      ToldNext(before, Replay(EMPTY, before), r);
      RegularNext(before, Replay(EMPTY, before), r);
    }
  }

  lemma NothingTold()
    ensures Told([], EMPTY) && Regular([], EMPTY)
  {
  }

  lemma CountersNext(recs: seq<Record>, d: Durable, r: Record)
    requires Applies(d, r) && d.nextJobId == 1 + Count(recs, AnyMaking) && d.nextToken == 1 + Count(recs, AnyLeasing)
    ensures var d' := Apply(d, r);
            d'.nextJobId == 1 + Count(recs + [r], AnyMaking) && d'.nextToken == 1 + Count(recs + [r], AnyLeasing)
  {
    OneMore(recs, r, AnyMaking);
    OneMore(recs, r, AnyLeasing);
  }

  // --- which logs fit ------------------------------------------------------------------------------------

  /** The record fits after these, by what they say. */
  ghost predicate Follows(recs: seq<Record>, r: Record) {
    match r
    case JobEnqueued(id, queue, _, _, _, maxAttempts, _, _, _, _, _) =>
      id == 1 + Count(recs, AnyMaking) && queue != [] && maxAttempts != 0
    case JobLeased(id, token, _, _) =>
      && StatusOf(recs, id) == Some(Pending) && token == 1 + Count(recs, AnyLeasing)
      && Latest(recs, Making(id)).Some?
      && Count(Since(recs, Restarting(id)), Leasing(id)) < Latest(recs, Making(id)).value.maxAttempts
    case LeaseExtended(id, token, _, _) => HoldsLease(recs, id, token)
    case JobSucceeded(id, token, _) => HoldsLease(recs, id, token)
    case AttemptFailed(id, token, _, _, _, _, _) => HoldsLease(recs, id, token)
    case JobCancelled(id, _) => StatusOf(recs, id) in {Some(Pending), Some(Leased)}
    case DeadJobRetried(id, _, _) => StatusOf(recs, id) == Some(Dead)
    case JobsPurged(ids) =>
      forall id | id in ids :: StatusOf(recs, id) in {Some(Succeeded), Some(Dead), Some(Cancelled)}
  }

  /** The job is leased, and under this token. */
  ghost predicate HoldsLease(recs: seq<Record>, id: JobId, token: Token) {
    var leased := Latest(recs, Leasing(id));
    StatusOf(recs, id) == Some(Leased) && leased.Some? && leased.value.token == token
  }

  lemma FollowsIfFits(recs: seq<Record>, d: Durable, r: Record)
    requires Told(recs, d)
    ensures Applies(d, r) <==> Follows(recs, r)
  {
    hide Latest, Count, Since, QueueTold, KeyTold, InJobOrder;
    if r.JobsPurged? {
      forall id | id in r.ids
        ensures (id in d.jobs && Terminal(d.jobs[id].status)) <==>
                StatusOf(recs, id) in {Some(Succeeded), Some(Dead), Some(Cancelled)}
      {
        assert JobTold(recs, d, id);
      }
    } else {
      assert JobTold(recs, d, r.id);
    }
  }

  /** A log is accepted exactly if every record follows from those before it. */
  lemma {:induction false} AcceptedIff(recs: seq<Record>)
    ensures Accepted(EMPTY, recs) <==> forall i | 0 <= i < |recs| :: Follows(recs[..i], recs[i])
  {
    hide Follows, Applies, Apply, Told, Regular;
    if recs != [] {
      var n := |recs| - 1;
      var before := recs[..n];
      AcceptedIff(before);
      forall i | 0 <= i < n ensures before[..i] == recs[..i] { }
      if Accepted(EMPTY, before) {
        LogTells(before);
        FollowsIfFits(before, Replay(EMPTY, before), recs[n]);
        assert Accepted(EMPTY, recs) <==> Follows(recs[..n], recs[n]);
      }
    }
  }

  // --- whole runs of the Engine ------------------------------------------------------------------------------

  /** The live state is what the log says: every job it still has, every total, both counters,
      and every key that has not expired. */
  lemma RunTells(policy: Policy, events: seq<Event>, now: Time)
    requires EngineRun(policy, EMPTY, events, now)
    ensures var recs, d := Records(events), Run(policy.keep, EMPTY, events);
            && Accepted(EMPTY, recs)
            && d.nextJobId == 1 + Count(recs, AnyMaking) && d.nextToken == 1 + Count(recs, AnyLeasing)
            && (forall id | id in d.jobs :: JobIs(recs, id, d.jobs[id]) && StatusOf(recs, id).Some?)
            && (forall queue :: QueueTold(recs, d, queue))
            && InJobOrder(d.idem) && forall e | e in d.idem || e.expiresAt > now :: KeyTold(recs, d.idem, e)
  {
    hide Trails, EngineRun, Run, JobIs, Count, Latest, Since, Accepted, Replay, Records, Regular, IdsOf;
    var recs, live := Records(events), Run(policy.keep, EMPTY, events);
    NothingTold();
    var gone := TailTrails(policy, EMPTY, events, now, 0);
    assert events[..0] == [] && events[0..] == events;
    assert Run(policy.keep, EMPTY, []) == EMPTY by { NoEvents(policy.keep); }
    LogTells(recs);
    LiveTold(policy.keep, recs, live, Replay(EMPTY, recs), now, gone);
  }

  lemma NoEvents(keep: Retention)
    ensures Run(keep, EMPTY, []) == EMPTY
  {
  }

  lemma LiveTold(keep: Retention, recs: seq<Record>, live: Durable, d: Durable, now: Time, gone: seq<IdemEntry>)
    requires Trails(keep, live, d, now, gone) && Told(recs, d)
    ensures live.nextJobId == d.nextJobId && live.nextToken == d.nextToken
    ensures forall id | id in live.jobs :: JobIs(recs, id, live.jobs[id]) && StatusOf(recs, id).Some?
    ensures forall queue :: QueueTold(recs, live, queue)
    ensures InJobOrder(live.idem) && forall e | e in live.idem || e.expiresAt > now :: KeyTold(recs, live.idem, e)
  {
    hide JobIs, Count, Latest, IdsOf, Past;
    forall id | id in live.jobs ensures JobIs(recs, id, live.jobs[id]) && StatusOf(recs, id).Some? {
      assert SameOrPast(keep, live, d, now, id) && JobTold(recs, d, id);
    }
    forall queue ensures QueueTold(recs, live, queue) { assert QueueTold(recs, d, queue); }
    forall i, j | 0 <= i < j < |live.idem| ensures live.idem[i].jobId < live.idem[j].jobId {
      assert d.idem[|gone| + i] == live.idem[i] && d.idem[|gone| + j] == live.idem[j];
    }
    forall e | e in live.idem || e.expiresAt > now ensures KeyTold(recs, live.idem, e) {
      assert KeyTold(recs, d.idem, e);
    }
  }

  // --- retention ------------------------------------------------------------------------------------------------

  /** By what the log says, the job has finished and its retention is over. */
  ghost predicate Overdue(keep: Retention, recs: seq<Record>, id: JobId, t: Time) {
    match Latest(recs, Deciding(id))
    case None => false
    case Some(r) =>
      || ((r.JobSucceeded? || r.JobCancelled?) && r.at + keep.finished <= t)
      || (r.AttemptFailed? && r.dead && r.at + keep.dead <= t)
  }

  /** The k-th event is a collection, and the job is overdue there. */
  ghost predicate CollectedAt(keep: Retention, events: seq<Event>, id: JobId, k: nat) {
    k < |events| && events[k].Collected? && Overdue(keep, Records(events[..k]), id, events[k].now)
  }

  lemma PastIfOverdue(keep: Retention, recs: seq<Record>, id: JobId, job: Job, t: Time)
    requires JobIs(recs, id, job)
    ensures Past(keep, job, t) <==> Overdue(keep, recs, id, t)
  {
    hide Latest, Count, Since;
  }

  lemma {:induction false} RecordsGrow(events: seq<Event>, k: nat)
    requires k <= |events|
    ensures Records(events[..k]) <= Records(events)
  {
    if k < |events| {
      RecordsGrow(events[..|events| - 1], k);
      assert events[..|events| - 1][..k] == events[..k];
    } else {
      assert events[..k] == events;
    }
  }

  /** A job nobody has heard of was never collected. */
  lemma NotCollectedYet(keep: Retention, events: seq<Event>, id: JobId, k: nat)
    requires Below(Records(events), id)
    ensures !CollectedAt(keep, events, id, k)
  {
    if k < |events| {
      RecordsGrow(events, k);
      var recs, all := Records(events[..k]), Records(events);
      forall i | 0 <= i < |recs| ensures !On(recs[i], Deciding(id)) {
        assert recs[i] == all[i] && !About(all[i], id);
      }
      NoneOn(recs, Deciding(id));
    }
  }

  lemma NeverCollected(keep: Retention, events: seq<Event>, id: JobId)
    requires Below(Records(events), id)
    ensures forall k: nat :: !CollectedAt(keep, events, id, k)
  {
    hide CollectedAt;
    forall k: nat ensures !CollectedAt(keep, events, id, k) { NotCollectedYet(keep, events, id, k); }
  }

  /** A job is kept exactly as long as it should be: it is there if and only if it was enqueued,
      not purged, and no collection has found its retention to be over. */
  lemma {:induction false} RunKeeps(policy: Policy, events: seq<Event>, now: Time, id: JobId)
    requires EngineRun(policy, EMPTY, events, now)
    ensures id in Run(policy.keep, EMPTY, events).jobs <==>
            StatusOf(Records(events), id).Some? && forall k: nat :: !CollectedAt(policy.keep, events, id, k)
    decreases |events|
  {
    hide Latest, Since, Count, JobIs, Applies, Apply, Resolved, CollectedAt, StatusOf, Accepted, Replay;
    var keep := policy.keep;
    if events == [] {
      NothingKept(keep, id);
    } else {
      var before, last := events[..|events| - 1], events[|events| - 1];
      RunKeeps(policy, before, last.now, id);
      RunTells(policy, before, last.now);
      assert before + [last] == events;
      EarlierOrNow(keep, before, last, id);
      match last
      case Collected(t) => KeptByCollection(keep, before, t, id);
      case Logged(r, t) =>
        LogTells(Records(before));
        KeptByRecord(policy, before, r, t, id);
    }
  }

  lemma NothingKept(keep: Retention, id: JobId)
    ensures StatusOf(Records([]), id).None? && id !in Run(keep, EMPTY, []).jobs
  {
  }

  lemma SameAt(keep: Retention, before: seq<Event>, last: Event, id: JobId, k: nat)
    requires k < |before|
    ensures CollectedAt(keep, before + [last], id, k) <==> CollectedAt(keep, before, id, k)
  {
    assert (before + [last])[..k] == before[..k];
  }

  lemma EarlierOrNow(keep: Retention, before: seq<Event>, last: Event, id: JobId)
    ensures var events := before + [last];
            (forall k: nat :: !CollectedAt(keep, events, id, k))
            <==> !CollectedAt(keep, events, id, |before|) && forall k: nat :: !CollectedAt(keep, before, id, k)
  {
    hide Overdue;
    var events := before + [last];
    forall k: nat ensures k < |before| ==> (CollectedAt(keep, events, id, k) <==> CollectedAt(keep, before, id, k)) {
      if k < |before| { SameAt(keep, before, last, id, k); }
    }
  }

  lemma KeptByCollection(keep: Retention, before: seq<Event>, t: Time, id: JobId)
    requires var d, recs := Run(keep, EMPTY, before), Records(before);
             id in d.jobs ==> JobIs(recs, id, d.jobs[id])
    ensures var events, d := before + [Event.Collected(t)], Run(keep, EMPTY, before);
            && Records(events) == Records(before)
            && (id in Run(keep, EMPTY, events).jobs ==> id in d.jobs && !CollectedAt(keep, events, id, |before|))
            && (id in d.jobs && !CollectedAt(keep, events, id, |before|) ==> id in Run(keep, EMPTY, events).jobs)
  {
    hide JobIs, Overdue;
    var events, d, recs := before + [Event.Collected(t)], Run(keep, EMPTY, before), Records(before);
    assert events[..|before|] == before;
    if id in d.jobs { PastIfOverdue(keep, recs, id, d.jobs[id], t); }
  }

  lemma KeptByRecord(policy: Policy, before: seq<Event>, r: Record, t: Time, id: JobId)
    requires var d, recs := Run(policy.keep, EMPTY, before), Records(before);
             && Allowed(policy, d, Logged(r, t)) && Below(recs, d.nextJobId)
             && (id in d.jobs <==>
                 StatusOf(recs, id).Some? && forall k: nat :: !CollectedAt(policy.keep, before, id, k))
    ensures var events := before + [Logged(r, t)];
            && !CollectedAt(policy.keep, events, id, |before|)
            && (id in Run(policy.keep, EMPTY, events).jobs <==>
                StatusOf(Records(events), id).Some? && forall k: nat :: !CollectedAt(policy.keep, before, id, k))
  {
    hide Latest, CollectedAt, JobAfter, NewJob, Resolved;
    var d, recs, events := Run(policy.keep, EMPTY, before), Records(before), before + [Logged(r, t)];
    assert events[..|before|] == before;
    assert !CollectedAt(policy.keep, events, id, |before|) by { NotAtRecord(policy.keep, events, id, |before|); }
    OneMore(recs, r, Deciding(id));
    if About(r, id) && r.JobEnqueued? {
      NeverCollected(policy.keep, before, id);
    }
  }

  lemma NotAtRecord(keep: Retention, events: seq<Event>, id: JobId, k: nat)
    requires k < |events| && events[k].Logged?
    ensures !CollectedAt(keep, events, id, k)
  {
  }
}
