/**
 The durable half of the job state: what State::apply() does to it, record by record.

 Everything here is a pure function of the records applied so far. Time enters only
 through the values inside records and through garbage collection, which is not logged.
 */
module Jobs {
  import opened Wrappers
  import opened LogFormat

  type JobId = nat
  type Token = nat
  type Time = int

  datatype FailureReason = WorkerFailed | LeaseExpired

  datatype Record =
    | JobEnqueued(id: JobId, queue: Bytes, payload: Bytes, priority: int, runAt: Time, maxAttempts: nat,
                  backoffBase: nat, backoffCap: nat, idemKey: Bytes, idemExpiresAt: Time, at: Time)
    | JobLeased(id: JobId, token: Token, leaseExpiresAt: Time, at: Time)
    | LeaseExtended(id: JobId, token: Token, leaseExpiresAt: Time, at: Time)
    | JobSucceeded(id: JobId, token: Token, at: Time)
    | AttemptFailed(id: JobId, token: Token, reason: FailureReason, error: Bytes, at: Time, dead: bool, retryAt: Time)
    | JobCancelled(id: JobId, at: Time)
    | DeadJobRetried(id: JobId, runAt: Time, at: Time)
    | JobsPurged(ids: seq<JobId>)

  /** The state of a job as it is persisted: scheduled and ready are both pending. */
  datatype Status = Pending | Leased | Succeeded | Dead | Cancelled

  predicate Terminal(s: Status) { s.Succeeded? || s.Dead? || s.Cancelled? }

  predicate HoldsToken(s: Status) { s.Leased? || s.Succeeded? }

  datatype Job = Job(queue: Bytes, payload: Bytes, priority: int, attempts: nat, maxAttempts: nat,
                     backoffBase: nat, backoffCap: nat, status: Status, runAt: Time, createdAt: Time,
                     finishedAt: Time, leaseExpiresAt: Time, token: Token, idemKey: Bytes, lastError: Bytes)

  datatype Totals = Totals(enqueued: nat, succeeded: nat, failedAttempts: nat, dead: nat, cancelled: nat)

  datatype IdemEntry = IdemEntry(key: Bytes, jobId: JobId, expiresAt: Time)

  datatype Durable = Durable(jobs: map<JobId, Job>, totals: map<Bytes, Totals>, nextJobId: JobId, nextToken: Token,
                             idem: seq<IdemEntry>)

  const EMPTY := Durable(map[], map[], 1, 1, [])

  datatype Retention = Retention(finished: int, dead: int)

  // --- queue names -------------------------------------------------------------------------

  const MAX_QUEUE_NAME: nat := 128

  /** Letters, digits and . _ : - */
  predicate NameByte(c: Byte) {
    0x61 <= c <= 0x7A || 0x41 <= c <= 0x5A || 0x30 <= c <= 0x39 || c == 0x2E || c == 0x5F || c == 0x3A || c == 0x2D
  }

  predicate ValidQueueName(name: Bytes) {
    name != [] && |name| <= MAX_QUEUE_NAME && forall i | 0 <= i < |name| :: NameByte(name[i])
  }

  // --- apply() ------------------------------------------------------------------------------

  predicate IsLeased(d: Durable, id: JobId, token: Token) {
    id in d.jobs && d.jobs[id].status.Leased? && d.jobs[id].token == token
  }

  /** The record fits the state; otherwise apply() refuses it. */
  predicate Applies(d: Durable, r: Record) {
    match r
    case JobEnqueued(id, queue, _, _, _, maxAttempts, _, _, _, _, _) =>
      id == d.nextJobId && queue != [] && maxAttempts != 0
    case JobLeased(id, token, _, _) =>
      id in d.jobs && d.jobs[id].status.Pending? && token == d.nextToken && d.jobs[id].attempts < d.jobs[id].maxAttempts
    case LeaseExtended(id, token, _, _) => IsLeased(d, id, token)
    case JobSucceeded(id, token, _) => IsLeased(d, id, token)
    case AttemptFailed(id, token, _, _, _, _, _) => IsLeased(d, id, token)
    case JobCancelled(id, _) => id in d.jobs && !Terminal(d.jobs[id].status)
    case DeadJobRetried(id, _, _) => id in d.jobs && d.jobs[id].status.Dead?
    case JobsPurged(ids) => forall id | id in ids :: id in d.jobs && Terminal(d.jobs[id].status)
  }

  /** The entries of other keys, in order. */
  function Without(idem: seq<IdemEntry>, key: Bytes): seq<IdemEntry> {
    if idem == [] then []
    else (if idem[0].key == key then [] else [idem[0]]) + Without(idem[1..], key)
  }

  lemma {:induction false} WithoutMembers(idem: seq<IdemEntry>, key: Bytes, e: IdemEntry)
    ensures e in Without(idem, key) <==> e in idem && e.key != key
  {
    if idem != [] {
      WithoutMembers(idem[1..], key, e);
      assert idem == [idem[0]] + idem[1..];
    }
  }

  function NewJob(r: Record): Job
    requires r.JobEnqueued?
  {
    Job(r.queue, r.payload, r.priority, 0, r.maxAttempts, r.backoffBase, r.backoffCap, Pending, r.runAt, r.at, 0, 0, 0,
        r.idemKey, [])
  }

  /** A job in a terminal state; only a succeeded one remembers its token. */
  function Finished(job: Job, status: Status, at: Time): Job {
    job.(status := status, finishedAt := at, token := if status.Succeeded? then job.token else 0)
  }

  function TotalsOf(totals: map<Bytes, Totals>, queue: Bytes): Totals {
    if queue in totals then totals[queue] else Totals(0, 0, 0, 0, 0)
  }

  /** The effect of a record on the job it names. */
  function JobAfter(job: Job, r: Record): Job
    requires !r.JobEnqueued? && !r.JobsPurged?
  {
    match r
    case JobLeased(_, token, expires, _) => job.(status := Leased, attempts := job.attempts + 1, token := token,
                                                 leaseExpiresAt := expires)
    case LeaseExtended(_, _, expires, _) => job.(leaseExpiresAt := expires)
    case JobSucceeded(_, _, at) => Finished(job, Succeeded, at)
    case AttemptFailed(_, _, _, error, at, dead, retryAt) =>
      if dead then Finished(job.(lastError := error), Dead, at)
      else job.(lastError := error, status := Pending, token := 0, runAt := retryAt)
    case JobCancelled(_, at) => Finished(job, Cancelled, at)
    case DeadJobRetried(_, runAt, _) => job.(status := Pending, attempts := 0, finishedAt := 0, runAt := runAt)
  }

  /** The lifetime totals of a queue after a record about one of its jobs. */
  function Tallied(t: Totals, r: Record): Totals {
    if r.JobEnqueued? then t.(enqueued := t.enqueued + 1)
    else if r.JobSucceeded? then t.(succeeded := t.succeeded + 1)
    else if r.AttemptFailed? then t.(failedAttempts := t.failedAttempts + 1, dead :=
                                     if r.dead then t.dead + 1 else t.dead)
    else if r.JobCancelled? then t.(cancelled := t.cancelled + 1)
    else t
  }

  predicate Tallies(r: Record) { r.JobEnqueued? || r.JobSucceeded? || r.AttemptFailed? || r.JobCancelled? }

  function Counted(totals: map<Bytes, Totals>, queue: Bytes, r: Record): map<Bytes, Totals> {
    if Tallies(r) then totals[queue := Tallied(TotalsOf(totals, queue), r)] else totals
  }

  function Upserted(idem: seq<IdemEntry>, r: Record): seq<IdemEntry>
    requires r.JobEnqueued?
  {
    if r.idemKey == [] then idem else Without(idem, r.idemKey) + [IdemEntry(r.idemKey, r.id, r.idemExpiresAt)]
  }

  function IdSet(ids: seq<JobId>): set<JobId> { set id | id in ids }

  /** The state after a record that fits. */
  function Apply(d: Durable, r: Record): Durable
    requires Applies(d, r)
  {
    if r.JobEnqueued? then
      Durable(d.jobs[r.id := NewJob(r)], Counted(d.totals, r.queue, r), r.id + 1, d.nextToken, Upserted(d.idem, r))
    else if r.JobsPurged? then
      d.(jobs := d.jobs - IdSet(r.ids))
    else
      var job := d.jobs[r.id];
      d.(jobs := d.jobs[r.id := JobAfter(job, r)],
         totals := Counted(d.totals, job.queue, r),
         nextToken := if r.JobLeased? then r.token + 1 else d.nextToken)
  }

  // --- garbage collection -----------------------------------------------------------------------

  /** A terminal job whose retention is over. */
  predicate Past(keep: Retention, job: Job, now: Time) {
    match job.status
    case Succeeded => job.finishedAt + keep.finished <= now
    case Cancelled => job.finishedAt + keep.finished <= now
    case Dead => job.finishedAt + keep.dead <= now
    case _ => false
  }

  /** Keys are dropped from the front, up to the first one that is still alive. */
  function DropExpired(idem: seq<IdemEntry>, now: Time): (r: seq<IdemEntry>) {
    if idem != [] && idem[0].expiresAt <= now then DropExpired(idem[1..], now) else idem
  }

  /** What is dropped is a prefix of expired keys, and as long as possible. */
  lemma {:induction false} DropExpiredSplits(idem: seq<IdemEntry>, now: Time) returns (gone: seq<IdemEntry>)
    ensures var rest := DropExpired(idem, now);
            idem == gone + rest && (forall i | 0 <= i < |gone| :: gone[i].expiresAt <= now) &&
              (rest != [] ==> rest[0].expiresAt > now)
  {
    if idem != [] && idem[0].expiresAt <= now {
      var tail := DropExpiredSplits(idem[1..], now);
      gone := [idem[0]] + tail;
      assert idem == [idem[0]] + idem[1..];
    } else {
      gone := [];
    }
  }

  function Kept(keep: Retention, jobs: map<JobId, Job>, now: Time): map<JobId, Job> {
    map id | id in jobs && !Past(keep, jobs[id], now) :: jobs[id]
  }

  function Collect(keep: Retention, d: Durable, now: Time): Durable {
    d.(jobs := Kept(keep, d.jobs, now), idem := DropExpired(d.idem, now))
  }

  // --- what every accepted record keeps ------------------------------------------------------------

  ghost predicate JobOk(d: Durable, id: JobId) {
    id in d.jobs ==>
      var job := d.jobs[id];
      && 1 <= id < d.nextJobId && job.queue in d.totals && job.queue != []
      && job.attempts <= job.maxAttempts && job.maxAttempts != 0
      && (HoldsToken(job.status) <==> job.token != 0) && job.token < d.nextToken
      && (job.status.Leased? ==> job.attempts != 0)
  }

  /** The part of check_invariants() that is about durable state. */
  ghost predicate Sound(d: Durable) {
    d.nextJobId >= 1 && d.nextToken >= 1 && forall id :: JobOk(d, id)
  }

  lemma ApplyKeepsSound(d: Durable, r: Record)
    requires Sound(d) && Applies(d, r)
    ensures Sound(Apply(d, r))
  {
    forall id ensures JobOk(Apply(d, r), id) {
      assert JobOk(d, id);
      if !r.JobEnqueued? && !r.JobsPurged? { assert JobOk(d, r.id); }
    }
  }

  lemma CollectKeepsSound(keep: Retention, d: Durable, now: Time)
    requires Sound(d)
    ensures Sound(Collect(keep, d, now))
  {
    forall id ensures JobOk(Collect(keep, d, now), id) { assert JobOk(d, id); }
  }
}
