/**
 Engine: one method per command. Each validates the request, resolves clock, counters
 and jitter into a record, and applies and logs that record.
 */
module Engines {
  import opened Wrappers
  import opened LogFormat
  import opened Jobs
  import opened JobRuns
  import opened JobFacts
  import opened JobIndex
  import opened States
  import H = ReadyHeaps
  import T = TimingWheels

  const MAX_IDEM_KEY: nat := 256
  const MAX_ERROR: nat := 1024
  const PURGE_CHUNK: nat := 10_000
  const LEASE_EXPIRED: Bytes := [0x6C, 0x65, 0x61, 0x73, 0x65, 0x20, 0x65, 0x78, 0x70, 0x69, 0x72, 0x65, 0x64]

  datatype Options = Options(maxAttempts: nat, backoffBase: nat, backoffCap: nat, window: int, maxPayload: nat,
                             minLease: int, maxLease: int, maxDelay: int, maxMaxAttempts: nat, leaseGrace: int,
                             jumpThreshold: int)

  datatype Error = Invalid | LimitExceeded | NotFound | StaleToken | FailedPrecondition
  datatype Result<+V> = Answer(value: V) | Refusal(error: Error)

  datatype EnqueueRequest = EnqueueRequest(queue: Bytes, payload: Bytes, priority: int, delay: int, runAt: Option<Time>,
                                           maxAttempts: Option<nat>, backoffBase: Option<nat>, backoffCap: Option<nat>,
                                           idemKey: Bytes)
  datatype Enqueued = Enqueued(id: JobId, created: bool)
  datatype Reservation = Reservation(id: JobId, token: Token, queue: Bytes, payload: Bytes, attempt: nat,
                                     maxAttempts: nat, leaseExpiresAt: Time)
  datatype FailRequest = FailRequest(id: JobId, token: Token, error: Bytes, retryIn: Option<int>, noRetry: bool)
  datatype Failed = Failed(dead: bool, retryAt: Time)

  function ValueOr<V>(o: Option<V>, v: V): V { if o.Some? then o.value else v }

  // --- backoff ------------------------------------------------------------------------------

  function Pow2(n: nat): (p: nat)
    ensures p >= 1
  {
    if n == 0 then 1 else 2 * Pow2(n - 1)
  }

  function MinOf(a: nat, b: nat): nat { if a < b then a else b }

  function BackoffCeiling(attempts: nat, base: nat, cap: nat): nat {
    var doublings: nat := if attempts == 0 then 0 else attempts - 1;
    if doublings >= 32 then cap else MinOf(base * Pow2(doublings), cap)
  }

  lemma {:induction false} Pow2Grows(n: nat)
    requires n >= 32
    ensures Pow2(n) >= 0x1_0000_0000
  {
    if n == 32 {
      assert Pow2(8) == 256;
      Pow2Adds(8, 8);
      Pow2Adds(16, 16);
    } else {
      Pow2Grows(n - 1);
    }
  }

  lemma {:induction false} Pow2Adds(a: nat, b: nat)
    ensures Pow2(a + b) == Pow2(a) * Pow2(b)
  {
    if a > 0 { Pow2Adds(a - 1, b); }
  }

  /** The ceiling is min(cap, base * 2^(attempts - 1)), except that with base 0 it jumps to
      the cap from the 33rd attempt on. */
  lemma BackoffIsCapped(attempts: nat, base: nat, cap: nat)
    requires attempts >= 1 && base < 0x1_0000_0000 && cap < 0x1_0000_0000
    ensures BackoffCeiling(attempts, base, cap) == MinOf(base * Pow2(attempts - 1), cap) <==>
            base > 0 || cap == 0 || attempts <= 32
  {
    if attempts > 32 {
      Pow2Grows(attempts - 1);
      if base > 0 {
        assert base * Pow2(attempts - 1) >= Pow2(attempts - 1) by { Scale(base, Pow2(attempts - 1)); }
      }
    }
  }

  /** It starts at the base and doubles with every attempt, up to the cap; with base 0 it does so
      up to the 32nd attempt. */
  lemma BackoffDoubles(attempts: nat, base: nat, cap: nat)
    requires base < 0x1_0000_0000 && cap < 0x1_0000_0000
    ensures BackoffCeiling(1, base, cap) == (if base < cap then base else cap)
    ensures attempts >= 1 && (base > 0 || attempts < 32) ==>
              var ceiling := BackoffCeiling(attempts, base, cap);
              BackoffCeiling(attempts + 1, base, cap) == if 2 * ceiling < cap then 2 * ceiling else cap
  {
    hide BackoffCeiling;
    if attempts >= 1 && (base > 0 || attempts < 32) {
      BackoffIsCapped(attempts, base, cap);
      BackoffIsCapped(attempts + 1, base, cap);
      Twice(base, Pow2(attempts - 1));
    }
    BackoffIsCapped(1, base, cap);
  }

  lemma Twice(a: nat, b: nat)
    ensures a * (2 * b) == 2 * (a * b)
  {
  }

  lemma Scale(a: nat, b: nat)
    requires a >= 1
    ensures a * b >= b
  {
  }

  lemma BackoffOfZeroJumps()
    ensures BackoffCeiling(33, 0, 1000) == 1000
  {
  }

  /** The wall clock has never gone back, and the history accounts for the state. */
  ghost predicate Accounts(policy: Policy, state: State, log: seq<Record>, events: seq<Event>)
    reads state
  {
    && EngineRun(policy, EMPTY, events, state.wallNow) && Run(policy.keep, EMPTY, events) == state.Persistent()
    && Records(events) == log && state.Chronological()
  }

  ghost predicate AllCanRun(d: Durable) {
    forall id :: CanRun(d, id)
  }

  /** A record whose lease, if any, ends later leaves no lease overdue. */
  lemma StillInTime(d: Durable, r: Record, was: map<JobId, LiveJob>, jobs: map<JobId, LiveJob>, after: Durable,
                    now: Time, graceUntil: Time)
    requires Applies(d, r) && after == Apply(d, r) && d.jobs == DurableJobs(was) && after.jobs == DurableJobs(jobs)
    requires r.JobLeased? || r.LeaseExtended? ==> r.leaseExpiresAt > now
    requires NoneOverdue(was, {}, now, graceUntil)
    ensures NoneOverdue(jobs, {}, now, graceUntil)
  {
    forall id | id !in {} ensures NotOverdue(jobs, now, graceUntil, id) {
      assert NotOverdue(was, now, graceUntil, id);
      if id in jobs { assert id in after.jobs && after.jobs[id] == jobs[id].job; }
    }
  }

  lemma AllCanRunNext(policy: Policy, d: Durable, r: Record, now: Time)
    requires Sound(d) && AllCanRun(d) && Applies(d, r) && Resolved(policy, d, r, now)
    ensures AllCanRun(Apply(d, r))
  {
    forall id ensures CanRun(Apply(d, r), id) { assert CanRun(d, id) && JobOk(d, id); }
  }

  /** What a record does to the jobs, spelled out. */
  lemma EffectOf(d: Durable, r: Record)
    requires Applies(d, r)
    ensures match r
            case JobEnqueued(id, queue, payload, priority, runAt, maxAttempts, base, cap, key, expires, at) =>
              var d' := Apply(d, r);
              && id in d'.jobs && d'.jobs == d.jobs[id := d'.jobs[id]]
              && var job := d'.jobs[id];
                 && job.queue == queue && job.payload == payload && job.priority == priority && job.runAt == runAt
                 && job.maxAttempts == maxAttempts && job.backoffBase == base && job.backoffCap == cap
                 && job.idemKey == key && job.createdAt == at && job.status.Pending? && job.attempts == 0
                 && job.token == 0 && job.lastError == [] && job.leaseExpiresAt == 0 && job.finishedAt == 0
                 && (key != [] ==> d'.idem != [] && d'.idem[|d'.idem| - 1] == IdemEntry(key, id, expires))
            case JobLeased(id, token, expires, _) =>
              Apply(d, r).jobs == d.jobs[id := d.jobs[id].(status := Status.Leased, attempts := d.jobs[id].attempts + 1,
                                                           token := token, leaseExpiresAt := expires)]
            case LeaseExtended(id, _, expires, _) =>
              Apply(d, r).jobs == d.jobs[id := d.jobs[id].(leaseExpiresAt := expires)]
            case JobSucceeded(id, _, at) =>
              Apply(d, r).jobs == d.jobs[id := d.jobs[id].(status := Status.Succeeded, finishedAt := at)]
            case AttemptFailed(id, _, _, error, at, dead, retryAt) =>
              Apply(d, r).jobs == d.jobs[id := if dead
                then d.jobs[id].(status := Status.Dead, lastError := error, token := 0, finishedAt := at)
                else d.jobs[id].(status := Pending, lastError := error, token := 0, runAt := retryAt)]
            case JobCancelled(id, at) =>
              Apply(d, r).jobs == d.jobs[id := d.jobs[id].(status := Status.Cancelled, token := 0, finishedAt := at)]
            case DeadJobRetried(id, runAt, _) =>
              Apply(d, r).jobs ==
                d.jobs[id := d.jobs[id].(status := Pending, attempts := 0, finishedAt := 0, runAt := runAt)]
            case JobsPurged(ids) => Apply(d, r).jobs == map id | id in d.jobs && id !in ids :: d.jobs[id]
  {
    hide Without;
  }

  /** What a failed attempt leads to: the dead-letter queue if nothing is left to try, a retry
      when the worker asks for it, or one within the backoff. */
  ghost predicate Decided(r: Record, job: Job, error: Bytes, retryIn: Option<int>, noRetry: bool) {
    && r.AttemptFailed? && r.token == job.token
    && r.error == (if |error| <= MAX_ERROR then error else error[..MAX_ERROR])
    && (r.dead <==> noRetry || job.attempts >= job.maxAttempts)
    && (!r.dead && retryIn.Some? ==> r.retryAt == r.at + retryIn.value)
    && (!r.dead && retryIn.None? ==>
        r.at <= r.retryAt <= r.at + BackoffCeiling(job.attempts, job.backoffBase, job.backoffCap))
  }

  ghost predicate IsFailure(r: Record, request: FailRequest, job: Job, answer: Failed, now: Time) {
    && Decided(r, job, request.error, request.retryIn, request.noRetry) && r.reason.WorkerFailed? &&
       r.id == request.id && r.token == request.token
    && r.at == now && answer == Failed(r.dead, r.retryAt)
  }

  /** What a worker is told about the job it is given: the attempt counts this one. */
  ghost predicate Granted(r: Reservation, job: Job, id: JobId, token: Token, expiresAt: Time) {
    && r.id == id && r.token == token && r.queue == job.queue && r.payload == job.payload
    && r.attempt == job.attempts + 1 && r.maxAttempts == job.maxAttempts && r.leaseExpiresAt == expiresAt
  }

  /** Why a token is turned away. */
  function LeaseError(d: Durable, id: JobId): Error { if id in d.jobs then StaleToken else NotFound }

  // --- the engine ------------------------------------------------------------------------------

  class Engine {
    const state: State
    const options: Options
    /** What has been appended to the sink, from the first record on. */
    var log: seq<Record>
    var lastLsn: nat
    var clockOffset: int
    var clockJumps: nat
    /** The history of the durable state: the log with the collections in between. */
    ghost var events: seq<Event>

    ghost function Rules(): Policy { Policy(state.keep, options.window) }

    ghost predicate Live()
      reads this, state, state.wheel
    {
      state.Valid() && !state.replaying && lastLsn == |log| && AllCanRun(state.Persistent())
    }

    ghost predicate Valid()
      reads this, state, state.wheel
    {
      Live() && state.expired == {}
    }

    ghost predicate Orderly()
      reads this, state
    {
      Accounts(Rules(), state, log, events)
    }

    /** Nothing has changed, neither state nor log. */
    twostate predicate Untouched()
      reads this, state, state.wheel
    {
      unchanged(this) && unchanged(state) && unchanged(state.wheel)
    }

    /** No lease has outlived its expiry and the grace period. */
    ghost predicate LeasesInTime()
      reads state
    {
      NoneOverdue(state.jobs, {}, state.wallNow, state.graceUntil)
    }

    /** Such readings of the clocks are further apart than slew could explain. */
    ghost predicate JumpsTo(wall: Time, mono: nat)
      reads this`clockOffset
    {
      !(-options.jumpThreshold <= wall - mono - clockOffset <= options.jumpThreshold)
    }

    /** Jobs stay on time, and queues that gained a ready job are announced. */
    twostate predicate Steady()
      reads state, state.wheel
    {
      && state.wallNow == old(state.wallNow) && state.monoNow == old(state.monoNow) &&
         state.graceUntil == old(state.graceUntil) && state.wheel.now == old(state.wheel.now)
      && (old(state.OnTime({})) ==> state.OnTime({})) && (old(state.Sharp()) ==> state.Sharp())
      && (options.minLease > 0 && old(LeasesInTime()) ==> LeasesInTime())
      && Announced(old(state.queues), state.queues, state.readyNotifications)
      && forall q | q in old(state.readyNotifications) :: q in state.readyNotifications
    }

    /** What a command leaves as it was: the clocks, that the history accounts for the state, and
        that everything happens on time. */
    twostate predicate Kept()
      reads this, state, state.wheel
    {
      && state.wallNow == old(state.wallNow) && state.monoNow == old(state.monoNow) &&
         state.graceUntil == old(state.graceUntil)
      && (old(Orderly()) ==> Orderly())
      && (old(state.OnTime({})) ==> state.OnTime({})) && (old(state.Sharp()) ==> state.Sharp())
      && (options.minLease > 0 && old(LeasesInTime()) ==> LeasesInTime())
    }

    /** One record was applied and logged, and a job that it made pending is ready exactly if due. */
    twostate predicate Wrote(r: Record)
      reads this, state, state.wheel
    {
      && (r.JobEnqueued? || r.DeadJobRetried? || (r.AttemptFailed? && !r.dead) ==>
            SharpAt(state.jobs, state.wallNow, r.id))
      && Steady() && (r.JobLeased? ==> state.readyNotifications == old(state.readyNotifications))
      && log == old(log) + [r] && lastLsn == old(lastLsn) + 1
      && Applies(old(state.Persistent()), r) && state.Persistent() == Apply(old(state.Persistent()), r)
      && (old(Orderly()) ==> Orderly())
    }

    /** A new engine over a state whose history is given: an empty one, or what recovery
        rebuilt from the log at this reading of the clocks. */
    constructor (state: State, options: Options, log: seq<Record>, wall: Time, mono: nat, ghost events: seq<Event>)
      requires state.Valid() && !state.replaying && state.expired == {} && AllCanRun(state.Persistent())
      modifies state
      ensures Valid() && this.state == state && this.options == options && this.log == log && this.events == events
      ensures state.Persistent() == old(state.Persistent()) && state.wallNow == wall && state.monoNow == mono
      ensures old(Accounts(Policy(state.keep, options.window), state, log, events)) && old(state.wallNow) <= wall ==>
              Orderly()
    {
      this.state := state;
      this.options := options;
      this.log := log;
      this.events := events;
      lastLsn := |log|;
      clockOffset := wall - mono;
      clockJumps := 0;
      new;
      state.SetNow(wall, mono);
      if EngineRun(Rules(), EMPTY, events, old(state.wallNow)) && old(state.wallNow) <= wall {
        RunLater(Rules(), EMPTY, events, old(state.wallNow), wall);
      }
    }

    /** apply() of a record that fits. */
    method Change(r: Record)
      requires Live() && Applies(state.Persistent(), r) && Resolved(Rules(), state.Persistent(), r, state.wallNow)
      requires r.JobEnqueued? ==> |state.jobs| < LIMIT
      requires r.JobLeased? || r.LeaseExtended? ==> r.leaseExpiresAt >= state.wallNow + options.minLease
      modifies state, state.wheel
      ensures Live() && Steady() && state.Persistent() == Apply(old(state.Persistent()), r)
      ensures state.wheel == old(state.wheel)
      ensures r.JobLeased? ==> state.readyNotifications == old(state.readyNotifications)
      ensures r.JobEnqueued? || r.DeadJobRetried? || (r.AttemptFailed? && !r.dead) ==>
              SharpAt(state.jobs, state.wallNow, r.id)
      ensures state.expired == (if r.JobEnqueued? || r.JobsPurged? then old(state.expired)
                                else old(state.expired) - {r.id})
      ensures old(state.Chronological()) && (r.JobsPurged? || r.at == state.wallNow) ==> state.Chronological()
    {
      hide State.Core, State.OnTime, Announced, AllSharp, Oldest, Keyed, RefsOk, Apply, Applies, Resolved, AllCanRun,
           Sound, DurableJobs, DurableTotals, NoneOverdue;
      ghost var d, now, was := state.Persistent(), state.wallNow, state.jobs;
      AllCanRunNext(Rules(), d, r, now);
      var ok := state.ApplyRecord(r);
      if options.minLease > 0 && NoneOverdue(was, {}, now, state.graceUntil) {
        StillInTime(d, r, was, state.jobs, state.Persistent(), now, state.graceUntil);
      }
    }

    /** Applies first, so that a record that does not fit could never reach the log; none
        is ever refused here. */
    method LogAndApply(r: Record)
      requires Live() && Applies(state.Persistent(), r) && Resolved(Rules(), state.Persistent(), r, state.wallNow)
      requires r.JobEnqueued? ==> |state.jobs| < LIMIT
      requires r.JobLeased? || r.LeaseExtended? ==> r.leaseExpiresAt >= state.wallNow + options.minLease
      modifies this`log, this`lastLsn, this`events, state, state.wheel
      ensures Live() && Wrote(r) && state.wheel == old(state.wheel)
      ensures state.expired == (if r.JobEnqueued? || r.JobsPurged? then old(state.expired)
                                else old(state.expired) - {r.id})
      ensures old(state.expired) == {} ==> state.expired == {}
    {
      hide State.Valid, State.OnTime, Announced, AllSharp, Oldest, Apply, Applies, Resolved, AllCanRun, EngineRun, Run,
           Records, DurableJobs, DurableTotals, NoneOverdue;
      ghost var d, now := state.Persistent(), state.wallNow;
      Change(r);
      log := log + [r];
      lastLsn := lastLsn + 1;
      events := events + [Logged(r, now)];
      if old(Orderly()) {
        assert r.JobsPurged? || r.at == now by { ResolvedNow(Rules(), d, r, now); }
        NextInRun(Rules(), old(events), d, r, now);
      }
    }

    // --- commands about one lease ---------------------------------------------------------------------

    /** The job, if the token holds its current lease. */
    function FindLeased(id: JobId, token: Token): (r: Result<Job>)
      reads state
      ensures r.Answer? <==> IsLeased(state.Persistent(), id, token)
      ensures r.Answer? ==> r.value == state.Persistent().jobs[id]
      ensures r.Refusal? ==> r.error == LeaseError(state.Persistent(), id)
    {
      if id !in state.jobs then Refusal(NotFound)
      else if !state.jobs[id].job.status.Leased? || state.jobs[id].job.token != token then Refusal(StaleToken)
      else Answer(state.jobs[id].job)
    }

    method Heartbeat(id: JobId, token: Token, lease: int) returns (r: Result<Time>)
      requires Valid()
      modifies this`log, this`lastLsn, this`events, state, state.wheel
      ensures Valid() && state.wheel == old(state.wheel)
      ensures r.Refusal? ==> Untouched()
      ensures r.Refusal? <==>
              !(options.minLease <= lease <= options.maxLease) || !IsLeased(old(state.Persistent()), id, token)
      ensures r.Refusal? ==>
              r.error == if options.minLease <= lease <= options.maxLease then LeaseError(old(state.Persistent()), id)
                else Invalid
      ensures r.Answer? ==> r.value == state.wallNow + lease && Wrote(LeaseExtended(id, token, r.value, state.wallNow))
      ensures r.Answer? ==>
                var jobs := old(state.Persistent()).jobs;
                state.Persistent().jobs == jobs[id := jobs[id].(leaseExpiresAt := state.wallNow + lease)]
    {
      hide State.Core, State.OnTime, State.Outcome, AllSharp, Oldest, Keyed, RefsOk, Apply, AllCanRun, EngineRun, Run,
           Records, Sound, DurableTotals, Announced;
      if lease < options.minLease || lease > options.maxLease { return Refusal(Invalid); }
      var job := FindLeased(id, token);
      if job.Refusal? { return Refusal(job.error); }
      var now := state.wallNow;
      EffectOf(state.Persistent(), LeaseExtended(id, token, now + lease, now));
      LogAndApply(LeaseExtended(id, token, now + lease, now));
      return Answer(now + lease);
    }

    /** ACK answers OK exactly for the token that completes the job now or completed it
        before; it logs at most one success, and any other token changes nothing. */
    method Ack(id: JobId, token: Token) returns (error: Option<Error>)
      requires Valid()
      modifies this`log, this`lastLsn, this`events, state, state.wheel
      ensures Valid() && state.wheel == old(state.wheel)
      ensures var d := old(state.Persistent());
              && (error.None? <==>
                  IsLeased(d, id, token) || (id in d.jobs && d.jobs[id].status.Succeeded? && d.jobs[id].token == token))
              && (error.Some? ==> error.value == LeaseError(d, id))
              && (if IsLeased(d, id, token) then Wrote(JobSucceeded(id, token, state.wallNow)) else Untouched())
              && (IsLeased(d, id, token) ==>
                    state.Persistent().jobs ==
                      d.jobs[id := d.jobs[id].(status := Status.Succeeded, finishedAt := state.wallNow)])
      ensures error.None? && old(Orderly()) ==> Orderly() && Completed(events, id, token)
    {
      hide State.Core, State.OnTime, State.Outcome, AllSharp, Oldest, Keyed, RefsOk, Apply, AllCanRun, EngineRun, Run,
           Records, Sound, DurableTotals, Completed;
      if id in state.jobs && state.jobs[id].job.status.Succeeded? && state.jobs[id].job.token == token {
        if Orderly() { SucceededIsLogged(Rules(), events, state.wallNow, id); }
        return None;
      }
      var job := FindLeased(id, token);
      if job.Refusal? { return Some(job.error); }
      var r := JobSucceeded(id, token, state.wallNow);
      ghost var d := state.Persistent();
      EffectOf(d, r);
      LogAndApply(r);
      if old(Orderly()) { AppliedIsLogged(d, r); }
      return None;
    }

    /** A success that was just logged is in the history. */
    lemma AppliedIsLogged(d: Durable, r: Record)
      requires Orderly() && r.JobSucceeded? && Applies(d, r) && state.Persistent() == Apply(d, r)
      ensures Completed(events, r.id, r.token)
    {
      SucceededIsLogged(Rules(), events, state.wallNow, r.id);
    }

    /** What a failed attempt leads to. The jitter is any value up to the ceiling. */
    method DecideFailure(id: JobId, reason: FailureReason, error: Bytes, retryIn: Option<int>, noRetry: bool)
      returns (r: Record)
      requires Live() && id in state.jobs && state.jobs[id].job.status.Leased? && (retryIn.Some? ==> retryIn.value >= 0)
      requires reason.LeaseExpired? ==> state.jobs[id].job.leaseExpiresAt <= state.wallNow
      ensures Decided(r, state.jobs[id].job, error, retryIn, noRetry) && r.id == id && r.reason == reason &&
              r.at == state.wallNow
      ensures Applies(state.Persistent(), r) && Resolved(Rules(), state.Persistent(), r, state.wallNow)
    {
      hide BackoffCeiling;
      var job, now := state.jobs[id].job, state.wallNow;
      var short := if |error| <= MAX_ERROR then error else error[..MAX_ERROR];
      if noRetry || job.attempts >= job.maxAttempts {
        return AttemptFailed(id, job.token, reason, short, now, true, 0);
      }
      var delay: int;
      if retryIn.Some? {
        delay := retryIn.value;
      } else {
        var ceiling := BackoffCeiling(job.attempts, job.backoffBase, job.backoffCap);
        delay :| 0 <= delay <= ceiling;
      }
      return AttemptFailed(id, job.token, reason, short, now, false, now + delay);
    }

    predicate BadRetry(request: FailRequest) {
      request.retryIn.Some? && (request.retryIn.value < 0 || request.retryIn.value > options.maxDelay)
    }

    /** FAIL of the current lease: the job is dead or waits for its retry, with the error cut to
        its limit, and nothing else about it or any other job has changed. */
    method Fail(request: FailRequest) returns (r: Result<Failed>)
      requires Valid()
      modifies this`log, this`lastLsn, this`events, state, state.wheel
      ensures Valid() && state.wheel == old(state.wheel)
      ensures r.Refusal? ==> Untouched()
      ensures r.Refusal? <==>
              (request.retryIn.Some? && !(0 <= request.retryIn.value <= options.maxDelay)) ||
                !IsLeased(old(state.Persistent()), request.id, request.token)
      ensures r.Refusal? ==>
              r.error == if BadRetry(request) then Invalid else LeaseError(old(state.Persistent()), request.id)
      ensures r.Answer? ==>
              exists record: Record ::
                Wrote(record) && IsFailure(record, request, old(state.jobs)[request.id].job, r.value, state.wallNow)
      ensures r.Answer? ==>
                var jobs, id, now := old(state.Persistent()).jobs, request.id, state.wallNow;
                var error := if |request.error| <= MAX_ERROR then request.error else request.error[..MAX_ERROR];
                && (r.value.dead <==> request.noRetry || jobs[id].attempts >= jobs[id].maxAttempts)
                && state.Persistent().jobs == jobs[id := if r.value.dead
                     then jobs[id].(status := Status.Dead, lastError := error, token := 0, finishedAt := now)
                     else jobs[id].(status := Pending, lastError := error, token := 0, runAt := r.value.retryAt)]
                && (!r.value.dead && request.retryIn.Some? ==> r.value.retryAt == now + request.retryIn.value)
                && (!r.value.dead && request.retryIn.None? ==>
                      now <= r.value.retryAt <=
                        now + BackoffCeiling(jobs[id].attempts, jobs[id].backoffBase, jobs[id].backoffCap))
                && (!r.value.dead ==> id in state.jobs && (state.jobs[id].ready <==> r.value.retryAt <= now))
    {
      hide State.Core, State.OnTime, State.Outcome, AllSharp, Oldest, Keyed, RefsOk, Apply, AllCanRun, EngineRun, Run,
           Records, Sound, DurableTotals, Announced;
      if BadRetry(request) { return Refusal(Invalid); }
      var job := FindLeased(request.id, request.token);
      if job.Refusal? { return Refusal(job.error); }
      var record := DecideFailure(request.id, WorkerFailed, request.error, request.retryIn, request.noRetry);
      ghost var d := state.Persistent();
      EffectOf(d, record);
      LogAndApply(record);
      JobIsThere(request.id, state.Persistent().jobs[request.id]);
      assert Wrote(record) && IsFailure(record, request, old(state.jobs)[request.id].job,
                                        Failed(record.dead, record.retryAt), state.wallNow);
      return Answer(Failed(record.dead, record.retryAt));
    }

    method Cancel(id: JobId) returns (error: Option<Error>)
      requires Valid()
      modifies this`log, this`lastLsn, this`events, state, state.wheel
      ensures Valid() && state.wheel == old(state.wheel)
      ensures var d := old(state.Persistent());
              && (error.None? <==> id in d.jobs && !Terminal(d.jobs[id].status))
              && (error.Some? ==> error.value == if id in d.jobs then FailedPrecondition else NotFound)
              && (if error.None? then Wrote(JobCancelled(id, state.wallNow)) else Untouched())
              && (error.None? ==>
                    state.Persistent().jobs ==
                      d.jobs[id := d.jobs[id].(status := Status.Cancelled, token := 0, finishedAt := state.wallNow)])
    {
      hide State.Core, State.OnTime, State.Outcome, AllSharp, Oldest, Keyed, RefsOk, Apply, AllCanRun, EngineRun, Run,
           Records, Sound, DurableTotals, Announced;
      if id !in state.jobs { return Some(NotFound); }
      if Terminal(state.jobs[id].job.status) { return Some(FailedPrecondition); }
      EffectOf(state.Persistent(), JobCancelled(id, state.wallNow));
      LogAndApply(JobCancelled(id, state.wallNow));
      return None;
    }

    // --- the dead-letter queue ------------------------------------------------------------------------

    lemma JobIsThere(id: JobId, job: Job)
      requires id in state.Persistent().jobs && state.Persistent().jobs[id] == job
      ensures id in state.jobs && state.jobs[id].job == job
    {
    }

    function FindDead(id: JobId): (error: Option<Error>)
      reads state
      ensures error.None? <==> id in state.Persistent().jobs && state.Persistent().jobs[id].status.Dead?
      ensures error.Some? ==> error.value == if id in state.Persistent().jobs then FailedPrecondition else NotFound
    {
      if id !in state.jobs then Some(NotFound) else if !state.jobs[id].job.status.Dead? then Some(FailedPrecondition)
        else None
    }

    method DlqRetry(id: JobId) returns (error: Option<Error>)
      requires Valid()
      modifies this`log, this`lastLsn, this`events, state, state.wheel
      ensures Valid() && state.wheel == old(state.wheel)
      ensures var d := old(state.Persistent());
              && (error.None? <==> id in d.jobs && d.jobs[id].status.Dead?)
              && (error.Some? ==> error.value == if id in d.jobs then FailedPrecondition else NotFound)
              && (if error.None? then Wrote(DeadJobRetried(id, state.wallNow, state.wallNow)) else Untouched())
              && (error.None? ==>
                    && state.Persistent().jobs ==
                       d.jobs[id := d.jobs[id].(status := Pending, attempts := 0, finishedAt := 0,
                                                runAt := state.wallNow)]
                    && id in state.jobs && state.jobs[id].ready)
    {
      hide State.Core, State.OnTime, State.Outcome, AllSharp, Oldest, Keyed, RefsOk, Apply, AllCanRun, EngineRun, Run,
           Records, Sound, DurableTotals, Announced;
      error := FindDead(id);
      if error.None? {
        EffectOf(state.Persistent(), DeadJobRetried(id, state.wallNow, state.wallNow));
        LogAndApply(DeadJobRetried(id, state.wallNow, state.wallNow));
        JobIsThere(id, state.Persistent().jobs[id]);
      }
    }

    method DlqPurge(id: JobId) returns (error: Option<Error>)
      requires Valid()
      modifies this`log, this`lastLsn, this`events, state, state.wheel
      ensures Valid() && state.wheel == old(state.wheel)
      ensures var d := old(state.Persistent());
              && (error.None? <==> id in d.jobs && d.jobs[id].status.Dead?)
              && (error.Some? ==> error.value == if id in d.jobs then FailedPrecondition else NotFound)
              && (if error.None? then Wrote(JobsPurged([id])) else Untouched())
              && (error.None? ==> state.Persistent().jobs == d.jobs - {id})
    {
      hide State.Core, State.OnTime, State.Outcome, AllSharp, Oldest, Keyed, RefsOk, Apply, AllCanRun, EngineRun, Run,
           Records, Sound, DurableTotals, Announced;
      error := FindDead(id);
      if error.None? {
        EffectOf(state.Persistent(), JobsPurged([id]));
        LogAndApply(JobsPurged([id]));
      }
    }

    ghost function DeadOf(q: Bytes): set<JobId>
      reads state
    {
      if q in state.queues then state.queues[q].dead else {}
    }

    lemma DeadLetters(q: Bytes, ids: seq<JobId>)
      requires state.Valid() && IsAscending(ids, DeadOf(q))
      ensures AreDead(ids, 0, state.Persistent().jobs)
      ensures forall id ::
              id in ids <==> id in state.jobs && state.jobs[id].job.queue == q && state.jobs[id].job.status.Dead?
    {
      assert DeadOk(state.Now(), q);
      forall k | 0 <= k < |ids|
        ensures ids[k] in state.Persistent().jobs && state.Persistent().jobs[ids[k]].status.Dead? {
        assert ids[k] in ids;
      }
      forall id ensures id in ids <==>
        id in state.jobs && state.jobs[id].job.queue == q && state.jobs[id].job.status.Dead? {
        assert JobIndexed(state.Now(), id);
      }
    }

    /** Every dead job of the queue starts over; one record each, smallest id first. */
    method DlqRetryAll(q: Bytes) returns (r: Result<nat>, ghost ids: seq<JobId>)
      requires Valid()
      modifies this`log, this`lastLsn, this`events, state, state.wheel
      ensures Valid() && state.wheel == old(state.wheel) && (r.Refusal? <==> !ValidQueueName(q)) &&
              (r.Refusal? ==> Untouched())
      ensures r.Answer? ==> Steady()
      ensures r.Answer? ==>
                && (forall id ::
                    id in ids <==>
                    id in old(state.jobs) && old(state.jobs)[id].job.queue == q && old(state.jobs)[id].job.status.Dead?)
                && (forall i, j | 0 <= i < j < |ids| :: ids[i] < ids[j])
                && r.value == |ids| && log == old(log) + Retries(ids, state.wallNow) && (old(Orderly()) ==> Orderly())
                && state.Persistent().jobs == Revived(old(state.Persistent()).jobs, ids, state.wallNow)
      ensures r.Answer? ==>
                var jobs := old(state.Persistent()).jobs;
                state.Persistent().jobs ==
                  map id | id in jobs :: if jobs[id].queue == q && jobs[id].status.Dead?
                    then jobs[id].(status := Pending, attempts := 0, finishedAt := 0, runAt := state.wallNow)
                    else jobs[id]
    {
      hide State.Core, State.OnTime, State.Outcome, AllSharp, Oldest, Keyed, RefsOk, AllCanRun, EngineRun, Run, Records,
           Sound, DurableTotals, DurableJobs, Announced, Apply, Revived, IsAscending;
      ids := [];
      if !ValidQueueName(q) { return Refusal(Invalid), []; }
      var listed := [];
      if q in state.queues { listed := Ascending(state.queues[q].dead); } else { NoneAscending(); }
      DeadLetters(q, listed);
      AscendingIsSet(listed, DeadOf(q));
      assert forall i, j | 0 <= i < j < |listed| :: listed[i] < listed[j] by { InAscent(listed, DeadOf(q)); }
      ghost var jobs, live := state.Persistent().jobs, state.jobs;
      RevivedMeans(jobs, live, listed, q, state.wallNow);
      RetryEach(listed);
      return Answer(|listed|), listed;
    }

    method RetryEach(ids: seq<JobId>)
      requires Valid() && IsAscending(ids, IdSet(ids)) && AreDead(ids, 0, state.Persistent().jobs)
      modifies this`log, this`lastLsn, this`events, state, state.wheel
      ensures Valid() && Steady() && state.wheel == old(state.wheel)
      ensures log == old(log) + Retries(ids, state.wallNow) && (old(Orderly()) ==> Orderly())
      ensures state.wallNow == old(state.wallNow) && state.Persistent().jobs ==
              Revived(old(state.Persistent()).jobs, ids, state.wallNow)
    {
      hide State.Core, State.OnTime, State.Outcome, AllSharp, Oldest, Keyed, RefsOk, AllCanRun, EngineRun, Run, Records,
           Sound, DurableTotals, DurableJobs, Announced, Apply, Revived, IsAscending, Retries, AreDead;
      var now := state.wallNow;
      ghost var before := state.Persistent().jobs;
      NoRetries(before, ids, now);
      ghost var a, notes := state.queues, state.readyNotifications;
      AnnouncedSame(a, notes);
      for i := 0 to |ids|
        invariant Valid() && Steady() && state.wheel == old(state.wheel) && state.wallNow == now &&
                  (old(Orderly()) ==> Orderly())
        invariant AreDead(ids, i, state.Persistent().jobs)
        invariant log == old(log) + Retries(ids[..i], now) && state.Persistent().jobs == Revived(before, ids[..i], now)
      {
        var record := DeadJobRetried(ids[i], now, now);
        ghost var d := state.Persistent();
        RetriedNext(d, before, ids, i, now);
        ghost var b, n := state.queues, state.readyNotifications;
        LogAndApply(record);
        AnnouncedThrough(a, b, state.queues, n, state.readyNotifications);
      }
      assert ids[..|ids|] == ids;
    }

    /** Every dead job of the queue is deleted, up to ten thousand ids to a record. */
    method DlqPurgeAll(q: Bytes) returns (r: Result<nat>)
      requires Valid()
      modifies this`log, this`lastLsn, this`events, state, state.wheel
      ensures Valid() && state.wheel == old(state.wheel) && (r.Refusal? <==> !ValidQueueName(q)) &&
              (r.Refusal? ==> Untouched())
      ensures r.Answer? ==> Steady()
      ensures r.Answer? ==>
                && r.value == |old(DeadOf(q))| && (old(Orderly()) ==> Orderly()) && OnlyPurges(old(log), log)
                && state.Persistent().jobs == old(state.Persistent()).jobs - old(DeadOf(q))
      ensures r.Answer? ==>
                var jobs := old(state.Persistent()).jobs;
                && state.Persistent().jobs ==
                   (map id | id in jobs && !(jobs[id].queue == q && jobs[id].status.Dead?) :: jobs[id])
                && r.value == |jobs| - |state.Persistent().jobs|
                && r.value == |PurgedIds(log[|old(log)|..])|
                && forall id :: id in PurgedIds(log[|old(log)|..]) <==>
                     id in old(state.jobs) && old(state.jobs)[id].job.queue == q && old(state.jobs)[id].job.status.Dead?
    {
      hide State.Core, State.OnTime, State.Outcome, AllSharp, Oldest, Keyed, RefsOk, AllCanRun, EngineRun, Run, Records,
           Sound, DurableTotals, DurableJobs, Announced, Apply, IsAscending, OnlyPurges, PurgedIds;
      if !ValidQueueName(q) { return Refusal(Invalid); }
      var ids := [];
      if q in state.queues { ids := Ascending(state.queues[q].dead); } else { NoneAscending(); }
      DeadLetters(q, ids);
      AscendingSize(ids, DeadOf(q));
      AscendingIsSet(ids, DeadOf(q));
      DeadAreGone(state.Persistent().jobs, state.jobs, ids, q);
      PurgeEach(ids);
      return Answer(|ids|);
    }

    method PurgeEach(ids: seq<JobId>)
      requires Valid() && IsAscending(ids, IdSet(ids)) && AreDead(ids, 0, state.Persistent().jobs)
      modifies this`log, this`lastLsn, this`events, state, state.wheel
      ensures Valid() && Steady() && state.wheel == old(state.wheel) && (old(Orderly()) ==> Orderly())
      ensures state.Persistent().jobs == old(state.Persistent()).jobs - IdSet(ids) && OnlyPurges(old(log), log)
      ensures |old(log)| <= |log| && PurgedIds(log[|old(log)|..]) == IdSet(ids)
    {
      hide State.Core, State.OnTime, State.Outcome, AllSharp, Oldest, Keyed, RefsOk, AllCanRun, EngineRun, Run, Records,
           Sound, DurableTotals, DurableJobs, Announced, Apply, IsAscending, AreDead, OnlyPurges, IdSet, PurgedIds;
      ghost var before := state.Persistent().jobs;
      NonePurged(before, ids, log);
      ghost var a, notes := state.queues, state.readyNotifications;
      AnnouncedSame(a, notes);
      var start := 0;
      while start < |ids|
        invariant 0 <= start <= |ids| && Valid() && Steady() && state.wheel == old(state.wheel) &&
                  (old(Orderly()) ==> Orderly())
        invariant AreDead(ids, start, state.Persistent().jobs)
        invariant state.Persistent().jobs == before - IdSet(ids[..start]) && OnlyPurges(old(log), log)
        invariant |old(log)| <= |log| && PurgedIds(log[|old(log)|..]) == IdSet(ids[..start])
      {
        var end := if |ids| < start + PURGE_CHUNK then |ids| else start + PURGE_CHUNK;
        var record := JobsPurged(ids[start..end]);
        PurgedNext(state.Persistent(), before, ids, start, end);
        MorePurges(old(log), log, record);
        ghost var b, n := state.queues, state.readyNotifications;
        ghost var shorter := log;
        LogAndApply(record);
        PurgedMore(shorter[|old(log)|..], ids[start..end]);
        assert log[|old(log)|..] == shorter[|old(log)|..] + [record];
        AnnouncedThrough(a, b, state.queues, n, state.readyNotifications);
        start := end;
      }
      assert ids[..|ids|] == ids;
    }

    // --- ENQUEUE ----------------------------------------------------------------------------------------

    /** What is wrong with a request, before idempotency is looked at. */
    function RequestError(request: EnqueueRequest): Option<Error>
      reads state
    {
      if !ValidQueueName(request.queue) then Some(Invalid)
      else if |request.payload| > options.maxPayload then Some(LimitExceeded)
      else if |request.idemKey| > MAX_IDEM_KEY then Some(Invalid)
      else if request.delay < 0 || request.delay > options.maxDelay then Some(Invalid)
      else if request.runAt.Some? && request.runAt.value - state.wallNow > options.maxDelay then Some(Invalid)
      else if ValueOr(request.maxAttempts, options.maxAttempts) == 0
           || ValueOr(request.maxAttempts, options.maxAttempts) > options.maxMaxAttempts then Some(Invalid)
      else None
    }

    /** A key, a delay, a run time or a number of attempts beyond its limit. */
    ghost predicate OutOfRange(request: EnqueueRequest)
      reads state
    {
      || |request.idemKey| > MAX_IDEM_KEY || !(0 <= request.delay <= options.maxDelay)
      || (request.runAt.Some? && request.runAt.value > state.wallNow + options.maxDelay)
      || (request.maxAttempts.Some? && !(1 <= request.maxAttempts.value <= options.maxMaxAttempts))
      || (request.maxAttempts.None? && !(1 <= options.maxAttempts <= options.maxMaxAttempts))
    }

    /** A new job is what was asked for, with the defaults for what was not said. */
    ghost predicate IsRequested(job: Job, request: EnqueueRequest, now: Time) {
      && job.queue == request.queue && job.payload == request.payload && job.priority == request.priority
      && job.idemKey == request.idemKey && job.createdAt == now && job.status.Pending?
      && job.attempts == 0 && job.token == 0 && job.lastError == [] && job.leaseExpiresAt == 0 && job.finishedAt == 0
      && job.runAt >= now
      && (request.runAt.None? ==> job.runAt == now + request.delay)
      && (request.runAt.Some? ==> job.runAt == now || job.runAt == request.runAt.value)
      && (request.runAt.Some? ==> job.runAt >= request.runAt.value)
      && job.maxAttempts == (if request.maxAttempts.Some? then request.maxAttempts.value else options.maxAttempts)
      && job.backoffBase == (if request.backoffBase.Some? then request.backoffBase.value else options.backoffBase)
      && job.backoffCap >= job.backoffBase
      && var cap := if request.backoffCap.Some? then request.backoffCap.value else options.backoffCap;
         job.backoffCap >= cap && (job.backoffCap == cap || job.backoffCap == job.backoffBase)
    }

    function NewRecord(request: EnqueueRequest): Record
      reads state
    {
      var now, base := state.wallNow, ValueOr(request.backoffBase, options.backoffBase);
      JobEnqueued(state.nextJobId, request.queue, request.payload, request.priority,
                  MaxTime(now, ValueOr(request.runAt, now + request.delay)),
                  ValueOr(request.maxAttempts, options.maxAttempts), base,
                  MaxTime(base, ValueOr(request.backoffCap, options.backoffCap)), request.idemKey,
                  if request.idemKey == [] then 0 else now + options.window, now)
    }

    /** The key has an entry that has not expired, for this job. */
    ghost predicate HasLiveKey(key: Bytes, id: JobId)
      reads state
    {
      exists i ::
        0 <= i < |state.idemOrder| && state.idemOrder[i].key == key && state.idemOrder[i].jobId == id &&
          state.idemOrder[i].expiresAt > state.wallNow
    }

    /** ENQUEUE. A request that breaks a limit is refused; a live key answers with the job it
        already created; otherwise one job is created, exactly as requested, to run at the
        requested time or after the delay and never before now. `full` says that the memory
        limit is reached. */
    method Enqueue(request: EnqueueRequest, full: bool) returns (r: Result<Enqueued>)
      requires Valid() && |state.jobs| < LIMIT
      modifies this`log, this`lastLsn, this`events, state, state.wheel
      ensures Valid() && state.wheel == old(state.wheel)
      ensures !ValidQueueName(request.queue) ==> r == Refusal(Invalid)
      ensures ValidQueueName(request.queue) && |request.payload| > options.maxPayload ==> r == Refusal(LimitExceeded)
      ensures ValidQueueName(request.queue) && |request.payload| <= options.maxPayload && old(OutOfRange(request)) ==>
              r == Refusal(Invalid)
      ensures r.Refusal? && ValidQueueName(request.queue) && |request.payload| <= options.maxPayload &&
              !old(OutOfRange(request)) ==>
                full && r.error == LimitExceeded
      ensures old(RequestError(request)).Some? ==> r == Refusal(old(RequestError(request)).value)
      ensures r.Refusal? ==> Untouched()
      ensures full ==> r.Refusal? || !r.value.created
      ensures r.Answer? && r.value.created ==>
                && r.value.id == old(state.nextJobId) && Wrote(old(NewRecord(request)))
                && (request.idemKey != [] ==> KeyIsFree(old(state.idemOrder), request.idemKey, state.wallNow))
      ensures r.Answer? && r.value.created ==>
                var d, id, now := state.Persistent(), r.value.id, state.wallNow;
                && id in d.jobs && id !in old(state.jobs) && d.jobs == old(state.Persistent()).jobs[id := d.jobs[id]]
                && IsRequested(d.jobs[id], request, now)
                && id in state.jobs && (state.jobs[id].ready <==> d.jobs[id].runAt <= now)
                && (request.idemKey != [] ==>
                      d.idem != [] && d.idem[|d.idem| - 1] == IdemEntry(request.idemKey, id, now + options.window))
      ensures r.Answer? && !r.value.created ==>
              Untouched() && request.idemKey != [] && old(HasLiveKey(request.idemKey, r.value.id))
      ensures ValidQueueName(request.queue) && |request.payload| <= options.maxPayload && !old(OutOfRange(request)) &&
              request.idemKey != [] && !KeyIsFree(old(state.idemOrder), request.idemKey, state.wallNow) ==>
                r.Answer? && !r.value.created
    {
      hide State.Core, State.OnTime, State.Outcome, AllSharp, Oldest, Keyed, RefsOk, Apply, AllCanRun, EngineRun, Run,
           Records, Sound, DurableTotals, Announced;
      var error := RequestError(request);
      if error.Some? { return Refusal(error.value); }
      if request.idemKey != [] {
        KeyLookup(state.idemOrder, state.idemIndex, request.idemKey, state.wallNow);
        if request.idemKey in state.idemIndex && state.idemIndex[request.idemKey].expiresAt > state.wallNow {
          return Answer(Enqueued(state.idemIndex[request.idemKey].jobId, false));
        }
      }
      if full { return Refusal(LimitExceeded); }
      var record := NewRecord(request);
      EffectOf(state.Persistent(), record);
      NextIsNew();
      LogAndApply(record);
      JobIsThere(record.id, state.Persistent().jobs[record.id]);
      return Answer(Enqueued(record.id, true));
    }

    lemma NextIsNew()
      requires Valid()
      ensures state.nextJobId !in state.jobs
    {
      assert JobOk(state.Persistent(), state.nextJobId);
    }

    // --- RESERVE ----------------------------------------------------------------------------------------

    /** The queue has a ready job. */
    ghost predicate HasReady(q: Bytes)
      reads state
    {
      q in state.queues && state.queues[q].ready.heap != []
    }

    /** Of the ready jobs of its queue, the one that goes first. */
    ghost predicate FirstReady(q: Bytes, id: JobId)
      reads state
    {
      && id in state.jobs && state.jobs[id].job.queue == q && state.jobs[id].ready
      && forall k | k in state.jobs && k != id && state.jobs[k].job.queue == q && state.jobs[k].ready ::
           var a, b := state.jobs[id].job, state.jobs[k].job;
           || a.priority > b.priority
           || (a.priority == b.priority && (a.runAt < b.runAt || (a.runAt == b.runAt && id < k)))
    }

    ghost predicate NoneReady(q: Bytes)
      reads state
    {
      forall k | k in state.jobs && state.jobs[k].job.queue == q :: !state.jobs[k].ready
    }

    lemma TopOfHeap(q: Bytes)
      requires state.Valid() && HasReady(q)
      ensures FirstReady(q, state.queues[q].ready.heap[0].id)
    {
      var v, h := state.Now(), state.queues[q].ready;
      var top := h.heap[0];
      assert HeapOk(v, q);
      assert top in h.heap;
      assert InHeap(v, q, top);
      forall k | k in state.jobs && k != top.id && state.jobs[k].job.queue == q && state.jobs[k].ready
        ensures var a, b := state.jobs[top.id].job, state.jobs[k].job;
                || a.priority > b.priority
                || (a.priority == b.priority && (a.runAt < b.runAt || (a.runAt == b.runAt && top.id < k)))
      {
        assert JobIndexed(v, k);
        var i :| 0 <= i < |h.heap| && h.heap[i] == EntryOf(k, state.jobs[k].job);
        H.TopIsFirst(h, i);
      }
    }

    lemma EmptyHeap(q: Bytes)
      requires state.Valid() && !HasReady(q)
      ensures NoneReady(q)
    {
      forall k | k in state.jobs && state.jobs[k].job.queue == q ensures !state.jobs[k].ready {
        assert JobIndexed(state.Now(), k);
      }
    }

    /** A ready job is pending, and in time if the clocks are. */
    lemma ReadyIsPending(id: JobId)
      requires Live() && id in state.jobs && state.jobs[id].ready
      ensures state.jobs[id].job.status.Pending? && state.jobs[id].job.attempts < state.jobs[id].job.maxAttempts
      ensures state.OnTime({}) ==> state.jobs[id].job.runAt <= state.wallNow
    {
      assert JobIndexed(state.Now(), id);
      assert CanRun(state.Persistent(), id);
      if state.OnTime({}) { assert PunctualAt(state.Now(), state.wallNow, state.wallNow - state.monoNow, id); }
    }

    /** Leases the first job, by priority, run time and id, of the first listed queue that
        has a ready one. */
    method Reserve(queues: seq<Bytes>, lease: int) returns (r: Result<Option<Reservation>>)
      requires Valid()
      modifies this`log, this`lastLsn, this`events, state, state.wheel
      ensures Valid() && state.wheel == old(state.wheel)
      ensures r.Refusal? <==>
              queues == [] || (exists i :: 0 <= i < |queues| && !ValidQueueName(queues[i])) ||
                !(options.minLease <= lease <= options.maxLease)
      ensures r.Refusal? ==> r.error == Invalid
      ensures r.Refusal? || r.value.None? ==> Untouched()
      ensures r.Answer? && r.value.None? ==> forall i | 0 <= i < |queues| :: NoneReady(queues[i])
      ensures r.Answer? && r.value.Some? ==>
                var id, now := r.value.value.id, state.wallNow;
                && (exists i :: 0 <= i < |queues| && old(FirstReady(queues[i], id)) && r.value.value.queue == queues[i]
                                && forall j | 0 <= j < i :: old(NoneReady(queues[j])))
                && Granted(r.value.value, old(state.jobs)[id].job, id, old(state.nextToken), now + lease)
                && Wrote(JobLeased(id, old(state.nextToken), now + lease, now))
                && (var jobs := old(state.Persistent()).jobs;
                    state.Persistent().jobs ==
                      jobs[id := jobs[id].(status := Status.Leased, attempts := jobs[id].attempts + 1,
                                           token := old(state.nextToken), leaseExpiresAt := now + lease)])
                && (old(state.OnTime({})) ==> old(state.jobs)[id].job.runAt <= now)
    {
      hide State.Core, State.OnTime, State.Outcome, AllSharp, Oldest, Keyed, RefsOk, Apply, AllCanRun, EngineRun, Run,
           Records, Sound, DurableTotals, Announced, HasReady, FirstReady, NoneReady;
      if queues == [] { return Refusal(Invalid); }
      for i := 0 to |queues|
        invariant Untouched() && forall j | 0 <= j < i :: ValidQueueName(queues[j])
      {
        if !ValidQueueName(queues[i]) { return Refusal(Invalid); }
      }
      if lease < options.minLease || lease > options.maxLease { return Refusal(Invalid); }
      for i := 0 to |queues|
        invariant Valid() && Untouched() && forall j | 0 <= j < i :: NoneReady(queues[j])
      {
        var top := TopReady(queues[i]);
        if top.Some? {
          assert old(FirstReady(queues[i], top.value)) && forall j | 0 <= j < i :: old(NoneReady(queues[j]));
          var reservation := Grant(top.value, lease);
          assert reservation.queue == queues[i];
          return Answer(Some(reservation));
        }
      }
      return Answer(None);
    }

    /** The top of the ready heap of a queue, if there is one. */
    method TopReady(q: Bytes) returns (id: Option<JobId>)
      requires Valid()
      ensures if id.Some? then FirstReady(q, id.value) else NoneReady(q)
      ensures id.Some? ==> id.value in state.jobs && state.jobs[id.value].ready && state.jobs[id.value].job.queue == q
    {
      hide State.Valid, NoneReady;
      if q !in state.queues || state.queues[q].ready.heap == [] {
        EmptyHeap(q);
        return None;
      }
      TopOfHeap(q);
      return Some(state.queues[q].ready.heap[0].id);
    }

    /** Hands out one ready job. */
    method Grant(id: JobId, lease: int) returns (r: Reservation)
      requires Valid() && id in state.jobs && state.jobs[id].ready && options.minLease <= lease
      modifies this`log, this`lastLsn, this`events, state, state.wheel
      ensures state.wheel == old(state.wheel)
      ensures Valid() && Wrote(JobLeased(id, old(state.nextToken), state.wallNow + lease, state.wallNow))
      ensures Granted(r, old(state.jobs)[id].job, id, old(state.nextToken), state.wallNow + lease)
      ensures var jobs := old(state.Persistent()).jobs;
              state.Persistent().jobs ==
                jobs[id := jobs[id].(status := Status.Leased, attempts := jobs[id].attempts + 1,
                                     token := old(state.nextToken), leaseExpiresAt := state.wallNow + lease)]
      ensures old(state.OnTime({})) ==> old(state.jobs)[id].job.runAt <= state.wallNow
    {
      hide State.Core, State.OnTime, State.Outcome, AllSharp, Oldest, Keyed, RefsOk, Apply, AllCanRun, EngineRun, Run,
           Records, Sound, DurableTotals, Announced;
      ReadyIsPending(id);
      var now := state.wallNow;
      var record := JobLeased(id, state.nextToken, now + lease, now);
      EffectOf(state.Persistent(), record);
      LogAndApply(record);
      JobIsThere(id, state.Persistent().jobs[id]);
      var job := state.jobs[id].job;
      return Reservation(id, job.token, job.queue, job.payload, job.attempts, job.maxAttempts, job.leaseExpiresAt);
    }

    // --- the tick ---------------------------------------------------------------------------------------

    /** A wall-clock step is handled like a restart: every timer is derived anew. */
    method DetectClockJump()
      requires Valid()
      modifies this`clockOffset, this`clockJumps, state
      ensures Valid() && state.Persistent() == old(state.Persistent()) && state.wallNow == old(state.wallNow) &&
              state.monoNow == old(state.monoNow)
      ensures state.wheel == old(state.wheel) || fresh(state.wheel)
      ensures clockOffset == state.wallNow - state.monoNow
      ensures if old(JumpsTo(state.wallNow, state.monoNow)) then
                && clockJumps == old(clockJumps) + 1 && state.OnTime({}) && state.Sharp()
                && state.graceUntil == state.wallNow + options.leaseGrace
                && AllSpared(state.jobs, state.Timers(), state.wallNow, state.monoNow, state.graceUntil)
              else clockJumps == old(clockJumps) && unchanged(state)
      ensures old(state.OnTime({})) ==> state.OnTime({})
      ensures old(state.Chronological()) ==> state.Chronological()
      ensures Announced(old(state.queues), state.queues, state.readyNotifications) &&
              Heard(old(state.readyNotifications), state.queues, state.readyNotifications)
    {
      hide State.Core, State.OnTime, State.Outcome, AllSharp, Oldest, Keyed, RefsOk, Apply, AllCanRun, EngineRun, Run,
           Records, Sound, DurableTotals, Announced, Heard;
      HeardSame(state.readyNotifications, state.queues);
      AnnouncedSame(state.queues, state.readyNotifications);
      var offset := state.wallNow - state.monoNow;
      var change := offset - clockOffset;
      clockOffset := offset;
      if -options.jumpThreshold <= change <= options.jumpThreshold { return; }
      clockJumps := clockJumps + 1;
      ghost var before, notes := state.queues, state.readyNotifications;
      state.NoneLater();
      state.FitsIn();
      state.RebuildDerived(options.leaseGrace);
      AnnouncedAll(before, notes, state.queues, state.readyNotifications);
    }

    /** Ends one lease that has run out. */
    method EndLease(id: JobId)
      requires Live() && id in state.jobs && state.jobs[id].job.status.Leased? &&
               state.jobs[id].job.leaseExpiresAt <= state.wallNow
      modifies this`log, this`lastLsn, this`events, state, state.wheel
      ensures Live() && state.wheel == old(state.wheel) && Steady() && state.expired == old(state.expired) - {id}
      ensures |log| == |old(log)| + 1 && log == old(log) + [log[|log| - 1]]
      ensures IsExpiry(log[|log| - 1], old(state.jobs), state.wallNow) && log[|log| - 1].id == id
      ensures state.jobs.Keys == old(state.jobs).Keys && id in state.jobs && !state.jobs[id].job.status.Leased?
      ensures forall k | k in state.jobs && k != id :: state.jobs[k].job == old(state.jobs)[k].job
      ensures old(Orderly()) ==> Orderly()
    {
      hide NoneOverdue, State.Core, State.OnTime, State.Outcome, AllSharp, Oldest, Keyed, RefsOk, Apply, AllCanRun,
           EngineRun, Run, Records, Sound, DurableTotals, Announced;
      ghost var d, was := state.Persistent(), state.jobs;
      var record := DecideFailure(id, LeaseExpired, LEASE_EXPIRED, None, false);
      LogAndApply(record);
      FailedNow(d, record, was, state.jobs, state.Persistent());
    }

    /** Ends the leases that have run out, one record each. */
    method EndLeases(leases: seq<JobId>)
      requires Live() && (forall id | id in state.expired :: id in leases)
      requires forall id | id in leases && id in state.jobs && state.jobs[id].job.status.Leased? ::
               state.jobs[id].job.leaseExpiresAt <= state.wallNow
      modifies this`log, this`lastLsn, this`events, state, state.wheel
      ensures Valid() && state.wheel == old(state.wheel) && Steady()
      ensures OnlyExpiries(old(log), log, old(state.jobs), state.wallNow)
      ensures forall k | |old(log)| <= k < |log| :: log[k].AttemptFailed? && log[k].id in leases
      ensures old(Orderly()) ==> Orderly()
      ensures old(NoneOverdue(state.jobs, state.expired, state.wallNow, state.graceUntil)) ==>
              NoneOverdue(state.jobs, {}, state.wallNow, state.graceUntil)
    {
      hide NoneOverdue, State.Valid, State.OnTime, AllSharp, AllCanRun, Accounts, Announced, OnlyExpiries, EndedOnly,
           IsExpiry;
      ghost var before, notes, start := state.queues, state.readyNotifications, state.jobs;
      AnnouncedSame(before, notes);
      NoExpiry(log, start, state.wallNow);
      for i := 0 to |leases|
        invariant Live() && state.wheel == old(state.wheel) && Steady()
        invariant forall id | id in state.expired :: id in leases[i..]
        invariant forall id | id in leases && id in state.jobs && state.jobs[id].job.status.Leased? ::
                  state.jobs[id].job.leaseExpiresAt <= state.wallNow
        invariant OnlyExpiries(old(log), log, start, state.wallNow) && EndedOnly(old(log), log, start, state.jobs)
        invariant forall k | |old(log)| <= k < |log| :: log[k].AttemptFailed? && log[k].id in leases
        invariant |old(log)| <= |log|
        invariant old(Orderly()) ==> Orderly()
        invariant old(NoneOverdue(state.jobs, state.expired, state.wallNow, state.graceUntil)) ==>
                  NoneOverdue(state.jobs, state.expired, state.wallNow, state.graceUntil)
      {
        var id := leases[i];
        assert leases[i..] == [id] + leases[i + 1..] && id in leases;
        if id in state.jobs && state.jobs[id].job.status.Leased? {
          ghost var b, n, was, e := state.queues, state.readyNotifications, state.jobs, state.expired;
          ghost var shorter := log;
          EndLease(id);
          ExpiryMeans(log[|log| - 1], was, state.wallNow);
          OneMoreExpiry(old(log), shorter, log[|log| - 1], start, was, state.jobs, state.wallNow);
          AnnouncedThrough(before, b, state.queues, n, state.readyNotifications);
          EndedNow(was, state.jobs, e, state.expired, state.wallNow, state.graceUntil, id);
        } else {
          state.ExpiredIsLeased(id);
        }
      }
      assert state.expired == {};
    }

    /** collect_garbage() at the end of a tick, which is one more event of the history. */
    method Sweep()
      requires Valid()
      modifies this`events, state, state.wheel
      ensures Valid() && state.wheel == old(state.wheel) && Steady()
      ensures old(Orderly()) ==>
                && Orderly() && events == old(events) + [Collected(state.wallNow)]
                && state.Persistent() == Collect(state.keep, Replay(EMPTY, log), state.wallNow)
      ensures old(NoneOverdue(state.jobs, {}, state.wallNow, state.graceUntil)) ==>
              NoneOverdue(state.jobs, {}, state.wallNow, state.graceUntil)
    {
      hide NoneOverdue, State.Core, State.OnTime, AllSharp, Oldest, Keyed, RefsOk, AllCanRun, EngineRun, Run, Records,
           Sound, DurableTotals, Announced, OnlyPastGone, Collect;
      ghost var was, d := state.jobs, state.Persistent();
      state.CollectGarbage();
      events := events + [Collected(state.wallNow)];
      FewerCanRun(state.keep, was, state.jobs, d, state.Persistent(), state.wallNow);
      if NoneOverdue(was, {}, state.wallNow, state.graceUntil) {
        FewerOverdue(state.keep, was, state.jobs, state.wallNow, state.graceUntil);
      }
      if old(Orderly()) { CollectedInRun(Rules(), old(events), d, state.wallNow); }
    }

    /** The tick once the clocks have been read: timers, expired leases, garbage. */
    method FireAndSweep()
      requires Valid()
      modifies this`log, this`lastLsn, this`events, state, state.wheel
      ensures Valid() && state.wallNow == old(state.wallNow) && state.monoNow == old(state.monoNow) &&
              state.wheel == old(state.wheel) && state.graceUntil == old(state.graceUntil)
      ensures OnlyExpiries(old(log), log, old(state.jobs), state.wallNow)
      ensures forall k | |old(log)| <= k < |log| ::
              log[k].AttemptFailed? && TimerCame(old(state.jobs), old(state.Timers()), state.wheel.now, log[k].id)
      ensures old(Orderly()) ==>
              Orderly() && state.Persistent() == Collect(state.keep, Replay(EMPTY, log), state.wallNow)
      ensures old(state.OnTime({})) ==>
              state.OnTime({}) && state.Sharp() && NoneOverdue(state.jobs, {}, state.wallNow, state.graceUntil)
      ensures Announced(old(state.queues), state.queues, state.readyNotifications) &&
              forall q | q in old(state.readyNotifications) :: q in state.readyNotifications
    {
      hide State.Core, State.OnTime, State.Outcome, AllSharp, Oldest, Keyed, RefsOk, Apply, AllCanRun, EngineRun, Run,
           Records, Sound, DurableTotals, Announced, OnlyExpiries, Collect, NoneOverdue, DurableJobs, TimerCame,
           State.Timers;
      ghost var a, start := state.queues, state.jobs;
      var leases := state.AdvanceTimers();
      ghost var was := state.jobs;
      ghost var b, n := state.queues, state.readyNotifications;
      EndLeases(leases);
      ExpiriesOfSame(old(log), log, start, was, state.wallNow);
      ghost var c, m := state.queues, state.readyNotifications;
      AnnouncedThrough(a, b, c, n, m);
      Sweep();
      AnnouncedThrough(a, c, state.queues, m, state.readyNotifications);
    }

    /** One iteration of the event loop. If the wall clock has not gone back, the durable
        state is then what a replay of the log that ends now gives; and if the two clocks
        have moved together, or jumped apart, a pending job is ready exactly when its time
        has come. */
    method Tick(wall: Time, mono: nat)
      requires Valid()
      modifies this`log, this`lastLsn, this`events, this`clockOffset, this`clockJumps, state, state.wheel
      ensures Valid() && state.wallNow == wall && state.monoNow == mono &&
              (state.wheel == old(state.wheel) || fresh(state.wheel))
      ensures OnlyExpiries(old(log), log, old(state.jobs), wall)
      ensures !old(JumpsTo(wall, mono)) ==>
                forall k | |old(log)| <= k < |log| ::
                  log[k].AttemptFailed? && TimerCame(old(state.jobs), old(state.Timers()), state.wheel.now, log[k].id)
      ensures old(JumpsTo(wall, mono)) ==> state.graceUntil == wall + options.leaseGrace
      ensures old(Orderly()) && old(state.wallNow) <= wall ==>
              Orderly() && state.Persistent() == Collect(state.keep, Replay(EMPTY, log), wall)
      ensures (old(state.OnTime({})) && old(state.wallNow) <= wall &&
               wall - mono == old(state.wallNow) - old(state.monoNow)) || old(JumpsTo(wall, mono)) ==>
                state.OnTime({}) && state.Sharp() && LeasesInTime()
      ensures Announced(old(state.queues), state.queues, state.readyNotifications) &&
              Heard(old(state.readyNotifications), state.queues, state.readyNotifications)
    {
      hide State.Core, State.OnTime, State.Outcome, AllSharp, Oldest, Keyed, RefsOk, Apply, AllCanRun, EngineRun, Run,
           Records, Sound, DurableTotals, Announced, OnlyExpiries, Heard, Collect, NoneOverdue, DurableJobs, TimerCame,
           State.Timers;
      ghost var start := state.jobs;
      if Orderly() && state.wallNow <= wall { RunLater(Rules(), EMPTY, events, state.wallNow, wall); }
      state.SetNow(wall, mono);
      ghost var a, notes := state.queues, state.readyNotifications;
      DetectClockJump();
      ghost var b, n, was := state.queues, state.readyNotifications, state.jobs;
      FireAndSweep();
      ExpiriesOfSame(old(log), log, start, was, wall);
      AnnouncedThrough(a, b, state.queues, n, state.readyNotifications);
      HeardThrough(notes, b, n, state.queues, state.readyNotifications);
    }
  }

  /** Queues still on the list, unless they have no ready job any more. */
  ghost predicate Heard(notes: seq<Bytes>, queues: map<Bytes, Queue>, notes': seq<Bytes>) {
    forall q | q in notes && q in queues && queues[q].ready.heap != [] :: q in notes'
  }

  lemma FewerCanRun(keep: Retention, was: map<JobId, LiveJob>, jobs: map<JobId, LiveJob>, d: Durable, d': Durable,
                    now: Time)
    requires AllCanRun(d) && d.jobs == DurableJobs(was) && d'.jobs == DurableJobs(jobs) &&
             OnlyPastGone(keep, was, jobs, now)
    ensures AllCanRun(d')
  {
    forall id ensures CanRun(d', id) { assert CanRun(d, id); }
  }

  lemma CollectedInRun(policy: Policy, events: seq<Event>, d: Durable, now: Time)
    requires EngineRun(policy, EMPTY, events, now) && Run(policy.keep, EMPTY, events) == d
    ensures EngineRun(policy, EMPTY, events + [Collected(now)], now)
    ensures Run(policy.keep, EMPTY, events + [Collected(now)]) == Collect(policy.keep, d, now)
    ensures Records(events + [Collected(now)]) == Records(events)
    ensures Collect(policy.keep, d, now) == Collect(policy.keep, Replay(EMPTY, Records(events)), now)
  {
    RunNext(policy, EMPTY, events, Collected(now), now);
    EmptyIsSound();
    ReplayEquivalence(policy, EMPTY, events, now, 0, now);
    assert events[..0] == [] && events[0..] == events;
  }

  lemma EmptyIsSound()
    ensures Sound(EMPTY)
  {
  }

  lemma HeardThrough(notes: seq<Bytes>, b: map<Bytes, Queue>, n: seq<Bytes>, c: map<Bytes, Queue>, m: seq<Bytes>)
    requires Heard(notes, b, n) && Announced(b, c, m) && forall q | q in n :: q in m
    ensures Heard(notes, c, m)
  {
    forall q | q in notes && q in c && c[q].ready.heap != [] ensures q in m {
      assert AnnouncedAt(b, c, m, q);
      assert c[q].ready.heap[0] in c[q].ready.heap;
    }
  }

  /** The set, smallest first. */
  ghost predicate IsAscending(ids: seq<JobId>, s: set<JobId>) {
    (forall i, j | 0 <= i < j < |ids| :: ids[i] < ids[j]) && forall id :: id in ids <==> id in s
  }

  lemma {:induction false} SmallestExists(s: set<JobId>) returns (m: JobId)
    requires s != {}
    ensures m in s && forall k | k in s :: m <= k
  {
    var x :| x in s;
    var rest := s - {x};
    if rest == {} {
      m := x;
      forall k | k in s ensures m <= k { assert k !in rest; }
    } else {
      var n := SmallestExists(rest);
      m := if n < x then n else x;
      forall k | k in s ensures m <= k { if k != x { assert k in rest; } }
    }
  }

  ghost predicate Below(ids: seq<JobId>, rest: set<JobId>) {
    forall a, b | a in ids && b in rest :: a < b
  }

  method Ascending(s: set<JobId>) returns (ids: seq<JobId>)
    ensures IsAscending(ids, s)
  {
    hide IsAscending, Below;
    ids := [];
    var rest := s;
    NoneAscending();
    assert s - s == {};
    assert Below([], s) by { NothingBelow(s); }
    while rest != {}
      invariant rest <= s && IsAscending(ids, s - rest) && Below(ids, rest)
      decreases |rest|
    {
      ghost var smallest := SmallestExists(rest);
      var m :| m in rest && forall k | k in rest :: m <= k;
      OneMore(ids, s - rest, rest, m);
      assert s - (rest - {m}) == s - rest + {m};
      ids := ids + [m];
      rest := rest - {m};
    }
    assert s - {} == s;
  }

  lemma NothingBelow(s: set<JobId>)
    ensures Below([], s)
  {
  }

  lemma OneMore(ids: seq<JobId>, s: set<JobId>, rest: set<JobId>, m: JobId)
    requires IsAscending(ids, s) && Below(ids, rest) && m in rest && forall k | k in rest :: m <= k
    ensures IsAscending(ids + [m], s + {m}) && Below(ids + [m], rest - {m})
  {
    forall i | 0 <= i < |ids| ensures ids[i] < m { assert ids[i] in ids; }
  }

  lemma {:induction false} AscendingSize(ids: seq<JobId>, s: set<JobId>)
    requires IsAscending(ids, s)
    ensures |ids| == |s|
  {
    if ids == [] {
      assert s == {};
    } else {
      var last := ids[|ids| - 1];
      assert ids == ids[..|ids| - 1] + [last];
      AscendingSize(ids[..|ids| - 1], s - {last});
    }
  }

  function Retries(ids: seq<JobId>, now: Time): seq<Record> {
    seq(|ids|, i requires 0 <= i < |ids| => DeadJobRetried(ids[i], now, now))
  }

  /** The jobs from the k-th on are dead. */
  ghost predicate AreDead(ids: seq<JobId>, k: nat, jobs: map<JobId, Job>) {
    forall i | k <= i < |ids| :: ids[i] in jobs && jobs[ids[i]].status.Dead?
  }

  ghost function Revived(jobs: map<JobId, Job>, ids: seq<JobId>, now: Time): map<JobId, Job> {
    map id | id in jobs :: if id in ids then JobAfter(jobs[id], DeadJobRetried(id, now, now)) else jobs[id]
  }

  lemma RevivedMeans(jobs: map<JobId, Job>, live: map<JobId, LiveJob>, ids: seq<JobId>, q: Bytes, now: Time)
    requires jobs == DurableJobs(live)
    requires forall id :: id in ids <==> id in live && live[id].job.queue == q && live[id].job.status.Dead?
    ensures Revived(jobs, ids, now) ==
            map id | id in jobs :: if jobs[id].queue == q && jobs[id].status.Dead?
              then jobs[id].(status := Pending, attempts := 0, finishedAt := 0, runAt := now) else jobs[id]
  {
  }

  /** The ids in purge records. */
  function PurgedIds(recs: seq<Record>): set<JobId> {
    set i, id | 0 <= i < |recs| && recs[i].JobsPurged? && id in recs[i].ids :: id
  }

  lemma PurgedMore(recs: seq<Record>, ids: seq<JobId>)
    ensures PurgedIds(recs + [JobsPurged(ids)]) == PurgedIds(recs) + IdSet(ids)
  {
    var all := recs + [JobsPurged(ids)];
    forall id | id in PurgedIds(recs) ensures id in PurgedIds(all) {
      var i :| 0 <= i < |recs| && recs[i].JobsPurged? && id in recs[i].ids;
      assert all[i] == recs[i];
    }
    forall id | id in ids ensures id in PurgedIds(all) { assert all[|recs|] == JobsPurged(ids); }
    forall id | id in PurgedIds(all) ensures id in PurgedIds(recs) + IdSet(ids) {
      var i :| 0 <= i < |all| && all[i].JobsPurged? && id in all[i].ids;
      if i < |recs| { assert recs[i] == all[i]; }
    }
  }

  ghost predicate OnlyPurges(before: seq<Record>, log: seq<Record>) {
    before <= log && forall k | |before| <= k < |log| :: log[k].JobsPurged? && 0 < |log[k].ids| <= PURGE_CHUNK
  }

  lemma DeadAreGone(jobs: map<JobId, Job>, live: map<JobId, LiveJob>, ids: seq<JobId>, q: Bytes)
    requires jobs == DurableJobs(live)
    requires forall id :: id in ids <==> id in live && live[id].job.queue == q && live[id].job.status.Dead?
    ensures jobs - IdSet(ids) == map id | id in jobs && !(jobs[id].queue == q && jobs[id].status.Dead?) :: jobs[id]
    ensures |jobs - IdSet(ids)| == |jobs| - |IdSet(ids)|
  {
    var left := jobs - IdSet(ids);
    assert left.Keys == jobs.Keys - IdSet(ids) && IdSet(ids) <= jobs.Keys;
    assert |left.Keys| == |jobs.Keys| - |IdSet(ids)|;
  }

  lemma InAscent(ids: seq<JobId>, s: set<JobId>)
    requires IsAscending(ids, s)
    ensures forall i, j | 0 <= i < j < |ids| :: ids[i] < ids[j]
  {
  }

  lemma NoneAscending()
    ensures IsAscending([], {})
  {
  }

  lemma AscendingIsSet(ids: seq<JobId>, s: set<JobId>)
    requires IsAscending(ids, s)
    ensures IdSet(ids) == s
  {
  }

  lemma NoRetries(jobs: map<JobId, Job>, ids: seq<JobId>, now: Time)
    ensures Revived(jobs, ids[..0], now) == jobs && Retries(ids[..0], now) == []
  {
  }

  lemma RetriedNext(d: Durable, before: map<JobId, Job>, ids: seq<JobId>, i: nat, now: Time)
    requires i < |ids| && IsAscending(ids, IdSet(ids)) && AreDead(ids, i, d.jobs) &&
             d.jobs == Revived(before, ids[..i], now)
    ensures var r := DeadJobRetried(ids[i], now, now);
            && Applies(d, r) && Apply(d, r).jobs == Revived(before, ids[..i + 1], now) &&
               AreDead(ids, i + 1, Apply(d, r).jobs)
            && Retries(ids[..i + 1], now) == Retries(ids[..i], now) + [r]
  {
    assert ids[..i + 1] == ids[..i] + [ids[i]];
    assert ids[i] !in ids[..i];
  }

  lemma NonePurged(jobs: map<JobId, Job>, ids: seq<JobId>, log: seq<Record>)
    ensures jobs - IdSet(ids[..0]) == jobs && OnlyPurges(log, log) && PurgedIds(log[|log|..]) == IdSet(ids[..0])
  {
  }

  lemma MorePurges(before: seq<Record>, log: seq<Record>, r: Record)
    requires OnlyPurges(before, log) && r.JobsPurged? && 0 < |r.ids| <= PURGE_CHUNK
    ensures OnlyPurges(before, log + [r])
  {
  }

  lemma PurgedNext(d: Durable, before: map<JobId, Job>, ids: seq<JobId>, start: nat, end: nat)
    requires start <= end <= |ids| && IsAscending(ids, IdSet(ids)) && AreDead(ids, start, d.jobs) &&
             d.jobs == before - IdSet(ids[..start])
    ensures var r := JobsPurged(ids[start..end]);
            && Applies(d, r) && (forall id | id in r.ids :: d.jobs[id].status.Dead?)
            && Apply(d, r).jobs == before - IdSet(ids[..end]) && AreDead(ids, end, Apply(d, r).jobs)
            && IdSet(ids[..end]) == IdSet(ids[..start]) + IdSet(ids[start..end])
  {
    assert ids[..end] == ids[..start] + ids[start..end];
    assert IdSet(ids[..end]) == IdSet(ids[..start]) + IdSet(ids[start..end]);
    forall i | end <= i < |ids| ensures ids[i] !in ids[start..end] { }
  }

  lemma HeardSame(notes: seq<Bytes>, queues: map<Bytes, Queue>)
    ensures Heard(notes, queues, notes)
  {
  }

  lemma AnnouncedAll(before: map<Bytes, Queue>, notes: seq<Bytes>, queues: map<Bytes, Queue>, notes': seq<Bytes>)
    requires Announced(map[], queues, notes')
    ensures Announced(before, queues, notes') && Heard(notes, queues, notes')
  {
    forall q ensures AnnouncedAt(before, queues, notes', q) { assert AnnouncedAt(map[], queues, notes', q); }
    forall q | q in notes && q in queues && queues[q].ready.heap != [] ensures q in notes' {
      assert AnnouncedAt(map[], queues, notes', q);
      assert queues[q].ready.heap[0] in queues[q].ready.heap;
    }
  }

  /** The record ends a lease that has run out: the job is dead if it has no attempt left and is
      retried within the backoff otherwise. */
  ghost predicate IsExpiry(r: Record, was: map<JobId, LiveJob>, now: Time) {
    && r.AttemptFailed? && r.reason.LeaseExpired? && r.at == now && r.id in was
    && was[r.id].job.status.Leased? && was[r.id].job.leaseExpiresAt <= now
    && Decided(r, was[r.id].job, LEASE_EXPIRED, None, false)
  }

  /** The log has only grown by records that end an expired lease, at most one per job. */
  ghost predicate OnlyExpiries(before: seq<Record>, log: seq<Record>, was: map<JobId, LiveJob>, now: Time) {
    && before <= log
    && (forall k | |before| <= k < |log| :: IsExpiry(log[k], was, now))
    && (forall i, j | |before| <= i < j < |log| :: log[i].id != log[j].id)
  }

  /** Who is still leased is leased as before, and who was ended is not. */
  ghost predicate EndedOnly(before: seq<Record>, log: seq<Record>, was: map<JobId, LiveJob>,
                            jobs: map<JobId, LiveJob>) {
    && before <= log
    && (forall id | id in jobs && jobs[id].job.status.Leased? :: id in was && jobs[id].job == was[id].job)
    && (forall k | |before| <= k < |log| && log[k].AttemptFailed? && log[k].id in jobs ::
          !jobs[log[k].id].job.status.Leased?)
  }

  lemma OneMoreExpiry(before: seq<Record>, log: seq<Record>, r: Record, start: map<JobId, LiveJob>,
                      was: map<JobId, LiveJob>, jobs: map<JobId, LiveJob>, now: Time)
    requires OnlyExpiries(before, log, start, now) && EndedOnly(before, log, start, was) && IsExpiry(r, was, now)
    requires jobs.Keys == was.Keys && !jobs[r.id].job.status.Leased? &&
             forall k | k in jobs && k != r.id :: jobs[k].job == was[k].job
    ensures OnlyExpiries(before, log + [r], start, now) && EndedOnly(before, log + [r], start, jobs)
  {
  }

  lemma ExpiryMeans(r: Record, was: map<JobId, LiveJob>, now: Time)
    requires IsExpiry(r, was, now)
    ensures r.AttemptFailed?
  {
  }

  lemma NoExpiry(log: seq<Record>, was: map<JobId, LiveJob>, now: Time)
    ensures OnlyExpiries(log, log, was, now) && EndedOnly(log, log, was, was)
  {
  }

  lemma ExpiriesOfSame(before: seq<Record>, log: seq<Record>, was: map<JobId, LiveJob>, jobs: map<JobId, LiveJob>,
                       now: Time)
    requires OnlyExpiries(before, log, jobs, now) && DurableJobs(was) == DurableJobs(jobs)
    ensures OnlyExpiries(before, log, was, now)
  {
    forall id ensures id in was <==> id in jobs { assert id in DurableJobs(was) <==> id in DurableJobs(jobs); }
    forall id | id in was ensures was[id].job == jobs[id].job { assert DurableJobs(was)[id] == DurableJobs(jobs)[id]; }
  }

  lemma EndedNow(was: map<JobId, LiveJob>, jobs: map<JobId, LiveJob>, ending: set<JobId>, ending': set<JobId>,
                 wall: Time, graceUntil: Time, id: JobId)
    requires jobs.Keys == was.Keys && id in jobs && !jobs[id].job.status.Leased? &&
             (forall k | k in jobs && k != id :: jobs[k].job == was[k].job)
    requires ending' == ending - {id}
    ensures NoneOverdue(was, ending, wall, graceUntil) ==> NoneOverdue(jobs, ending', wall, graceUntil)
  {
    if NoneOverdue(was, ending, wall, graceUntil) {
      forall k | k !in ending' ensures NotOverdue(jobs, wall, graceUntil, k) {
        if k != id { assert NotOverdue(was, wall, graceUntil, k); }
      }
    }
  }

  lemma FewerOverdue(keep: Retention, was: map<JobId, LiveJob>, jobs: map<JobId, LiveJob>, now: Time, graceUntil: Time)
    requires OnlyPastGone(keep, was, jobs, now) && NoneOverdue(was, {}, now, graceUntil)
    ensures NoneOverdue(jobs, {}, now, graceUntil)
  {
    forall k ensures NotOverdue(jobs, now, graceUntil, k) { assert NotOverdue(was, now, graceUntil, k); }
  }

  lemma FailedNow(d: Durable, r: Record, was: map<JobId, LiveJob>, jobs: map<JobId, LiveJob>, d': Durable)
    requires r.AttemptFailed? && Applies(d, r) && d' == Apply(d, r) && d.jobs == DurableJobs(was) &&
             d'.jobs == DurableJobs(jobs)
    ensures jobs.Keys == was.Keys && r.id in jobs && !jobs[r.id].job.status.Leased? &&
            forall k | k in jobs && k != r.id :: jobs[k].job == was[k].job
  {
    assert d'.jobs.Keys == d.jobs.Keys && jobs.Keys == d'.jobs.Keys && was.Keys == d.jobs.Keys;
    forall k | k in jobs && k != r.id ensures jobs[k].job == was[k].job { assert d'.jobs[k] == d.jobs[k]; }
    assert d'.jobs[r.id] == JobAfter(d.jobs[r.id], r);
  }

  lemma KeyLookup(order: seq<IdemEntry>, index: map<Bytes, IdemEntry>, key: Bytes, now: Time)
    requires Keyed(order, index)
    ensures KeyIsFree(order, key, now) <==> !(key in index && index[key].expiresAt > now)
    ensures key in index ==> exists i :: 0 <= i < |order| && order[i] == index[key] && order[i].key == key
  {
    if key in index {
      assert index[key] in order;
    }
  }

  lemma ResolvedNow(policy: Policy, d: Durable, r: Record, now: Time)
    requires Applies(d, r) && Resolved(policy, d, r, now)
    ensures r.JobsPurged? || r.at == now
  {
  }

  lemma NextInRun(policy: Policy, events: seq<Event>, d: Durable, r: Record, now: Time)
    requires EngineRun(policy, EMPTY, events, now) && Run(policy.keep, EMPTY, events) == d && Applies(d, r) &&
             Resolved(policy, d, r, now)
    ensures EngineRun(policy, EMPTY, events + [Logged(r, now)], now)
    ensures Run(policy.keep, EMPTY, events + [Logged(r, now)]) == Apply(d, r)
    ensures Records(events + [Logged(r, now)]) == Records(events) + [r]
  {
    RunNext(policy, EMPTY, events, Logged(r, now), now);
  }
}
