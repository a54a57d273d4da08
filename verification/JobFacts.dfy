/** What holds of every log an Engine can write. */
module JobFacts {
  import opened LogFormat
  import opened Jobs
  import opened JobRuns

  // --- at most one success per job ---------------------------------------------------------------

  /** The job has succeeded; it may have been collected since. */
  ghost predicate Done(d: Durable, id: JobId) {
    id < d.nextJobId && (id in d.jobs ==> d.jobs[id].status.Succeeded?)
  }

  lemma DoneForGood(policy: Policy, d: Durable, e: Event, id: JobId)
    requires Done(d, id) && Allowed(policy, d, e)
    ensures Done(Next(policy.keep, d, e), id)
  {
  }

  lemma {:induction false} DoneAfterSuccess(policy: Policy, d: Durable, events: seq<Event>, now: Time, i: nat)
    requires EngineRun(policy, d, events, now) && Sound(d) && i < |events|
    requires events[i].Logged? && events[i].record.JobSucceeded?
    ensures Done(Run(policy.keep, d, events), events[i].record.id)
  {
    var before, last := events[..|events| - 1], events[|events| - 1];
    if i == |events| - 1 {
      RunIsSound(policy, d, before, last.now);
      assert JobOk(Run(policy.keep, d, before), last.record.id);
    } else {
      DoneAfterSuccess(policy, d, before, last.now, i);
      DoneForGood(policy, Run(policy.keep, d, before), last, events[i].record.id);
    }
  }

  /** At most one JobSucceeded record per job id. */
  lemma OneSuccess(policy: Policy, d: Durable, events: seq<Event>, now: Time, i: nat, j: nat)
    requires EngineRun(policy, d, events, now) && Sound(d) && i < j < |events|
    requires events[i].Logged? && events[i].record.JobSucceeded? && events[j].Logged? && events[j].record.JobSucceeded?
    ensures events[i].record.id != events[j].record.id
  {
    RunPrefix(policy, d, events, now, j + 1);
    var upto := events[..j + 1];
    assert upto[..j] == events[..j] && upto[j] == events[j];
    DoneAfterSuccess(policy, d, upto[..j], upto[j].now, i);
  }

  // --- which token completed a job --------------------------------------------------------------------

  /** The log has the record that completed the job under this token. */
  ghost predicate Completed(events: seq<Event>, id: JobId, token: Token) {
    exists k :: 0 <= k < |events| && IsSuccess(events[k], id, token)
  }

  ghost predicate IsSuccess(e: Event, id: JobId, token: Token) {
    e.Logged? && e.record.JobSucceeded? && e.record.id == id && e.record.token == token
  }

  lemma CompletedStays(events: seq<Event>, e: Event, id: JobId, token: Token)
    requires Completed(events, id, token)
    ensures Completed(events + [e], id, token)
  {
    var k :| 0 <= k < |events| && IsSuccess(events[k], id, token);
    assert IsSuccess((events + [e])[k], id, token);
  }

  lemma CompletedNow(events: seq<Event>, e: Event, id: JobId, token: Token)
    requires IsSuccess(e, id, token)
    ensures Completed(events + [e], id, token)
  {
    assert IsSuccess((events + [e])[|events|], id, token);
  }

  /** A succeeded job carries the token of the record that completed it. */
  lemma {:induction false} SucceededIsLogged(policy: Policy, events: seq<Event>, now: Time, id: JobId)
    requires EngineRun(policy, EMPTY, events, now)
    requires var d := Run(policy.keep, EMPTY, events); id in d.jobs && d.jobs[id].status.Succeeded?
    ensures Completed(events, id, Run(policy.keep, EMPTY, events).jobs[id].token)
  {
    var before, last := events[..|events| - 1], events[|events| - 1];
    var d := Run(policy.keep, EMPTY, before);
    var token := Run(policy.keep, EMPTY, events).jobs[id].token;
    assert before + [last] == events;
    if IsSuccess(last, id, token) {
      CompletedNow(before, last, id, token);
    } else {
      assert id in d.jobs && d.jobs[id].status.Succeeded? && d.jobs[id].token == token;
      SucceededIsLogged(policy, before, last.now, id);
      CompletedStays(before, last, id, token);
    }
  }

  /** Only one token can have completed a job. */
  lemma OneToken(policy: Policy, d: Durable, events: seq<Event>, now: Time, id: JobId, a: Token, b: Token)
    requires EngineRun(policy, d, events, now) && Sound(d) && Completed(events, id, a) && Completed(events, id, b)
    ensures a == b
  {
    var i :| 0 <= i < |events| && IsSuccess(events[i], id, a);
    var j :| 0 <= j < |events| && IsSuccess(events[j], id, b);
    if i < j {
      OneSuccess(policy, d, events, now, i, j);
    } else if j < i {
      OneSuccess(policy, d, events, now, j, i);
    }
  }

  // --- idempotency keys ------------------------------------------------------------------------------------

  /** The key was used by a job enqueued at `at`: its entry is there until the window is over. */
  ghost predicate Remembered(policy: Policy, d: Durable, key: Bytes, at: Time, now: Time) {
    at + policy.window <= now || exists e :: e in d.idem && e.key == key && e.expiresAt >= at + policy.window
  }

  lemma KeyIsRemembered(policy: Policy, d: Durable, e: Event, key: Bytes, at: Time)
    requires key != [] && Remembered(policy, d, key, at, e.now) && Allowed(policy, d, e)
    ensures Remembered(policy, Next(policy.keep, d, e), key, at, e.now)
    ensures e.Logged? && e.record.JobEnqueued? && e.record.idemKey == key ==> at + policy.window <= e.now
  {
    if at + policy.window > e.now {
      var entry :| entry in d.idem && entry.key == key && entry.expiresAt >= at + policy.window;
      match e
      case Logged(r, now) =>
        if r.JobEnqueued? && r.idemKey != [] {
          WithoutMembers(d.idem, r.idemKey, entry);
          assert entry in Without(d.idem, r.idemKey);
          assert entry in Apply(d, r).idem;
        }
      case Collected(now) =>
        var gone := DropExpiredSplits(d.idem, now);
        assert entry in DropExpired(d.idem, now);
    }
  }

  lemma {:induction false} EnqueuedIsRemembered(policy: Policy, d: Durable, events: seq<Event>, now: Time, i: nat)
    requires EngineRun(policy, d, events, now) && i < |events|
    requires events[i].Logged? && events[i].record.JobEnqueued? && events[i].record.idemKey != []
    ensures Remembered(policy, Run(policy.keep, d, events), events[i].record.idemKey, events[i].record.at, now)
  {
    var before, last := events[..|events| - 1], events[|events| - 1];
    var key, at := events[i].record.idemKey, events[i].record.at;
    var d' := Run(policy.keep, d, events);
    if i == |events| - 1 {
      assert IdemEntry(key, last.record.id, last.record.idemExpiresAt) in d'.idem;
    } else {
      EnqueuedIsRemembered(policy, d, before, last.now, i);
      KeyIsRemembered(policy, Run(policy.keep, d, before), last, key, at);
    }
    assert Remembered(policy, d', key, at, last.now);
  }

  /** Two jobs enqueued under the same key are at least the idempotency window apart. */
  lemma KeysApart(policy: Policy, d: Durable, events: seq<Event>, now: Time, i: nat, j: nat)
    requires EngineRun(policy, d, events, now) && i < j < |events|
    requires events[i].Logged? && events[i].record.JobEnqueued? && events[j].Logged? && events[j].record.JobEnqueued?
    requires events[i].record.idemKey == events[j].record.idemKey != []
    ensures events[j].record.at >= events[i].record.at + policy.window
  {
    RunPrefix(policy, d, events, now, j + 1);
    var upto := events[..j + 1];
    assert upto[..j] == events[..j] && upto[j] == events[j];
    EnqueuedIsRemembered(policy, d, upto[..j], upto[j].now, i);
    KeyIsRemembered(policy, Run(policy.keep, d, upto[..j]), upto[j], events[i].record.idemKey, events[i].record.at);
  }

  // --- attempts ---------------------------------------------------------------------------------------------

  ghost predicate CanRun(d: Durable, id: JobId) {
    id in d.jobs && d.jobs[id].status.Pending? ==> d.jobs[id].attempts < d.jobs[id].maxAttempts
  }

  /** A pending job always has an attempt left, so leasing it is never refused. */
  lemma {:induction false} PendingCanRun(policy: Policy, events: seq<Event>, now: Time, id: JobId)
    requires EngineRun(policy, EMPTY, events, now)
    ensures CanRun(Run(policy.keep, EMPTY, events), id)
  {
    if events != [] {
      var before, last := events[..|events| - 1], events[|events| - 1];
      PendingCanRun(policy, before, last.now, id);
      RunIsSound(policy, EMPTY, before, last.now);
      assert JobOk(Run(policy.keep, EMPTY, before), id);
    }
  }
}
