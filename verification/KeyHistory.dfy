/**
 Idempotency keys over a run: a key stands for the job that was last enqueued under it, from then
 on for exactly the window.
 */
module KeyHistory {
  import opened Wrappers
  import opened LogFormat
  import opened Jobs
  import opened JobRuns
  import opened SnapshotRuns
  import H = JobHistory

  /** The event gives the key this entry. */
  predicate Makes(event: Event, e: IdemEntry) {
    && event.Logged? && event.record.JobEnqueued? && e.key != [] && event.record.idemKey == e.key
    && event.record.id == e.jobId && event.record.idemExpiresAt == e.expiresAt
  }

  /** The event takes the entry away: the key goes to another job, or the entry has expired. */
  predicate Ends(event: Event, e: IdemEntry) {
    match event
    case Logged(r, _) => r.JobEnqueued? && r.idemKey == e.key
    case Collected(t) => e.expiresAt <= t
  }

  ghost predicate Stands(events: seq<Event>, e: IdemEntry, k: nat) {
    k < |events| && Makes(events[k], e) && forall j | k < j < |events| :: !Ends(events[j], e)
  }

  /** Keys that expire in order are dropped exactly when they have expired. */
  lemma {:induction false} DropIsExact(idem: seq<IdemEntry>, t: Time, limit: Time, e: IdemEntry)
    requires KeysOk(idem, limit)
    ensures e in DropExpired(idem, t) <==> e in idem && e.expiresAt > t
  {
    hide KeysOk;
    if idem != [] {
      FirstPrecedes(idem, limit);
      assert idem == [idem[0]] + idem[1..];
      if idem[0].expiresAt <= t { DropIsExact(idem[1..], t, limit, e); }
    }
  }

  lemma UpsertMembers(idem: seq<IdemEntry>, r: Record, e: IdemEntry)
    requires r.JobEnqueued?
    ensures e in Upserted(idem, r) <==>
            if r.idemKey != [] && e.key == r.idemKey then e == IdemEntry(r.idemKey, r.id, r.idemExpiresAt)
              else e in idem
  {
    if r.idemKey != [] { WithoutMembers(idem, r.idemKey, e); }
  }

  lemma StandsOn(before: seq<Event>, last: Event, e: IdemEntry)
    ensures (exists k: nat :: Stands(before + [last], e, k))
            <==> Makes(last, e) || (!Ends(last, e) && exists k: nat :: Stands(before, e, k))
  {
    hide Makes, Ends;
    var events := before + [last];
    if k: nat :| Stands(events, e, k) {
      if k < |before| { StandsBefore(before, last, e, k); }
    }
    if Makes(last, e) { assert Stands(events, e, |before|); }
    if k: nat :| Stands(before, e, k) { StandsBefore(before, last, e, k); }
  }

  lemma StandsBefore(before: seq<Event>, last: Event, e: IdemEntry, k: nat)
    requires k < |before|
    ensures Stands(before + [last], e, k) <==> Stands(before, e, k) && !Ends(last, e)
  {
    hide Makes, Ends;
    var events := before + [last];
    assert events[|before|] == last;
    assert forall j | 0 <= j < |before| :: events[j] == before[j];
  }

  lemma IdemNext(keep: Retention, d: Durable, last: Event, limit: Time, e: IdemEntry)
    requires KeysOk(d.idem, limit) && (last.Logged? ==> Applies(d, last.record)) && e.key != []
    ensures e in Next(keep, d, last).idem <==> Makes(last, e) || (!Ends(last, e) && e in d.idem)
  {
    hide JobAfter, NewJob, Counted, KeysOk, Kept, DropExpired, Upserted;
    match last
    case Collected(t) => DropIsExact(d.idem, t, limit, e);
    case Logged(r, _) => if r.JobEnqueued? { UpsertMembers(d.idem, r, e); }
  }

  /** In every run of the Engine a key has exactly the entry of the last job enqueued under it, until the
      first collection at or after its expiry. */
  lemma {:induction false} RunRemembers(policy: Policy, events: seq<Event>, now: Time, e: IdemEntry)
    requires EngineRun(policy, EMPTY, events, now) && e.key != []
    ensures e in Run(policy.keep, EMPTY, events).idem <==> exists k: nat :: Stands(events, e, k)
    decreases |events|
  {
    hide Stands, Makes, Ends, Applies, Resolved, KeysOk, Next;
    if events == [] {
      NothingStands(e);
    } else {
      var before, last := events[..|events| - 1], events[|events| - 1];
      assert before + [last] == events;
      RunRemembers(policy, before, last.now, e);
      StandsOn(before, last, e);
      RunKeysInOrder(policy, before, last.now);
      IdemNext(policy.keep, Run(policy.keep, EMPTY, before), last, last.now + policy.window, e);
    }
  }

  lemma NothingStands(e: IdemEntry)
    ensures !exists k: nat :: Stands([], e, k)
  {
  }

  // --- what a client is told -------------------------------------------------------------------------------

  /** The job last enqueued under the key, if the window of that is not over. */
  function Answer(recs: seq<Record>, key: Bytes, now: Time): Option<JobId> {
    var used := H.Latest(recs, H.Keying(key));
    if used.Some? && used.value.idemExpiresAt > now then Some(used.value.id) else None
  }

  ghost predicate HasEntry(idem: seq<IdemEntry>, key: Bytes, id: JobId, now: Time) {
    exists e | e in idem :: e.key == key && e.jobId == id && e.expiresAt > now
  }

  /** The last record to use the key is the one that made the entry. */
  ghost predicate LastUse(recs: seq<Record>, e: IdemEntry) {
    var used := H.Latest(recs, H.Keying(e.key));
    used.Some? && used.value.id == e.jobId && used.value.idemExpiresAt == e.expiresAt
  }

  lemma LastUseOn(before: seq<Event>, last: Event, e: IdemEntry)
    requires e.key != [] && e.expiresAt > last.now
    ensures LastUse(Records(before + [last]), e)
            <==> Makes(last, e) || (!Ends(last, e) && LastUse(Records(before), e))
  {
    hide H.Latest;
    var events := before + [last];
    assert events[..|events| - 1] == before;
    if last.Logged? {
      H.OneMore(Records(before), last.record, H.Keying(e.key));
    } else {
      assert Records(events) == Records(before);
    }
  }

  lemma {:induction false} LatestStands(events: seq<Event>, e: IdemEntry, now: Time)
    requires e.key != [] && e.expiresAt > now && forall i | 0 <= i < |events| :: events[i].now <= now
    ensures (exists k: nat :: Stands(events, e, k)) <==> LastUse(Records(events), e)
    decreases |events|
  {
    hide Stands, Makes, Ends;
    if events == [] {
      NothingStands(e);
      H.NoneOn([], H.Keying(e.key));
    } else {
      hide LastUse, Records;
      var before, last := events[..|events| - 1], events[|events| - 1];
      assert before + [last] == events;
      LatestStands(before, e, now);
      StandsOn(before, last, e);
      LastUseOn(before, last, e);
    }
  }

  lemma {:induction false} NoneLater(policy: Policy, events: seq<Event>, now: Time, i: nat)
    requires EngineRun(policy, EMPTY, events, now) && i < |events|
    ensures events[i].now <= now
    decreases |events|
  {
    hide Allowed;
    if i < |events| - 1 { NoneLater(policy, events[..|events| - 1], events[|events| - 1].now, i); }
  }

  /** A second ENQUEUE under a key is answered with the job of the last one exactly as long as its
      window lasts, whatever has been collected in between. */
  lemma KeyAnswers(policy: Policy, events: seq<Event>, now: Time, key: Bytes, id: JobId)
    requires EngineRun(policy, EMPTY, events, now) && key != []
    ensures HasEntry(Run(policy.keep, EMPTY, events).idem, key, id, now) <==>
            Answer(Records(events), key, now) == Some(id)
  {
    hide Stands, H.Latest, EngineRun, Run, Records;
    var d, used := Run(policy.keep, EMPTY, events), H.Latest(Records(events), H.Keying(key));
    forall i | 0 <= i < |events| ensures events[i].now <= now { NoneLater(policy, events, now, i); }
    if e :| e in d.idem && e.key == key && e.jobId == id && e.expiresAt > now {
      RunRemembers(policy, events, now, e);
      LatestStands(events, e, now);
    }
    if Answer(Records(events), key, now) == Some(id) {
      var e := IdemEntry(key, id, used.value.idemExpiresAt);
      RunRemembers(policy, events, now, e);
      LatestStands(events, e, now);
    }
  }
}
