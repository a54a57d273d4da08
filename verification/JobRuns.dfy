/**
 Whole runs of the job state: records applied live, garbage collected in between, and
 the same records replayed from an empty state or from a captured image.
 */
module JobRuns {
  import opened LogFormat
  import opened Jobs

  /** What happens to the live state: a record is logged and applied at a time, or
      garbage is collected at a time. */
  datatype Event = Logged(record: Record, now: Time) | Collected(now: Time)

  datatype Policy = Policy(keep: Retention, window: int)

  function Next(keep: Retention, d: Durable, e: Event): Durable {
    match e
    case Logged(r, _) => if Applies(d, r) then Apply(d, r) else d
    case Collected(now) => Collect(keep, d, now)
  }

  function Run(keep: Retention, d: Durable, events: seq<Event>): Durable {
    if events == [] then d else Next(keep, Run(keep, d, events[..|events| - 1]), events[|events| - 1])
  }

  function Records(events: seq<Event>): seq<Record> {
    if events == [] then []
    else
      var last := events[|events| - 1];
      Records(events[..|events| - 1]) + if last.Logged? then [last.record] else []
  }

  /** apply() during replay, record by record; a refused one leaves the state as it is. */
  function Replay(d: Durable, recs: seq<Record>): Durable {
    if recs == [] then d
    else
      var before := Replay(d, recs[..|recs| - 1]);
      if Applies(before, recs[|recs| - 1]) then Apply(before, recs[|recs| - 1]) else before
  }

  /** No record of the replay is refused. */
  ghost predicate Accepted(d: Durable, recs: seq<Record>) {
    recs == [] || (Accepted(d, recs[..|recs| - 1]) && Applies(Replay(d, recs[..|recs| - 1]), recs[|recs| - 1]))
  }

  // --- what the Engine lets happen ----------------------------------------------------------------

  /** No live entry for the key: an expired one counts as absent. */
  ghost predicate KeyIsFree(idem: seq<IdemEntry>, key: Bytes, now: Time) {
    forall i | 0 <= i < |idem| :: idem[i].key == key ==> idem[i].expiresAt <= now
  }

  /** How the command handlers resolve clock, window and outcome into a record. */
  ghost predicate Resolved(policy: Policy, d: Durable, r: Record, now: Time)
    requires Applies(d, r)
  {
    match r
    case JobEnqueued(_, _, _, _, runAt, _, _, _, key, expires, at) =>
      at == now && runAt >= now && (key != [] ==> expires == now + policy.window && KeyIsFree(d.idem, key, now))
    case JobLeased(_, _, _, at) => at == now
    case LeaseExtended(_, _, _, at) => at == now
    case JobSucceeded(_, _, at) => at == now
    case AttemptFailed(id, _, reason, _, at, dead, retryAt) =>
      && at == now && (dead || (d.jobs[id].attempts < d.jobs[id].maxAttempts && retryAt >= now))
      && (reason.LeaseExpired? ==> d.jobs[id].leaseExpiresAt <= now)
    case JobCancelled(_, at) => at == now
    case DeadJobRetried(_, runAt, at) => runAt == now && at == now
    case JobsPurged(ids) => forall id | id in ids :: d.jobs[id].status.Dead?
  }

  ghost predicate Allowed(policy: Policy, d: Durable, e: Event) {
    e.Logged? ==> Applies(d, e.record) && Resolved(policy, d, e.record, e.now)
  }

  /** A run of the Engine with a wall clock that never goes back and has reached `now`. */
  ghost predicate EngineRun(policy: Policy, d: Durable, events: seq<Event>, now: Time) {
    events == [] ||
    var before, last := events[..|events| - 1], events[|events| - 1];
    last.now <= now && EngineRun(policy, d, before, last.now) && Allowed(policy, Run(policy.keep, d, before), last)
  }

  lemma RunNext(policy: Policy, d: Durable, events: seq<Event>, e: Event, now: Time)
    requires EngineRun(policy, d, events, now) && now <= e.now && Allowed(policy, Run(policy.keep, d, events), e)
    ensures EngineRun(policy, d, events + [e], e.now)
    ensures Run(policy.keep, d, events + [e]) == Next(policy.keep, Run(policy.keep, d, events), e)
    ensures Records(events + [e]) == Records(events) + if e.Logged? then [e.record] else []
  {
    RunLater(policy, d, events, now, e.now);
    assert (events + [e])[..|events|] == events;
  }

  lemma RunLater(policy: Policy, d: Durable, events: seq<Event>, now: Time, later: Time)
    requires EngineRun(policy, d, events, now) && now <= later
    ensures EngineRun(policy, d, events, later)
  {
  }

  lemma {:induction false} RunPrefix(policy: Policy, d: Durable, events: seq<Event>, now: Time, k: nat)
    requires EngineRun(policy, d, events, now) && k <= |events|
    ensures EngineRun(policy, d, events[..k], now)
  {
    if k == |events| {
      assert events[..k] == events;
    } else {
      var before, last := events[..|events| - 1], events[|events| - 1];
      RunPrefix(policy, d, before, last.now, k);
      assert before[..k] == events[..k];
      RunLater(policy, d, events[..k], last.now, now);
    }
  }

  lemma {:induction false} RunIsSound(policy: Policy, d: Durable, events: seq<Event>, now: Time)
    requires EngineRun(policy, d, events, now) && Sound(d)
    ensures Sound(Run(policy.keep, d, events))
  {
    if events != [] {
      var before, last := events[..|events| - 1], events[|events| - 1];
      RunIsSound(policy, d, before, last.now);
      match last
      case Logged(r, _) => ApplyKeepsSound(Run(policy.keep, d, before), r);
      case Collected(t) => CollectKeepsSound(policy.keep, Run(policy.keep, d, before), t);
    }
  }

  // --- replay equivalence -----------------------------------------------------------------------------

  /** A job of the replayed state: either the live state has it too, or it is a job past
      its retention that the live state has collected. */
  ghost predicate SameOrPast(keep: Retention, live: Durable, replayed: Durable, now: Time, id: JobId) {
    if id in live.jobs then id in replayed.jobs && replayed.jobs[id] == live.jobs[id]
    else id in replayed.jobs ==> Past(keep, replayed.jobs[id], now)
  }

  ghost predicate AllExpired(idem: seq<IdemEntry>, now: Time) {
    forall i | 0 <= i < |idem| :: idem[i].expiresAt <= now
  }

  /** The replayed state is the live state plus only entries already past retention;
      `gone` are the keys the live state has dropped. */
  ghost predicate Trails(keep: Retention, live: Durable, replayed: Durable, now: Time, gone: seq<IdemEntry>) {
    && live.totals == replayed.totals && live.nextJobId == replayed.nextJobId && live.nextToken == replayed.nextToken
    && (forall id :: SameOrPast(keep, live, replayed, now, id))
    && replayed.idem == gone + live.idem && AllExpired(gone, now)
  }

  lemma TrailsSelf(keep: Retention, d: Durable, now: Time)
    ensures Trails(keep, d, d, now, [])
  {
    assert [] + d.idem == d.idem;
  }

  lemma TrailsLater(keep: Retention, live: Durable, replayed: Durable, now: Time, later: Time, gone: seq<IdemEntry>)
    requires Trails(keep, live, replayed, now, gone) && now <= later
    ensures Trails(keep, live, replayed, later, gone)
  {
    forall id ensures SameOrPast(keep, live, replayed, later, id) { assert SameOrPast(keep, live, replayed, now, id); }
  }

  lemma {:induction false} WithoutAppend(a: seq<IdemEntry>, b: seq<IdemEntry>, key: Bytes)
    ensures Without(a + b, key) == Without(a, key) + Without(b, key)
  {
    if a == [] {
      assert a + b == b;
    } else {
      WithoutAppend(a[1..], b, key);
      var first := if a[0].key == key then [] else [a[0]];
      var all := a + b;
      assert all[0] == a[0] && all[1..] == a[1..] + b;
      assert Without(all, key) == first + Without(all[1..], key);
      Associative(first, Without(a[1..], key), Without(b, key));
    }
  }

  lemma Associative(a: seq<IdemEntry>, b: seq<IdemEntry>, c: seq<IdemEntry>)
    ensures a + (b + c) == a + b + c
  {
  }

  lemma WithoutExpired(a: seq<IdemEntry>, key: Bytes, now: Time)
    requires AllExpired(a, now)
    ensures AllExpired(Without(a, key), now)
  {
    var r := Without(a, key);
    forall i | 0 <= i < |r| ensures r[i].expiresAt <= now {
      assert r[i] in r;
      WithoutMembers(a, key, r[i]);
    }
  }

  /** A record the live state accepts is accepted by the replayed one, with the same effect. */
  lemma TrailsApply(keep: Retention, live: Durable, replayed: Durable, now: Time, gone: seq<IdemEntry>, r: Record)
    returns (gone': seq<IdemEntry>)
    requires Trails(keep, live, replayed, now, gone) && Sound(replayed) && Applies(live, r)
    ensures Applies(replayed, r) && Trails(keep, Apply(live, r), Apply(replayed, r), now, gone')
  {
    gone' := gone;
    if r.JobEnqueued? {
      if r.idemKey != [] {
        gone' := Without(gone, r.idemKey);
        WithoutAppend(gone, live.idem, r.idemKey);
        WithoutExpired(gone, r.idemKey, now);
      }
      assert JobOk(replayed, r.id);
    } else if r.JobsPurged? {
      forall id | id in r.ids ensures id in replayed.jobs && Terminal(replayed.jobs[id].status) {
        assert SameOrPast(keep, live, replayed, now, id);
      }
    } else {
      assert SameOrPast(keep, live, replayed, now, r.id);
    }
    forall id ensures SameOrPast(keep, Apply(live, r), Apply(replayed, r), now, id) {
      assert SameOrPast(keep, live, replayed, now, id);
    }
  }

  /** Collecting in the live state only moves entries past retention out of it. */
  lemma TrailsCollect(keep: Retention, live: Durable, replayed: Durable, now: Time, gone: seq<IdemEntry>)
    returns (gone': seq<IdemEntry>)
    requires Trails(keep, live, replayed, now, gone)
    ensures Trails(keep, Collect(keep, live, now), replayed, now, gone')
  {
    var more := DropExpiredSplits(live.idem, now);
    gone' := gone + more;
    forall id ensures SameOrPast(keep, Collect(keep, live, now), replayed, now, id) {
      assert SameOrPast(keep, live, replayed, now, id);
    }
  }

  lemma {:induction false} DropExpiredAppend(gone: seq<IdemEntry>, idem: seq<IdemEntry>, now: Time)
    requires AllExpired(gone, now)
    ensures DropExpired(gone + idem, now) == DropExpired(idem, now)
  {
    if gone == [] {
      assert gone + idem == idem;
    } else {
      DropExpiredAppend(gone[1..], idem, now);
      assert (gone + idem)[1..] == gone[1..] + idem;
    }
  }

  /** Once both have collected at the same time, they are equal. */
  lemma TrailsMeet(keep: Retention, live: Durable, replayed: Durable, now: Time, gone: seq<IdemEntry>)
    requires Trails(keep, live, replayed, now, gone)
    ensures Collect(keep, replayed, now) == Collect(keep, live, now)
  {
    DropExpiredAppend(gone, live.idem, now);
    SameKept(keep, live, replayed, now);
  }

  lemma SameKept(keep: Retention, live: Durable, replayed: Durable, now: Time)
    requires forall id :: SameOrPast(keep, live, replayed, now, id)
    ensures Kept(keep, replayed.jobs, now) == Kept(keep, live.jobs, now)
  {
    hide Past;
    var a, b := Kept(keep, replayed.jobs, now), Kept(keep, live.jobs, now);
    forall id ensures id in a <==> id in b { assert SameOrPast(keep, live, replayed, now, id); }
    forall id | id in a ensures a[id] == b[id] { assert SameOrPast(keep, live, replayed, now, id); }
  }

  lemma CollectTwice(keep: Retention, d: Durable, now: Time)
    ensures Collect(keep, Collect(keep, d, now), now) == Collect(keep, d, now)
  {
    var once := Kept(keep, d.jobs, now);
    var _ := DropExpiredSplits(d.idem, now);
    assert Kept(keep, once, now) == once;
  }

  lemma ReplayNext(d: Durable, recs: seq<Record>, r: Record)
    ensures Replay(d, recs + [r]) ==
            (var before := Replay(d, recs); if Applies(before, r) then Apply(before, r) else before)
    ensures Accepted(d, recs) && Applies(Replay(d, recs), r) ==> Accepted(d, recs + [r])
  {
    assert (recs + [r])[..|recs|] == recs;
  }

  lemma RecordsNext(events: seq<Event>, e: Event)
    ensures Records(events + [e]) == Records(events) + if e.Logged? then [e.record] else []
  {
    assert (events + [e])[..|events|] == events;
  }

  /** Replaying the tail from an image captured anywhere in the run trails the live state. */
  lemma {:induction false} TailTrails(policy: Policy, d: Durable, events: seq<Event>, now: Time, cut: nat)
    returns (gone: seq<IdemEntry>)
    requires EngineRun(policy, d, events, now) && Sound(d) && cut <= |events|
    ensures var image, tail := Run(policy.keep, d, events[..cut]), Records(events[cut..]);
            && Accepted(image, tail) && Sound(Replay(image, tail))
            && Trails(policy.keep, Run(policy.keep, d, events), Replay(image, tail), now, gone)
    decreases |events|
  {
    hide Trails, Apply, Applies, Sound, Collect, Resolved;
    var keep := policy.keep;
    var image := Run(keep, d, events[..cut]);
    if cut == |events| {
      assert events[..cut] == events && events[cut..] == [];
      RunIsSound(policy, d, events, now);
      gone := [];
      TrailsSelf(keep, image, now);
    } else {
      var before, last := events[..|events| - 1], events[|events| - 1];
      gone := TailTrails(policy, d, before, last.now, cut);
      var live, tail := Run(keep, d, before), Records(before[cut..]);
      assert before[..cut] == events[..cut] && events[cut..] == before[cut..] + [last];
      RecordsNext(before[cut..], last);
      match last {
        case Logged(r, t) =>
          gone := TrailsApply(keep, live, Replay(image, tail), t, gone, r);
          ReplayNext(image, tail, r);
          ApplyKeepsSound(Replay(image, tail), r);
        case Collected(t) =>
          gone := TrailsCollect(keep, live, Replay(image, tail), t, gone);
          assert Records(events[cut..]) == tail;
      }
      TrailsLater(keep, Run(keep, d, events), Replay(image, Records(events[cut..])), last.now, now, gone);
    }
  }

  /** Replay equivalence: from an image captured after any part of the run, or from the
      start, no record is refused, and ending the replay at a time T gives what the live
      state becomes when it collects at T. */
  lemma ReplayEquivalence(policy: Policy, d: Durable, events: seq<Event>, now: Time, cut: nat, T: Time)
    requires EngineRun(policy, d, events, now) && Sound(d) && cut <= |events| && now <= T
    ensures var image, tail := Run(policy.keep, d, events[..cut]), Records(events[cut..]);
            && Accepted(image, tail)
            && Collect(policy.keep, Replay(image, tail), T) == Collect(policy.keep, Run(policy.keep, d, events), T)
  {
    var gone := TailTrails(policy, d, events, now, cut);
    var image, tail := Run(policy.keep, d, events[..cut]), Records(events[cut..]);
    TrailsLater(policy.keep, Run(policy.keep, d, events), Replay(image, tail), now, T, gone);
    TrailsMeet(policy.keep, Run(policy.keep, d, events), Replay(image, tail), T, gone);
  }

  /** After a tick at T, which ends by collecting, the live state itself is what a replay
      that ends at T gives. */
  lemma ReplayAfterTick(policy: Policy, d: Durable, events: seq<Event>, T: Time, cut: nat)
    requires EngineRun(policy, d, events, T) && Sound(d) && cut < |events| && events[|events| - 1] == Collected(T)
    ensures var image, tail := Run(policy.keep, d, events[..cut]), Records(events[cut..]);
            Collect(policy.keep, Replay(image, tail), T) == Run(policy.keep, d, events)
  {
    ReplayEquivalence(policy, d, events, T, cut, T);
    CollectTwice(policy.keep, Run(policy.keep, d, events[..|events| - 1]), T);
  }

  /** A restart is one more event of the same run: what recovery rebuilds and collects at
      T is the live state with a collection at T appended. */
  lemma RestartContinues(policy: Policy, d: Durable, events: seq<Event>, now: Time, cut: nat, T: Time)
    requires EngineRun(policy, d, events, now) && Sound(d) && cut <= |events| && now <= T
    ensures var recovered := Collect(policy.keep, Replay(Run(policy.keep, d, events[..cut]), Records(events[cut..])),
                                     T);
            && EngineRun(policy, d, events + [Collected(T)], T)
            && Run(policy.keep, d, events + [Collected(T)]) == recovered
            && Records(events + [Collected(T)]) == Records(events)
  {
    ReplayEquivalence(policy, d, events, now, cut, T);
    RunNext(policy, d, events, Collected(T), now);
  }
}
