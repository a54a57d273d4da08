/**
 The independent checker that re-derives leases from the log alone, and its agreement
 with the job state.
 */
module LeaseModels {
  import opened Wrappers
  import opened LogFormat
  import opened Jobs
  import opened JobRuns
  import L = JobHistory

  datatype Lease = Lease(token: Token, expiresAt: Time)

  datatype Violation = IdReused | TokenNotLarger | TwoLeases | NoLease | StaleToken | EarlyExpiry | RetriedWhileLeased
      | PurgedWhileLeased

  /** What the checker knows. */
  datatype Known = Known(nextJobId: JobId, maxToken: int, leases: map<JobId, Lease>)

  const NOTHING := Known(1, 0, map[])

  /** What a state image says about leases: where start_from() starts. */
  function FromImage(d: Durable): Known {
    Known(d.nextJobId, d.nextToken - 1, map id | id in d.jobs && d.jobs[id].status.Leased? ::
          Lease(d.jobs[id].token, d.jobs[id].leaseExpiresAt))
  }

  function MaxOf(a: int, b: int): int { if a < b then b else a }

  /** What the checker knows after one more record. */
  function Learn(k: Known, r: Record): Known {
    match r
    case JobEnqueued(id, _, _, _, _, _, _, _, _, _, _) => k.(nextJobId := MaxOf(k.nextJobId, id + 1))
    case JobLeased(id, token, expires, _) => k.(maxToken := MaxOf(k.maxToken, token), leases :=
                                                k.leases[id := Lease(token, expires)])
    case LeaseExtended(id, token, expires, _) =>
      if id in k.leases && k.leases[id].token == token then k.(leases := k.leases[id := Lease(token, expires)]) else k
    case JobSucceeded(id, _, _) => k.(leases := k.leases - {id})
    case AttemptFailed(id, _, _, _, _, _, _) => k.(leases := k.leases - {id})
    case JobCancelled(id, _) => k.(leases := k.leases - {id})
    case DeadJobRetried(_, _, _) => k
    case JobsPurged(_) => k
  }

  /** How a record fits the current lease. */
  function Current(k: Known, id: JobId, token: Token): seq<Violation> {
    if id !in k.leases then [NoLease] else if k.leases[id].token != token then [StaleToken] else []
  }

  function Purged(k: Known, ids: seq<JobId>): seq<Violation> {
    if ids == [] then []
    else Purged(k, ids[..|ids| - 1]) + if ids[|ids| - 1] in k.leases then [PurgedWhileLeased] else []
  }

  /** What the checker objects to in a record. */
  function Objections(k: Known, r: Record): seq<Violation> {
    match r
    case JobEnqueued(id, _, _, _, _, _, _, _, _, _, _) => if id < k.nextJobId then [IdReused] else []
    case JobLeased(id, token, _, _) =>
      (if token <= k.maxToken then [TokenNotLarger] else []) + if id in k.leases then [TwoLeases] else []
    case LeaseExtended(id, token, _, _) => Current(k, id, token)
    case JobSucceeded(id, token, _) => Current(k, id, token)
    case AttemptFailed(id, token, reason, _, at, _, _) =>
      var wrong := Current(k, id, token);
      wrong + if wrong == [] && reason.LeaseExpired? && at < k.leases[id].expiresAt then [EarlyExpiry] else []
    case JobCancelled(_, _) => []
    case DeadJobRetried(id, _, _) => if id in k.leases then [RetriedWhileLeased] else []
    case JobsPurged(ids) => Purged(k, ids)
  }

  class LeaseModel {
    var nextJobId: JobId
    var maxToken: int
    var leases: map<JobId, Lease>
    var violations: seq<Violation>

    ghost function Knows(): Known
      reads this
    {
      Known(nextJobId, maxToken, leases)
    }

    constructor ()
      ensures Knows() == NOTHING && violations == []
    {
      nextJobId, maxToken, leases, violations := 1, 0, map[], [];
    }

    /** Starts in the middle of a log, from the image a snapshot holds. `jobs` are the
        image's jobs in whatever order it lists them. */
    method StartFrom(d: Durable, jobs: seq<JobId>)
      requires forall id :: id in jobs <==> id in d.jobs
      modifies this
      ensures Knows() == FromImage(d) && violations == old(violations)
    {
      nextJobId := d.nextJobId;
      maxToken := d.nextToken - 1;
      leases := map[];
      for i := 0 to |jobs|
        invariant nextJobId == d.nextJobId && maxToken == d.nextToken - 1 && violations == old(violations)
        invariant forall id :: id in leases <==> id in jobs[..i] && d.jobs[id].status.Leased?
        invariant forall id | id in leases :: leases[id] == Lease(d.jobs[id].token, d.jobs[id].leaseExpiresAt)
      {
        assert jobs[..i + 1] == jobs[..i] + [jobs[i]];
        if d.jobs[jobs[i]].status.Leased? {
          leases := leases[jobs[i] := Lease(d.jobs[jobs[i]].token, d.jobs[jobs[i]].leaseExpiresAt)];
        }
      }
      assert jobs[..|jobs|] == jobs;
    }

    /** The lease a record must refer to; anything else is noted. */
    method CheckCurrent(id: JobId, token: Token) returns (ok: bool)
      modifies this`violations
      ensures violations == old(violations) + Current(Knows(), id, token)
      ensures ok <==> Current(Knows(), id, token) == []
    {
      if id !in leases {
        violations := violations + [NoLease];
        return false;
      }
      if leases[id].token != token {
        violations := violations + [StaleToken];
        return false;
      }
      return true;
    }

    method On(r: Record)
      modifies this
      ensures Knows() == Learn(old(Knows()), r)
      ensures violations == old(violations) + Objections(old(Knows()), r)
    {
      match r {
        case JobEnqueued(id, _, _, _, _, _, _, _, _, _, _) =>
          if id < nextJobId { violations := violations + [IdReused]; }
          nextJobId := MaxOf(nextJobId, id + 1);
        case JobLeased(id, token, expires, _) =>
          if token <= maxToken { violations := violations + [TokenNotLarger]; }
          maxToken := MaxOf(maxToken, token);
          if id in leases { violations := violations + [TwoLeases]; }
          leases := leases[id := Lease(token, expires)];
        case LeaseExtended(id, token, expires, _) =>
          var ok := CheckCurrent(id, token);
          if ok { leases := leases[id := leases[id].(expiresAt := expires)]; }
        case JobSucceeded(id, token, _) =>
          var _ := CheckCurrent(id, token);
          leases := leases - {id};
        case AttemptFailed(id, token, reason, _, at, _, _) =>
          var ok := CheckCurrent(id, token);
          if ok && reason.LeaseExpired? && at < leases[id].expiresAt { violations := violations + [EarlyExpiry]; }
          leases := leases - {id};
        case JobCancelled(id, _) =>
          leases := leases - {id};
        case DeadJobRetried(id, _, _) =>
          if id in leases { violations := violations + [RetriedWhileLeased]; }
        case JobsPurged(ids) =>
          ghost var before := violations;
          for i := 0 to |ids|
            invariant Knows() == old(Knows()) && violations == before + Purged(Knows(), ids[..i])
          {
            assert ids[..i + 1][..i] == ids[..i];
            if ids[i] in leases { violations := violations + [PurgedWhileLeased]; }
          }
          assert ids[..|ids|] == ids;
      }
    }

    /** Record after record. */
    method Feed(recs: seq<Record>)
      modifies this
      ensures Knows() == LearnAll(old(Knows()), recs)
      ensures violations == old(violations) + AllObjections(old(Knows()), recs)
    {
      hide Learn, Objections;
      for i := 0 to |recs|
        invariant Knows() == LearnAll(old(Knows()), recs[..i])
        invariant violations == old(violations) + AllObjections(old(Knows()), recs[..i])
      {
        assert recs[..i + 1][..i] == recs[..i];
        On(recs[i]);
      }
      assert recs[..|recs|] == recs;
    }
  }

  // --- agreement with the job state -------------------------------------------------------------------

  /** The record ends a lease as expired before the recorded expiry. */
  ghost predicate ExpiresEarly(d: Durable, r: Record) {
    r.AttemptFailed? && r.reason.LeaseExpired? && r.id in d.jobs && r.at < d.jobs[r.id].leaseExpiresAt
  }

  lemma {:induction false} NonePurged(k: Known, ids: seq<JobId>)
    requires forall id | id in ids :: id !in k.leases
    ensures Purged(k, ids) == []
  {
    if ids != [] { NonePurged(k, ids[..|ids| - 1]); }
  }

  /** Whatever apply() accepts, the checker has nothing to say about, except an early
      expiry; and afterwards it knows what the new state says. */
  lemma CheckerAgrees(d: Durable, r: Record)
    requires Sound(d) && Applies(d, r)
    ensures Objections(FromImage(d), r) == if ExpiresEarly(d, r) then [EarlyExpiry] else []
    ensures Learn(FromImage(d), r) == FromImage(Apply(d, r))
  {
    var k, d' := FromImage(d), Apply(d, r);
    if r.JobsPurged? {
      NonePurged(k, r.ids);
    } else if r.JobEnqueued? {
      assert JobOk(d, r.id);
    }
    assert Learn(k, r).leases == FromImage(d').leases;
  }

  /** Collection never touches a lease. */
  lemma CollectKeepsLeases(keep: Retention, d: Durable, now: Time)
    ensures FromImage(Collect(keep, d, now)) == FromImage(d)
  {
    assert FromImage(Collect(keep, d, now)).leases == FromImage(d).leases;
  }

  /** The checker fed record after record. */
  function LearnAll(k: Known, recs: seq<Record>): Known {
    if recs == [] then k else Learn(LearnAll(k, recs[..|recs| - 1]), recs[|recs| - 1])
  }

  function AllObjections(k: Known, recs: seq<Record>): seq<Violation> {
    if recs == [] then []
    else AllObjections(k, recs[..|recs| - 1]) + Objections(LearnAll(k, recs[..|recs| - 1]), recs[|recs| - 1])
  }

  ghost predicate OnlyEarly(v: seq<Violation>) {
    forall i | 0 <= i < |v| :: v[i] == EarlyExpiry
  }

  /** Any sequence of records that apply() accepts: nothing but early expiries, and
      start_from() at the end knows exactly what feeding the whole sequence taught. */
  lemma {:induction false} AcceptedIsConsistent(d: Durable, recs: seq<Record>)
    requires Sound(d) && Accepted(d, recs)
    ensures Sound(Replay(d, recs))
    ensures OnlyEarly(AllObjections(FromImage(d), recs))
    ensures LearnAll(FromImage(d), recs) == FromImage(Replay(d, recs))
  {
    if recs != [] {
      var before, last := recs[..|recs| - 1], recs[|recs| - 1];
      AcceptedIsConsistent(d, before);
      CheckerAgrees(Replay(d, before), last);
      ApplyKeepsSound(Replay(d, before), last);
    }
  }

  lemma NeverEarly(policy: Policy, d: Durable, r: Record, now: Time)
    requires Allowed(policy, d, Logged(r, now))
    ensures !ExpiresEarly(d, r)
  {
  }

  lemma CutNext(events: seq<Event>, cut: nat)
    requires cut < |events|
    ensures var before := events[..|events| - 1];
            before[..cut] == events[..cut] && events[cut..] == before[cut..] + [events[|events| - 1]]
  {
  }

  /** A log written by the Engine gives the checker nothing to object to, from the start
      or from an image taken anywhere in the run, and both ways it ends up knowing the
      same. */
  lemma {:induction false} EngineLogIsClean(policy: Policy, d: Durable, events: seq<Event>, now: Time, cut: nat)
    requires EngineRun(policy, d, events, now) && Sound(d) && cut <= |events|
    ensures var image, tail := Run(policy.keep, d, events[..cut]), Records(events[cut..]);
            && AllObjections(FromImage(image), tail) == []
            && LearnAll(FromImage(image), tail) == FromImage(Run(policy.keep, d, events))
    decreases |events|
  {
    hide Applies, Apply, Collect, Resolved, FromImage, Learn, Objections, Sound, ExpiresEarly;
    var image := Run(policy.keep, d, events[..cut]);
    if cut == |events| {
      assert events[..cut] == events && events[cut..] == [];
    } else {
      var before, last := events[..|events| - 1], events[|events| - 1];
      EngineLogIsClean(policy, d, before, last.now, cut);
      CutNext(events, cut);
      RecordsNext(before[cut..], last);
      var live, tail := Run(policy.keep, d, before), Records(before[cut..]);
      match last
      case Logged(r, t) =>
        RunIsSound(policy, d, before, t);
        CheckerAgrees(live, r);
        NeverEarly(policy, live, r, t);
        assert (tail + [r])[..|tail|] == tail;
      case Collected(t) =>
        CollectKeepsLeases(policy.keep, live, t);
        assert Records(events[cut..]) == tail;
    }
  }

  /** start_from() at any cut reaches what feeding the whole prefix from nothing reaches. */
  lemma StartAnywhere(policy: Policy, events: seq<Event>, now: Time, cut: nat)
    requires EngineRun(policy, EMPTY, events, now) && cut <= |events|
    ensures LearnAll(NOTHING, Records(events[..cut])) == FromImage(Run(policy.keep, EMPTY, events[..cut]))
    ensures AllObjections(NOTHING, Records(events)) == []
  {
    assert FromImage(EMPTY).leases == map[];
    RunPrefix(policy, EMPTY, events, now, cut);
    EngineLogIsClean(policy, EMPTY, events[..cut], now, 0);
    EngineLogIsClean(policy, EMPTY, events, now, 0);
    assert events[..cut][..0] == [] && events[..cut][0..] == events[..cut] && events[..0] == [] &&
           events[0..] == events;
  }

  // --- what the checker objects to, by the log alone -------------------------------------------------------

  /** The latest lease of the job, if neither a success, a failure nor a cancellation has ended it. */
  function OpenLease(recs: seq<Record>, id: JobId): (r: Option<Record>)
    ensures r.Some? ==> r.value.JobLeased? && r.value.id == id
  {
    var latest := L.Latest(recs, L.Holding(id));
    if latest.Some? && latest.value.JobLeased? then latest else None
  }

  /** When a lease of the job was last said to end. */
  function LastExpiry(recs: seq<Record>, id: JobId): Time {
    var latest := L.Latest(recs, L.Letting(id));
    if latest.Some? then latest.value.leaseExpiresAt else 0
  }

  /** The token is that of the open lease. */
  ghost predicate IsHolder(recs: seq<Record>, id: JobId, token: Token) {
    OpenLease(recs, id).Some? && OpenLease(recs, id).value.token == token
  }

  /** There is nothing wrong with the record after these. */
  ghost predicate Right(recs: seq<Record>, r: Record) {
    match r
    case JobEnqueued(id, _, _, _, _, _, _, _, _, _, _) =>
      id >= 1 && forall i | 0 <= i < |recs| && recs[i].JobEnqueued? :: recs[i].id < id
    case JobLeased(id, token, _, _) =>
      && token >= 1 && (forall i | 0 <= i < |recs| && recs[i].JobLeased? :: recs[i].token < token)
      && OpenLease(recs, id).None?
    case LeaseExtended(id, token, _, _) => IsHolder(recs, id, token)
    case JobSucceeded(id, token, _) => IsHolder(recs, id, token)
    case AttemptFailed(id, token, reason, _, at, _, _) =>
      IsHolder(recs, id, token) && (reason.LeaseExpired? ==> at >= LastExpiry(recs, id))
    case JobCancelled(_, _) => true
    case DeadJobRetried(id, _, _) => OpenLease(recs, id).None?
    case JobsPurged(ids) => forall id | id in ids :: OpenLease(recs, id).None?
  }

  ghost predicate AllRight(recs: seq<Record>) { forall i | 0 <= i < |recs| :: Right(recs[..i], recs[i]) }

  lemma AllRightNext(recs: seq<Record>, r: Record)
    ensures AllRight(recs + [r]) <==> AllRight(recs) && Right(recs, r)
  {
    hide Right;
    var all := recs + [r];
    assert all[..|recs|] == recs;
    assert forall i | 0 <= i < |recs| :: all[..i] == recs[..i] && all[i] == recs[i];
    if AllRight(all) { assert Right(all[..|recs|], all[|recs|]); }
    if AllRight(recs) && Right(recs, r) {
      forall i | 0 <= i < |all| ensures Right(all[..i], all[i]) { if i < |recs| { assert Right(recs[..i], recs[i]); } }
    }
  }

  /** The two counters are above everything seen. */
  lemma {:induction false} CountersSeen(recs: seq<Record>, id: int, token: int)
    ensures var k := LearnAll(NOTHING, recs);
            && (id >= k.nextJobId <==> id >= 1 && forall i | 0 <= i < |recs| && recs[i].JobEnqueued? :: recs[i].id < id)
            && (token > k.maxToken <==>
                token >= 1 && forall i | 0 <= i < |recs| && recs[i].JobLeased? :: recs[i].token < token)
  {
    if recs != [] {
      var before, r := recs[..|recs| - 1], recs[|recs| - 1];
      CountersSeen(before, id, token);
      assert recs == before + [r];
    }
  }

  /** The checker holds exactly the open leases. */
  lemma {:induction false} LeasesSeen(recs: seq<Record>, id: JobId)
    ensures var k := LearnAll(NOTHING, recs);
            && (id in k.leases <==> OpenLease(recs, id).Some?)
            && (id in k.leases ==> k.leases[id].token == OpenLease(recs, id).value.token)
  {
    hide L.Latest;
    if recs == [] {
      L.NoneOn([], L.Holding(id));
    } else {
      var before, r := recs[..|recs| - 1], recs[|recs| - 1];
      LeasesSeen(before, id);
      assert recs == before + [r];
      L.OneMore(before, r, L.Holding(id));
    }
  }

  /** And, if nothing was wrong, when each of them ends. */
  lemma {:induction false} ExpiriesSeen(recs: seq<Record>, id: JobId)
    requires AllRight(recs)
    ensures var k := LearnAll(NOTHING, recs); id in k.leases ==> k.leases[id].expiresAt == LastExpiry(recs, id)
  {
    hide L.Latest, AllRight, Right;
    if recs != [] {
      var before, r := recs[..|recs| - 1], recs[|recs| - 1];
      assert recs == before + [r];
      AllRightNext(before, r);
      ExpiriesSeen(before, id);
      LeasesSeen(before, id);
      L.OneMore(before, r, L.Letting(id));
      ExtenderHolds(before, r);
    }
  }

  lemma ExtenderHolds(recs: seq<Record>, r: Record)
    requires Right(recs, r)
    ensures r.LeaseExtended? ==> OpenLease(recs, r.id).Some? && OpenLease(recs, r.id).value.token == r.token
  {
  }

  lemma {:induction false} PurgedSome(k: Known, ids: seq<JobId>)
    ensures Purged(k, ids) == [] <==> forall id | id in ids :: id !in k.leases
  {
    if ids != [] {
      PurgedSome(k, ids[..|ids| - 1]);
      assert ids == ids[..|ids| - 1] + [ids[|ids| - 1]];
    }
  }

  lemma ObjectsExactly(recs: seq<Record>, r: Record)
    requires AllRight(recs)
    ensures Objections(LearnAll(NOTHING, recs), r) == [] <==> Right(recs, r)
  {
    hide L.Latest, AllRight, LearnAll, OpenLease, LastExpiry;
    var k := LearnAll(NOTHING, recs);
    if r.JobsPurged? {
      PurgedSome(k, r.ids);
      forall id | id in r.ids ensures id in k.leases <==> OpenLease(recs, id).Some? { LeasesSeen(recs, id); }
    } else {
      CountersSeen(recs, r.id, if r.JobLeased? then r.token else 0);
      LeasesSeen(recs, r.id);
      ExpiriesSeen(recs, r.id);
    }
  }

  /** The checker says nothing about a log if and only if nothing is wrong with it: job ids and
      tokens only grow, no job has two leases or is retried or purged under one, whoever extends
      or ends a lease holds it, and no lease is ended as expired before its time. */
  lemma {:induction false} SilentIffRight(recs: seq<Record>)
    ensures AllObjections(NOTHING, recs) == [] <==> AllRight(recs)
  {
    hide AllRight, Right, Objections, LearnAll;
    if recs == [] {
      NothingWrong();
    } else {
      var before, r := recs[..|recs| - 1], recs[|recs| - 1];
      assert recs == before + [r];
      SilentIffRight(before);
      AllRightNext(before, r);
      if AllRight(before) { ObjectsExactly(before, r); }
    }
  }

  lemma NothingWrong()
    ensures AllRight([])
  {
  }

  /** What the checker is for: a job completed twice under one lease does not go unseen. */
  lemma DoubleCompletionIsSeen(recs: seq<Record>, i: nat, j: nat)
    requires i < j < |recs| && recs[i].JobSucceeded? && recs[j].JobSucceeded? && recs[i].id == recs[j].id
    requires forall k | i < k < j :: !(recs[k].JobLeased? && recs[k].id == recs[i].id)
    ensures AllObjections(NOTHING, recs) != []
  {
    hide L.Latest;
    SilentIffRight(recs);
    EndedStays(recs[..j], i, recs[i].id);
    assert !Right(recs[..j], recs[j]);
  }

  lemma {:induction false} EndedStays(recs: seq<Record>, i: nat, id: JobId)
    requires i < |recs| && recs[i].JobSucceeded? && recs[i].id == id
    requires forall k | i < k < |recs| :: !(recs[k].JobLeased? && recs[k].id == id)
    ensures OpenLease(recs, id).None?
  {
    if i < |recs| - 1 && !L.On(recs[|recs| - 1], L.Holding(id)) { EndedStays(recs[..|recs| - 1], i, id); }
  }

  // --- starting in the middle ---------------------------------------------------------------------------------

  lemma {:induction false} FedInParts(k: Known, a: seq<Record>, b: seq<Record>)
    ensures LearnAll(k, a + b) == LearnAll(LearnAll(k, a), b)
    ensures AllObjections(k, a + b) == AllObjections(k, a) + AllObjections(LearnAll(k, a), b)
    decreases |b|
  {
    hide Learn, Objections;
    if b == [] {
      assert a + b == a;
    } else {
      var n := |b| - 1;
      FedInParts(k, a, b[..n]);
      assert (a + b)[..|a| + n] == a + b[..n];
    }
  }

  /** From an image the verdict is the same as from the beginning: on the rest of a log that was
      right so far, the checker is silent if and only if the whole log is right. */
  lemma SameVerdictFromImage(a: seq<Record>, b: seq<Record>)
    requires Accepted(EMPTY, a) && AllRight(a)
    ensures AllObjections(FromImage(Replay(EMPTY, a)), b) == [] <==> AllRight(a + b)
  {
    hide AllRight, LearnAll, AllObjections, Accepted, Replay;
    assert FromImage(EMPTY) == NOTHING by { assert FromImage(EMPTY).leases == map[]; }
    L.NothingTold();
    AcceptedIsConsistent(EMPTY, a);
    FedInParts(NOTHING, a, b);
    SilentIffRight(a);
    SilentIffRight(a + b);
  }

  lemma {:induction false} LatestStays(a: seq<Record>, b: seq<Record>, t: L.Topic)
    requires forall i | 0 <= i < |b| :: !L.On(b[i], t)
    ensures L.Latest(a + b, t) == L.Latest(a, t)
    decreases |b|
  {
    hide L.On, L.Latest, L.Since, L.Count;
    if b == [] {
      assert a + b == a;
    } else {
      var before, last := b[..|b| - 1], b[|b| - 1];
      assert a + b == (a + before) + [last];
      LatestStays(a, before, t);
      L.OneMore(a + before, last, t);
    }
  }

  /** With a record left out, what came before a later one is what is left. */
  lemma LeftOut(recs: seq<Record>, i: nat, j: nat)
    requires i < j < |recs|
    ensures var lost := recs[..i] + recs[i + 1..];
            j - 1 < |lost| && lost[..j - 1] == recs[..i] + recs[i + 1..j] && lost[j - 1] == recs[j]
  {
  }

  lemma EndHadLease(recs: seq<Record>, r: Record)
    requires Right(recs, r) && (r.AttemptFailed? || r.JobSucceeded?)
    ensures OpenLease(recs, r.id).Some?
  {
    hide OpenLease;
  }

  lemma LeaseNeedsNone(recs: seq<Record>, r: Record)
    requires r.JobLeased? && OpenLease(recs, r.id).Some?
    ensures !Right(recs, r)
  {
    hide OpenLease;
  }

  /** A log that has lost the end of a lease is seen for what it is, whatever else is in it, as soon as
      the job is leased again. */
  lemma LostEndIsSeen(recs: seq<Record>, i: nat, j: nat)
    requires AllObjections(NOTHING, recs) == [] && i < j < |recs|
    requires (recs[i].AttemptFailed? || recs[i].JobSucceeded?) && recs[j].JobLeased? && recs[j].id == recs[i].id
    requires forall x | i < x < j :: !L.On(recs[x], L.Holding(recs[i].id))
    ensures AllObjections(NOTHING, recs[..i] + recs[i + 1..]) != []
  {
    hide L.Latest, L.On, AllObjections, Right;
    var id, lost, between := recs[i].id, recs[..i] + recs[i + 1..], recs[i + 1..j];
    SilentIffRight(recs);
    SilentIffRight(lost);
    EndHadLease(recs[..i], recs[i]);
    LatestStays(recs[..i], between, L.Holding(id));
    LeftOut(recs, i, j);
    LeaseNeedsNone(recs[..i] + between, recs[j]);
  }
}
