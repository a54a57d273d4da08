/**
 A restart: what recover_state() does with the live State once an image has been loaded and
 the log has been read.
 */
module Restarts {
  import opened Wrappers
  import opened LogFormat
  import opened Jobs
  import opened JobRuns
  import opened JobIndex
  import opened States

  /** The finished jobs had finished by then. */
  ghost predicate FinishedBy(d: Durable, now: Time) {
    forall id | id in d.jobs && Terminal(d.jobs[id].status) :: d.jobs[id].finishedAt <= now
  }

  /** The replay callback, record by record, on the State itself. */
  method ReplayTail(s: State, tail: seq<Record>) returns (ok: bool)
    requires s.Valid() && s.replaying && |s.jobs| + |tail| <= LIMIT
    modifies s, s.wheel
    ensures ok <==> Accepted(old(s.Persistent()), tail)
    ensures s.Valid() && s.replaying && s.wheel == old(s.wheel)
    ensures ok ==> s.Persistent() == Replay(old(s.Persistent()), tail)
  {
    hide State.Valid, State.OnTime, AllSharp, Apply, Applies, Accepted, Replay, Oldest, DurableTotals, DurableJobs,
         Announced;
    ghost var image := s.Persistent();
    NothingReplayed(image, tail);
    for k := 0 to |tail|
      invariant s.Valid() && s.replaying && s.wheel == old(s.wheel)
      invariant Accepted(image, tail[..k]) && s.Persistent() == Replay(image, tail[..k]) &&
                |s.jobs| <= |old(s.jobs)| + k
    {
      OneMoreRecord(image, tail, k);
      ghost var before, was := s.Persistent(), s.jobs;
      ok := s.ApplyRecord(tail[k]);
      if !ok {
        RefusedForGood(image, tail, k);
        return;
      }
      AtMostOneMore(before, tail[k]);
      SizeOfJobs(was);
      SizeOfJobs(s.jobs);
    }
    assert tail[..|tail|] == tail;
    return true;
  }

  /** What the replay starts from: the image, or nothing if there is no snapshot. */
  function StartOf(image: Option<Durable>): Durable { if image.Some? then image.value else EMPTY }

  /** A State in replay mode that holds the start. */
  method Begin(keep: Retention, image: Option<Durable>) returns (s: State)
    requires image.Some? ==> Sound(image.value) && KeysApart(image.value.idem) && |image.value.jobs| <= LIMIT
    ensures fresh(s) && fresh(s.wheel) && s.Valid() && s.replaying && s.keep == keep
    ensures s.Persistent() == StartOf(image)
  {
    hide State.Valid, State.Core, Sound, Keyed, DurableTotals, DurableJobs;
    if image.Some? {
      s := new State.Opened(keep, image.value);
      s.Fill(image.value);
    } else {
      s := new State(keep);
      SizeOfJobs(s.jobs);
      s.BeginReplay();
    }
  }

  /** The image is rebuilt in replay mode, the records after it are applied one by one, and
      the replay ends at the current time. It is given up exactly if a record does not fit;
      otherwise the State is complete, with every index in place, and holds what the records
      lead to, collected at that time. */
  method Restart(keep: Retention, start: Option<Durable>, tail: seq<Record>, wall: Time, mono: nat, grace: int)
    returns (state: Option<State>)
    requires start.Some? ==> Sound(start.value) && KeysApart(start.value.idem)
    requires |StartOf(start).jobs| + |tail| <= LIMIT
    ensures state.Some? <==> Accepted(StartOf(start), tail)
    ensures state.Some? ==>
              var image := StartOf(start);
              var s := state.value;
              && fresh(s) && fresh(s.wheel) && s.Valid() && !s.replaying && s.expired == {} && s.keep == keep
              && s.wallNow == wall && s.monoNow == mono && s.OnTime({}) && s.Sharp()
              && s.graceUntil == wall + grace && AllSpared(s.jobs, s.Timers(), wall, mono, wall + grace)
              && (FinishedBy(Replay(image, tail), wall) ==>
                    s.Chronological() && s.Persistent() == Jobs.Collect(keep, Replay(image, tail), wall))
  {
    hide State.Valid, State.OnTime, State.Core, AllSharp, Sound, Keyed, Accepted, Replay, Oldest, Jobs.Collect,
         DurableTotals, DurableJobs, AllSpared, State.Timers;
    ghost var image := StartOf(start);
    var s := Begin(keep, start);
    SizeOfJobs(s.jobs);
    var ok := ReplayTail(s, tail);
    if !ok { return None; }
    ghost var jobs := s.jobs;
    s.SetNow(wall, mono);
    s.EndReplay(grace);
    if FinishedBy(Replay(image, tail), wall) { NoneLaterThan(Replay(image, tail), jobs, wall); }
    return Some(s);
  }

  lemma NothingReplayed(d: Durable, tail: seq<Record>)
    ensures Accepted(d, tail[..0]) && Replay(d, tail[..0]) == d
  {
  }

  lemma OneMoreRecord(d: Durable, tail: seq<Record>, k: nat)
    requires k < |tail| && Accepted(d, tail[..k])
    ensures Accepted(d, tail[..k + 1]) <==> Applies(Replay(d, tail[..k]), tail[k])
    ensures Applies(Replay(d, tail[..k]), tail[k]) ==> Replay(d, tail[..k + 1]) == Apply(Replay(d, tail[..k]), tail[k])
  {
    assert tail[..k + 1][..k] == tail[..k];
  }

  lemma {:induction false} RefusedForGood(d: Durable, tail: seq<Record>, k: nat)
    requires k < |tail| && !Accepted(d, tail[..k + 1])
    ensures !Accepted(d, tail)
    decreases |tail|
  {
    if k == |tail| - 1 {
      assert tail[..k + 1] == tail;
    } else {
      assert tail[..|tail| - 1][..k + 1] == tail[..k + 1];
      RefusedForGood(d, tail[..|tail| - 1], k);
    }
  }

  lemma AtMostOneMore(d: Durable, r: Record)
    requires Applies(d, r)
    ensures |Apply(d, r).jobs| <= |d.jobs| + 1
  {
    var jobs := Apply(d, r).jobs;
    if r.JobsPurged? {
      SetsShrink(jobs.Keys, d.jobs.Keys);
    } else {
      assert jobs.Keys == d.jobs.Keys + {r.id};
    }
    assert |jobs.Keys| == |jobs| && |d.jobs.Keys| == |d.jobs|;
  }

  lemma SetsShrink(a: set<JobId>, b: set<JobId>)
    requires a <= b
    ensures |a| <= |b|
  {
    assert b == a + (b - a);
  }

  lemma SizeOfJobs(jobs: map<JobId, LiveJob>)
    ensures |DurableJobs(jobs)| == |jobs|
  {
    assert DurableJobs(jobs).Keys == jobs.Keys;
    assert |DurableJobs(jobs).Keys| == |DurableJobs(jobs)| && |jobs.Keys| == |jobs|;
  }

  lemma NoneLaterThan(d: Durable, jobs: map<JobId, LiveJob>, now: Time)
    requires FinishedBy(d, now) && d.jobs == DurableJobs(jobs)
    ensures NoneFinishedAfter(jobs, now)
  {
    forall id | id in jobs && Terminal(jobs[id].job.status) ensures jobs[id].job.finishedAt <= now {
      assert id in d.jobs;
    }
  }
}
