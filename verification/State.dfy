/**
 State: every job, queue and index, changed only by applying records, firing timers
 and collecting garbage.
 */
module States {
  import opened Wrappers
  import opened LogFormat
  import opened Jobs
  import opened JobIndex
  import H = ReadyHeaps
  import T = TimingWheels

  /** As many jobs as heap indexes and slab indexes can tell apart. */
  const LIMIT: nat := 0xFFFF_FFFF

  datatype FinishedRef = FinishedRef(id: JobId, finishedAt: Time)

  function MaxTime(a: Time, b: Time): Time { if a < b then b else a }

  function DurableJobs(jobs: map<JobId, LiveJob>): map<JobId, Job> { map id | id in jobs :: jobs[id].job }

  function DurableTotals(queues: map<Bytes, Queue>): map<Bytes, Totals> { map q | q in queues :: queues[q].totals }

  lemma MergeUpdate<K, V>(a: map<K, V>, b: map<K, V>, k: K, v: V)
    requires k !in b
    ensures a[k := v] + b == (a + b)[k := v]
  {
  }

  /** No timer for a job's run time is due yet. */
  ghost predicate DueLater(timers: map<T.TimerHandle, T.Timer>, mono: nat) {
    forall h | h in timers :: timers[h].deadline > mono
  }

  lemma MergeMinus<K, V>(a: map<K, V>, b: map<K, V>, k: K)
    requires k !in a
    ensures a + (b - {k}) == a + b - {k}
  {
  }

  lemma PunctualLater(v: View, before: Time, wall: Time, offset: int)
    requires Punctual(v, before, offset, {}) && before <= wall
    ensures Punctual(v, wall, offset, {})
  {
    forall id ensures PunctualAt(v, wall, offset, id) { assert PunctualAt(v, before, offset, id); }
  }

  lemma JobsUpdate(jobs: map<JobId, LiveJob>, id: JobId, j: LiveJob)
    ensures DurableJobs(jobs[id := j]) == DurableJobs(jobs)[id := j.job]
  {
  }

  lemma TotalsUpdate(queues: map<Bytes, Queue>, q: Bytes, queue: Queue)
    ensures DurableTotals(queues[q := queue]) == DurableTotals(queues)[q := queue.totals]
  {
  }

  // --- exact timing ----------------------------------------------------------------------------------

  /** A ready job is due; a scheduled one has its timer at its run time, and a leased one
      at its expiry or the end of the grace period, with the monotonic clock `offset`
      behind the wall clock. */
  ghost predicate PunctualAt(v: View, wall: Time, offset: int, id: JobId) {
    id in v.jobs ==>
      && (v.jobs[id].job.status.Pending? && v.jobs[id].ready ==> v.jobs[id].job.runAt <= wall)
      && (v.jobs[id].timer.Some? && v.jobs[id].timer.value in v.timers ==>
            InTime(v.jobs[id].job, v.timers[v.jobs[id].timer.value].deadline + offset, wall, v.graceUntil))
  }

  predicate InTime(job: Job, deadline: Time, wall: Time, graceUntil: Time) {
    && (job.status.Pending? ==> deadline == job.runAt)
    && (job.status.Leased? ==> job.leaseExpiresAt <= deadline <= MaxTime(job.leaseExpiresAt, MaxTime(graceUntil, wall)))
  }

  ghost predicate Punctual(v: View, wall: Time, offset: int, loose: set<JobId>) {
    forall id | id !in loose :: PunctualAt(v, wall, offset, id)
  }

  lemma PunctualOthers(v: View, v': View, wall: Time, offset: int, id: JobId, q: Bytes, loose: set<JobId>)
    requires OnlyDiffers(v, v', id, q) && Indexed(v, loose) && Punctual(v, wall, offset, loose)
    ensures Punctual(v', wall, offset, loose + {id})
  {
    hide HeapOk, DeadOk, CountsOk, TimerOwned;
    forall k | k !in loose + {id} ensures PunctualAt(v', wall, offset, k) {
      assert JobIndexed(v, k) && PunctualAt(v, wall, offset, k);
    }
  }

  // --- notifications --------------------------------------------------------------------------------------

  /** A queue with a ready job it did not have before is on the list. */
  ghost predicate AnnouncedAt(before: map<Bytes, Queue>, queues: map<Bytes, Queue>, notes: seq<Bytes>, q: Bytes) {
    q in queues ==> q in notes || forall e | e in queues[q].ready.heap :: q in before && e in before[q].ready.heap
  }

  ghost predicate Announced(before: map<Bytes, Queue>, queues: map<Bytes, Queue>, notes: seq<Bytes>) {
    forall q :: AnnouncedAt(before, queues, notes, q)
  }

  lemma AnnouncedThrough(a: map<Bytes, Queue>, b: map<Bytes, Queue>, c: map<Bytes, Queue>, notes: seq<Bytes>,
                         notes': seq<Bytes>)
    requires Announced(a, b, notes) && Announced(b, c, notes') && forall q | q in notes :: q in notes'
    ensures Announced(a, c, notes')
  {
    forall q ensures AnnouncedAt(a, c, notes', q) {
      assert AnnouncedAt(a, b, notes, q) && AnnouncedAt(b, c, notes', q);
    }
  }

  // --- garbage references ----------------------------------------------------------------------------------

  ghost predicate RefOk(jobs: map<JobId, LiveJob>, nextJobId: JobId, ref: FinishedRef) {
    ref.id < nextJobId && (ref.id in jobs ==> jobs[ref.id].job.status.Succeeded? || jobs[ref.id].job.status.Cancelled?)
  }

  ghost predicate HasRef(jobs: map<JobId, LiveJob>, finished: seq<FinishedRef>, dead: seq<FinishedRef>, id: JobId) {
    id in jobs && Terminal(jobs[id].job.status) ==>
      FinishedRef(id, jobs[id].job.finishedAt) in (if jobs[id].job.status.Dead? then dead else finished)
  }

  /** Every terminal job is on the list that will lead to its collection. */
  ghost predicate RefsOk(jobs: map<JobId, LiveJob>, nextJobId: JobId, finished: seq<FinishedRef>,
                         dead: seq<FinishedRef>) {
    && (forall ref | ref in finished :: RefOk(jobs, nextJobId, ref))
    && (forall id :: HasRef(jobs, finished, dead, id))
  }

  /** Oldest first, and none later than now. */
  ghost predicate Oldest(refs: seq<FinishedRef>, now: Time) {
    && (forall i, j | 0 <= i < j < |refs| :: refs[i].finishedAt <= refs[j].finishedAt)
    && (forall i | 0 <= i < |refs| :: refs[i].finishedAt <= now)
  }

  ghost predicate SharpAt(jobs: map<JobId, LiveJob>, wall: Time, id: JobId) {
    id in jobs && jobs[id].job.status.Pending? ==> (jobs[id].ready <==> jobs[id].job.runAt <= wall)
  }

  ghost predicate AllSharp(jobs: map<JobId, LiveJob>, wall: Time) {
    forall id :: SharpAt(jobs, wall, id)
  }

  /** A lease that has run out has ended, unless the grace period lasts. */
  ghost predicate NotOverdue(jobs: map<JobId, LiveJob>, wall: Time, graceUntil: Time, id: JobId) {
    id in jobs && jobs[id].job.status.Leased? ==> jobs[id].job.leaseExpiresAt > wall || graceUntil > wall
  }

  ghost predicate NoneOverdue(jobs: map<JobId, LiveJob>, ending: set<JobId>, wall: Time, graceUntil: Time) {
    forall id | id !in ending :: NotOverdue(jobs, wall, graceUntil, id)
  }

  /** A lease the rebuild found is not ended before the grace period is over, nor before its own
      expiry, nor later than that. */
  ghost predicate SparedAt(jobs: map<JobId, LiveJob>, timers: map<T.TimerHandle, T.Timer>, wall: Time, mono: int,
                           until: Time, id: JobId) {
    id in jobs && jobs[id].job.status.Leased? ==>
      && jobs[id].timer.Some? && jobs[id].timer.value in timers
      && var ends := timers[jobs[id].timer.value].deadline - mono + wall;
         && ends >= until && ends >= jobs[id].job.leaseExpiresAt && ends >= wall
         && (ends == until || ends == jobs[id].job.leaseExpiresAt || ends == wall)
  }

  ghost predicate AllSpared(jobs: map<JobId, LiveJob>, timers: map<T.TimerHandle, T.Timer>, wall: Time, mono: int,
                            until: Time) {
    forall id :: SparedAt(jobs, timers, wall, mono, until, id)
  }

  /** The timers are still there, and perhaps more. */
  ghost predicate MoreTimers(a: map<T.TimerHandle, T.Timer>, b: map<T.TimerHandle, T.Timer>) {
    forall h | h in a :: h in b && b[h] == a[h]
  }

  lemma SparedToo(was: map<JobId, LiveJob>, jobs: map<JobId, LiveJob>, a: map<T.TimerHandle, T.Timer>,
                  b: map<T.TimerHandle, T.Timer>, wall: Time, mono: int, until: Time, id: JobId)
    requires AllSpared(was, a, wall, mono, until) && MoreTimers(a, b) && id in jobs && jobs == was[id := jobs[id]]
    requires SparedAt(jobs, b, wall, mono, until, id)
    ensures AllSpared(jobs, b, wall, mono, until)
  {
    forall k ensures SparedAt(jobs, b, wall, mono, until, k) { assert SparedAt(was, a, wall, mono, until, k); }
  }

  lemma FewerSpared(keep: Retention, was: map<JobId, LiveJob>, jobs: map<JobId, LiveJob>,
                    timers: map<T.TimerHandle, T.Timer>, wall: Time, mono: int, until: Time)
    requires AllSpared(was, timers, wall, mono, until) && OnlyPastGone(keep, was, jobs, wall)
    ensures AllSpared(jobs, timers, wall, mono, until)
  {
    forall k ensures SparedAt(jobs, timers, wall, mono, until, k) {
      assert SparedAt(was, timers, wall, mono, until, k);
    }
  }

  /** The timer of the job has come. */
  ghost predicate TimerCame(jobs: map<JobId, LiveJob>, timers: map<T.TimerHandle, T.Timer>, now: nat, id: JobId) {
    && id in jobs && jobs[id].timer.Some? && jobs[id].timer.value in timers
    && timers[jobs[id].timer.value].deadline <= now
  }

  // --- idempotency keys --------------------------------------------------------------------------------------

  ghost predicate Keyed(order: seq<IdemEntry>, index: map<Bytes, IdemEntry>) {
    && (forall i | 0 <= i < |order| :: order[i].key in index && index[order[i].key] == order[i])
    && (forall key | key in index :: index[key].key == key && index[key] in order)
    && (forall i, j | 0 <= i < j < |order| :: order[i].key != order[j].key)
  }

  class State {
    const keep: Retention
    var wallNow: Time
    var monoNow: nat
    var replaying: bool

    var jobs: map<JobId, LiveJob>
    var queues: map<Bytes, Queue>
    var nextJobId: JobId
    var nextToken: Token
    var idemOrder: seq<IdemEntry>
    var idemIndex: map<Bytes, IdemEntry>

    var wheel: T.TimingWheel
    var finishedGc: seq<FinishedRef>
    var deadGc: seq<FinishedRef>
    var readyNotifications: seq<Bytes>
    /** Leases whose timer has fired and which the Engine has yet to end. */
    ghost var expired: set<JobId>
    /** Timers that have fired in the current tick and whose jobs have yet to be looked at. */
    ghost var inFlight: map<T.TimerHandle, T.Timer>
    /** When the grace period of the last rebuild is over. */
    ghost var graceUntil: Time

    ghost function Now(): View
      reads this`jobs, this`queues, this`replaying, this`expired, this`inFlight, this`graceUntil, this`wheel, wheel
    {
      View(jobs, queues, Timers(), replaying, expired, graceUntil)
    }

    /** The timers of the wheel, and those in flight. */
    ghost function Timers(): map<T.TimerHandle, T.Timer>
      reads this`inFlight, this`wheel, wheel
    {
      wheel.pending + inFlight
    }

    ghost predicate WheelOk()
      reads this`inFlight, this`wheel, wheel
    {
      wheel.Valid() && forall h | h in inFlight :: wheel.Retired(h)
    }

    ghost function Persistent(): Durable
      reads this
    {
      Durable(DurableJobs(jobs), DurableTotals(queues), nextJobId, nextToken, idemOrder)
    }

    ghost predicate Core(loose: set<JobId>)
      reads this`jobs, this`queues, this`replaying, this`expired, this`inFlight, this`graceUntil, this`wheel, wheel
    {
      WheelOk() && Indexed(Now(), loose) && |jobs| <= LIMIT
    }

    /** On time but for the loose jobs, in the current reading of the clocks. */
    ghost predicate OnTime(loose: set<JobId>)
      reads this`wallNow, this`monoNow, this`jobs, this`queues, this`replaying, this`expired, this`inFlight,
            this`graceUntil, this`wheel, wheel
    {
      Punctual(Now(), wallNow, wallNow - monoNow, loose)
    }

    ghost predicate Valid()
      reads this, wheel
    {
      && Core({}) && inFlight == map[] && Sound(Persistent()) && Keyed(idemOrder, idemIndex)
      && (!replaying ==> RefsOk(jobs, nextJobId, finishedGc, deadGc))
    }

    /** A pending job is ready exactly when its time has come. */
    ghost predicate Sharp()
      reads this`jobs, this`wallNow
    {
      AllSharp(jobs, wallNow)
    }

    ghost predicate Chronological()
      reads this`finishedGc, this`deadGc, this`wallNow
    {
      Oldest(finishedGc, wallNow) && Oldest(deadGc, wallNow)
    }

    /** What applying a record does: all of it, or nothing. */
    twostate predicate Outcome(r: Record, ok: bool)
      reads this, wheel
    {
      && (ok <==> Applies(old(Persistent()), r))
      && (ok ==> Persistent() == Apply(old(Persistent()), r))
      && (!ok ==> unchanged(this) && unchanged(wheel))
      && wheel.now == old(wheel.now)
      && expired == (if ok && !r.JobEnqueued? && !r.JobsPurged? then old(expired) - {r.id} else old(expired))
      && Announced(old(queues), queues, readyNotifications) &&
         (forall q | q in old(readyNotifications) :: q in readyNotifications)
      && (r.JobLeased? ==> readyNotifications == old(readyNotifications))
      && (old(OnTime({})) ==> OnTime({}))
      && (!replaying && old(Sharp()) ==> Sharp())
      && (ok && !replaying && (r.JobEnqueued? || r.DeadJobRetried? || (r.AttemptFailed? && !r.dead)) ==>
            SharpAt(jobs, wallNow, r.id))
      && (old(Chronological()) && (r.JobsPurged? || r.at == wallNow) ==> Chronological())
    }

    constructor (keep: Retention)
      ensures Valid() && Persistent() == EMPTY && this.keep == keep && !replaying
      ensures fresh(wheel)
    {
      this.keep := keep;
      wallNow, monoNow, replaying := 0, 0, false;
      jobs, queues, nextJobId, nextToken, idemOrder, idemIndex := map[], map[], 1, 1, [], map[];
      wheel := new T.TimingWheel(0);
      finishedGc, deadGc, readyNotifications, expired, inFlight := [], [], [], {}, map[];
    }

    // --- moving one job between indexes ---------------------------------------------------------------

    method CancelTimer(h: T.TimerHandle)
      requires WheelOk() && inFlight == map[]
      modifies wheel
      ensures WheelOk() && wheel.now == old(wheel.now) && Timers() == old(Timers()) - {h}
    {
      hide T.TimingWheel.Valid;
      var _ := wheel.Cancel(h);
    }

    method NewTimer(deadline: nat, kind: nat, id: nat) returns (h: T.TimerHandle)
      requires WheelOk() && |wheel.pending| < LIMIT
      modifies wheel
      ensures WheelOk() && wheel.now == old(wheel.now) && h !in old(Timers()) &&
              Timers() == old(Timers())[h := T.Timer(deadline, kind, id)]
      ensures deadline > monoNow && old(DueLater(wheel.pending, monoNow)) ==> DueLater(wheel.pending, monoNow)
    {
      hide T.TimingWheel.Valid, T.TimingWheel.Retired;
      ghost var before := wheel.pending;
      wheel.HasRoom();
      h := wheel.Schedule(deadline, kind, id);
      MergeUpdate(before, inFlight, h, T.Timer(deadline, kind, id));
    }

    method TakeFromHeap(q: Bytes, id: JobId)
      requires q in queues && H.Consistent(queues[q].ready)
      modifies this`queues
      ensures q in queues && queues == old(queues)[q := old(queues)[q].(ready := queues[q].ready)] &&
              H.Consistent(queues[q].ready)
      ensures forall e :: e in queues[q].ready.heap <==> e in old(queues)[q].ready.heap && e.id != id
    {
      IndexMeans(queues[q].ready, id);
      hide H.Consistent;
      if id in queues[q].ready.index {
        var heap := H.Remove(queues[q].ready, id);
        queues := queues[q := queues[q].(ready := heap)];
      }
    }

    /** Out of the heap, and its timer cancelled. */
    method LeaveIndexes(id: JobId)
      requires Core({}) && inFlight == map[] && id in jobs
      modifies this`jobs, this`queues, this`expired, wheel
      ensures Core({id}) && Detached(Now(), id) && wheel.now == old(wheel.now)
      ensures !jobs[id].job.status.Dead? ==> Loose(Now(), id) && (jobs[id].ready ==> jobs[id].job.status.Pending?)
      ensures jobs == old(jobs)[id := old(jobs)[id].(timer := None)] && expired == old(expired) - {id}
      ensures Moved(old(queues), queues, old(readyNotifications), readyNotifications, jobs[id].job.queue)
      ensures old(OnTime({})) ==> OnTime({id})
      ensures old(jobs)[id].timer.None? ==> Timers() == old(Timers())
    {
      hide H.Consistent, WheelOk, Timers, Indexed, Detached, Punctual, OnlyDiffers;
      var q := jobs[id].job.queue;
      ghost var v := Now();
      WhereItIs(v, id);
      if !jobs[id].job.status.Dead? { NotDead(v, id); }
      TakeFromHeap(q, id);
      var timer := jobs[id].timer;
      if timer.Some? { CancelTimer(timer.value); }
      jobs := jobs[id := jobs[id].(timer := None)];
      expired := expired - {id};
      LeaveBoth(v, id, queues[q].ready, Timers());
      assert Now() == Left(v, id, queues[q].ready, Timers());
      if !jobs[id].job.status.Dead? { DetachedIsLoose(Now(), id); }
      KeysSame(v.jobs, jobs, id);
      if old(OnTime({})) { PunctualOthers(v, Now(), wallNow, wallNow - monoNow, id, q, {}); }
      assert {} + {id} == {id};
    }

    /** set_state(): the counters of the queue follow. */
    method SetStage(id: JobId, status: Status, ready: bool)
      requires Core({id}) && Loose(Now(), id) && id in jobs
      modifies this`jobs, this`queues
      ensures Core({id}) && Loose(Now(), id)
      ensures jobs == old(jobs)[id := old(jobs)[id].(job := old(jobs)[id].job.(status := status), ready := ready)]
      ensures Moved(old(queues), queues, old(readyNotifications), readyNotifications, jobs[id].job.queue)
      ensures old(OnTime({id})) ==> OnTime({id})
    {
      hide H.Consistent, WheelOk, Timers, Indexed, Punctual, StageOf;
      hide Loose, Detached, OnlyDiffers, Add;
      LooseMeans(Now(), id);
      ghost var v := Now();
      var q := jobs[id].job.queue;
      var j := jobs[id].(job := jobs[id].job.(status := status), ready := ready);
      var less := Add(queues[q].counts, StageOf(jobs[id]), -1);
      LooseStage(v, id, j);
      jobs := jobs[id := j];
      queues := queues[q := queues[q].(counts := Add(less, StageOf(j), 1))];
      KeysSame(v.jobs, jobs, id);
      if old(OnTime({id})) { PunctualOthers(v, Now(), wallNow, wallNow - monoNow, id, q, {id}); }
      assert {id} + {id} == {id};
    }

    /** Other fields of a job that is in no heap and has no timer. */
    method SetJob(id: JobId, job: Job)
      requires Core({id}) && Loose(Now(), id) && id in jobs && job.queue == jobs[id].job.queue &&
               job.status == jobs[id].job.status
      modifies this`jobs
      ensures Core({id}) && Loose(Now(), id)
      ensures jobs == old(jobs)[id := old(jobs)[id].(job := job)]
      ensures old(OnTime({id})) ==> OnTime({id})
    {
      hide H.Consistent, WheelOk, Timers, Indexed, Punctual, StageOf;
      hide Loose, Detached, OnlyDiffers;
      LooseMeans(Now(), id);
      LooseDetached(Now(), id);
      ghost var v := Now();
      LooseFields(v, id, jobs[id].(job := job));
      jobs := jobs[id := jobs[id].(job := job)];
      KeysSame(v.jobs, jobs, id);
      if old(OnTime({id})) { PunctualOthers(v, Now(), wallNow, wallNow - monoNow, id, job.queue, {id}); }
      assert {id} + {id} == {id};
    }

    function MonoDeadline(wallDeadline: Time): (deadline: nat)
      reads this
      ensures wallDeadline >= wallNow ==> deadline == wallDeadline - (wallNow - monoNow)
      ensures wallDeadline < wallNow ==> deadline == monoNow
    {
      monoNow + MaxTime(0, wallDeadline - wallNow)
    }

    method NotifyReady(q: Bytes)
      modifies this`readyNotifications
      ensures q in readyNotifications && forall p :: p in readyNotifications <==> p in old(readyNotifications) || p == q
    {
      if q !in readyNotifications { readyNotifications := readyNotifications + [q]; }
    }

    /** Puts a timer into the wheel for a job that has none. */
    method AttachTimerTo(id: JobId, deadline: nat, kind: nat)
      requires Core({id}) && Loose(Now(), id) && id in jobs && !replaying && !jobs[id].ready && NeedsTimer(jobs[id]) &&
               kind == KindOf(jobs[id])
      requires InTime(jobs[id].job, deadline + wallNow - monoNow, wallNow, graceUntil)
      modifies this`jobs, wheel
      ensures Core({}) && wheel.now == old(wheel.now)
      ensures id in jobs && jobs == old(jobs)[id := old(jobs)[id].(timer := jobs[id].timer)]
      ensures jobs[id].timer.Some? && jobs[id].timer.value !in old(Timers()) &&
              Timers() == old(Timers())[jobs[id].timer.value := T.Timer(deadline, kind, id)]
      ensures old(OnTime({id})) ==> OnTime({})
      ensures deadline > monoNow && old(DueLater(wheel.pending, monoNow)) ==> DueLater(wheel.pending, monoNow)
    {
      hide DueLater, H.Consistent, WheelOk, Timers, Indexed, Punctual, StageOf;
      hide Loose, Detached, OnlyDiffers;
      LooseMeans(Now(), id);
      ghost var v := Now();
      RoomForTimer(id);
      var h := NewTimer(deadline, kind, id);
      jobs := jobs[id := jobs[id].(timer := Some(h))];
      AttachTimer(v, id, h, T.Timer(deadline, kind, id));
      KeysSame(v.jobs, jobs, id);
      if old(OnTime({id})) { PunctualAgain(v, Now(), wallNow, wallNow - monoNow, id, v.jobs[id].job.queue); }
    }

    lemma RoomForTimer(id: JobId)
      requires Core({id}) && Loose(Now(), id)
      ensures |wheel.pending| < LIMIT
    {
      TimersFit(Now(), id);
      T.SubsetIsSmaller(wheel.pending.Keys, Now().timers.Keys);
      assert |wheel.pending.Keys| == |wheel.pending| && |Now().timers.Keys| == |Now().timers|;
    }

    /** Waits on a timer, except during replay. */
    method BecomeScheduled(id: JobId)
      requires Core({id}) && Loose(Now(), id) && id in jobs && (replaying || jobs[id].job.runAt > wallNow)
      modifies this`jobs, this`queues, wheel
      ensures Core({}) && wheel.now == old(wheel.now)
      ensures id in jobs && jobs == old(jobs)[id := jobs[id]] &&
              jobs[id].job == old(jobs)[id].job.(status := Pending) && !jobs[id].ready
      ensures Moved(old(queues), queues, old(readyNotifications), readyNotifications, jobs[id].job.queue)
      ensures old(OnTime({id})) ==> OnTime({})
      ensures !replaying && old(DueLater(wheel.pending, monoNow)) ==> DueLater(wheel.pending, monoNow)
      ensures MoreTimers(old(Timers()), Timers())
    {
      hide DueLater, H.Consistent, WheelOk, Timers, Indexed, Punctual;
      SetStage(id, Pending, false);
      if replaying {
        NothingToAttach(Now(), id);
        if old(OnTime({id})) { PunctualNoTimer(Now(), wallNow, wallNow - monoNow, id); }
      } else {
        AttachTimerTo(id, MonoDeadline(jobs[id].job.runAt), DUE_TIMER);
      }
    }

    /** Into the heap of its queue, which is then announced. */
    method BecomeReady(id: JobId)
      requires Core({id}) && Loose(Now(), id) && id in jobs && !replaying && jobs[id].job.runAt <= wallNow
      modifies this`jobs, this`queues, this`readyNotifications
      ensures Core({})
      ensures id in jobs && jobs == old(jobs)[id := jobs[id]] &&
              jobs[id].job == old(jobs)[id].job.(status := Pending) && jobs[id].ready
      ensures Moved(old(queues), queues, old(readyNotifications), readyNotifications, jobs[id].job.queue)
      ensures old(OnTime({id})) ==> OnTime({})
    {
      hide H.Consistent, WheelOk, Timers, Indexed, Punctual, H.SameElements;
      hide Loose, Detached, OnlyDiffers;
      ghost var a := queues;
      SetStage(id, Pending, true);
      var q := jobs[id].job.queue;
      ghost var b, v := queues, Now();
      LooseMeans(v, id);
      HeapTakes(v, id);
      var heap := H.Push(queues[q].ready, EntryOf(id, jobs[id].job));
      queues := queues[q := queues[q].(ready := heap)];
      AttachReady(v, id, heap);
      NotifyReady(q);
      if old(OnTime({id})) { PunctualAgain(v, Now(), wallNow, wallNow - monoNow, id, q); }
    }

    /** A pending job is ready if its time has come, and waits on a timer otherwise;
        during replay it stays scheduled. */
    method EnterPending(id: JobId)
      requires Core({id}) && Loose(Now(), id) && id in jobs
      modifies this`jobs, this`queues, this`readyNotifications, wheel
      ensures Core({}) && wheel.now == old(wheel.now)
      ensures id in jobs && jobs == old(jobs)[id := jobs[id]] && jobs[id].job == old(jobs)[id].job.(status := Pending)
      ensures jobs[id].ready <==> !replaying && jobs[id].job.runAt <= wallNow
      ensures Moved(old(queues), queues, old(readyNotifications), readyNotifications, jobs[id].job.queue)
      ensures old(OnTime({id})) ==> OnTime({})
      ensures !replaying && old(DueLater(wheel.pending, monoNow)) ==> DueLater(wheel.pending, monoNow)
      ensures MoreTimers(old(Timers()), Timers())
    {
      hide DueLater, Indexed, Punctual, Moved, WheelOk, Timers, H.Consistent;
      if replaying || jobs[id].job.runAt > wallNow {
        BecomeScheduled(id);
      } else {
        BecomeReady(id);
      }
    }

    /** The expiry timer of a lease, not before the grace period is over. */
    method ScheduleLeaseTimer(id: JobId, grace: int)
      requires Core({id}) && Loose(Now(), id) && id in jobs && jobs[id].job.status.Leased? && !jobs[id].ready
      requires grace <= 0 || wallNow + grace <= graceUntil
      modifies this`jobs, wheel
      ensures Core({}) && wheel.now == old(wheel.now)
      ensures id in jobs && jobs == old(jobs)[id := old(jobs)[id].(timer := jobs[id].timer)]
      ensures if replaying then Timers() == old(Timers())
              else
                && jobs[id].timer.Some? && SparedAt(jobs, Timers(), wallNow, monoNow, wallNow + grace, id)
                && jobs[id].timer.value !in old(Timers())
                && Timers() == old(Timers())[jobs[id].timer.value := Timers()[jobs[id].timer.value]]
      ensures old(OnTime({id})) ==> OnTime({})
    {
      hide H.Consistent, WheelOk, Timers, Indexed, Punctual;
      if replaying {
        NothingToAttach(Now(), id);
        assert jobs == jobs[id := jobs[id].(timer := jobs[id].timer)];
        if old(OnTime({id})) { PunctualNoTimer(Now(), wallNow, wallNow - monoNow, id); }
        return;
      }
      var deadline := MaxTime(jobs[id].job.leaseExpiresAt, wallNow + grace);
      AttachTimerTo(id, MonoDeadline(deadline), EXPIRY_TIMER);
    }

    // --- apply() ----------------------------------------------------------------------------------------

    /** A pending job becomes a leased one. */
    method MoveToLeased(id: JobId, token: Token, expiresAt: Time)
      requires Core({}) && inFlight == map[] && id in jobs && jobs[id].job.status.Pending?
      modifies this`jobs, this`queues, this`expired, wheel
      ensures Core({}) && wheel.now == old(wheel.now) && expired == old(expired) - {id}
      ensures var job := old(jobs)[id].job;
              && id in jobs && jobs == old(jobs)[id := jobs[id]] && !jobs[id].ready
              && jobs[id].job == job.(status := Status.Leased, attempts := job.attempts + 1, token := token,
                                      leaseExpiresAt := expiresAt)
      ensures Moved(old(queues), queues, old(readyNotifications), readyNotifications, jobs[id].job.queue)
      ensures old(OnTime({})) ==> OnTime({})
    {
      hide Core, OnTime, Detached, Loose, OnlyDiffers, Moved;
      ghost var a := queues;
      LeaveIndexes(id);
      ghost var b := queues;
      SetStage(id, Status.Leased, false);
      MovedThrough(a, b, queues, readyNotifications, readyNotifications, readyNotifications, jobs[id].job.queue);
      var job := jobs[id].job;
      SetJob(id, job.(attempts := job.attempts + 1, token := token, leaseExpiresAt := expiresAt));
      ScheduleLeaseTimer(id, 0);
    }

    /** A leased job gets a new expiry. */
    method Relet(id: JobId, expiresAt: Time)
      requires Core({}) && inFlight == map[] && id in jobs && jobs[id].job.status.Leased?
      modifies this`jobs, this`queues, this`expired, wheel
      ensures Core({}) && wheel.now == old(wheel.now) && expired == old(expired) - {id}
      ensures id in jobs && jobs == old(jobs)[id := jobs[id]] &&
              jobs[id].job == old(jobs)[id].job.(leaseExpiresAt := expiresAt)
      ensures Moved(old(queues), queues, old(readyNotifications), readyNotifications, jobs[id].job.queue)
      ensures old(OnTime({})) ==> OnTime({})
    {
      hide Core, OnTime, Detached, Loose, OnlyDiffers, Moved;
      LeaveIndexes(id);
      SetJob(id, jobs[id].job.(leaseExpiresAt := expiresAt));
      ScheduleLeaseTimer(id, 0);
    }

    /** Into a terminal state, out of every index but the dead-letter queue. */
    method Retire(id: JobId, status: Status, at: Time)
      requires Core({}) && inFlight == map[] && id in jobs && !Terminal(jobs[id].job.status) && Terminal(status)
      modifies this`jobs, this`queues, this`expired, wheel
      ensures Core({}) && wheel.now == old(wheel.now) && expired == old(expired) - {id}
      ensures id in jobs && jobs == old(jobs)[id := jobs[id]] && jobs[id].job == Finished(old(jobs)[id].job, status, at)
      ensures Moved(old(queues), queues, old(readyNotifications), readyNotifications, jobs[id].job.queue)
      ensures old(OnTime({})) ==> OnTime({})
    {
      hide Core, OnTime, Detached, Loose, OnlyDiffers, Moved;
      ghost var a := queues;
      LeaveIndexes(id);
      ghost var b := queues;
      SetStage(id, status, false);
      ghost var c := queues;
      MovedThrough(a, b, c, readyNotifications, readyNotifications, readyNotifications, jobs[id].job.queue);
      SetJob(id, Finished(jobs[id].job, status, at));
      FileAway(id);
      MovedThrough(a, c, queues, readyNotifications, readyNotifications, readyNotifications, jobs[id].job.queue);
    }

    /** finish(): and onto the list of jobs to collect one day. */
    method Finish(id: JobId, status: Status, at: Time)
      requires Core({}) && inFlight == map[] && id in jobs && !Terminal(jobs[id].job.status) && Terminal(status)
      modifies this`jobs, this`queues, this`expired, this`finishedGc, this`deadGc, wheel
      ensures Core({}) && wheel.now == old(wheel.now) && expired == old(expired) - {id}
      ensures id in jobs && jobs == old(jobs)[id := jobs[id]] && jobs[id].job == Finished(old(jobs)[id].job, status, at)
      ensures Moved(old(queues), queues, old(readyNotifications), readyNotifications, jobs[id].job.queue)
      ensures if status.Dead? then finishedGc == old(finishedGc) && deadGc == old(deadGc) + [FinishedRef(id, at)]
              else finishedGc == old(finishedGc) + [FinishedRef(id, at)] && deadGc == old(deadGc)
      ensures old(OnTime({})) ==> OnTime({})
    {
      hide Core, OnTime, Moved;
      Retire(id, status, at);
      if status.Dead? {
        deadGc := deadGc + [FinishedRef(id, at)];
      } else {
        finishedGc := finishedGc + [FinishedRef(id, at)];
      }
    }

    /** A finished job belongs in no index but, if dead, the dead-letter queue. */
    method FileAway(id: JobId)
      requires Core({id}) && Loose(Now(), id) && id in jobs && !jobs[id].ready && Terminal(jobs[id].job.status)
      modifies this`queues
      ensures Core({})
      ensures Moved(old(queues), queues, old(readyNotifications), readyNotifications, jobs[id].job.queue)
      ensures old(OnTime({id})) ==> OnTime({})
    {
      hide H.Consistent, WheelOk, Timers, Indexed, Punctual;
      ghost var v := Now();
      var q := jobs[id].job.queue;
      if jobs[id].job.status.Dead? {
        AttachDead(v, id);
        queues := queues[q := queues[q].(dead := queues[q].dead + {id})];
      } else {
        NothingToAttach(v, id);
      }
      if old(OnTime({id})) { PunctualAgain(v, Now(), wallNow, wallNow - monoNow, id, q); }
    }

    /** The attempt is over and the job waits for its retry. */
    method BackToPending(id: JobId, runAt: Time)
      requires Core({}) && inFlight == map[] && id in jobs && jobs[id].job.status.Leased?
      modifies this`jobs, this`queues, this`expired, this`readyNotifications, wheel
      ensures Core({}) && wheel.now == old(wheel.now) && expired == old(expired) - {id}
      ensures id in jobs && jobs == old(jobs)[id := jobs[id]] &&
              jobs[id].job == old(jobs)[id].job.(status := Pending, token := 0, runAt := runAt)
      ensures jobs[id].ready <==> !replaying && runAt <= wallNow
      ensures Moved(old(queues), queues, old(readyNotifications), readyNotifications, jobs[id].job.queue)
      ensures old(OnTime({})) ==> OnTime({})
    {
      hide Core, OnTime, Detached, Loose, OnlyDiffers, Moved;
      ghost var a := queues;
      LeaveIndexes(id);
      ghost var b := queues;
      SetJob(id, jobs[id].job.(token := 0, runAt := runAt));
      EnterPending(id);
      MovedThrough(a, b, queues, old(readyNotifications), old(readyNotifications), readyNotifications,
                   jobs[id].job.queue);
    }

    /** A dead job leaves the dead-letter queue. */
    method Unbury(id: JobId)
      requires Core({}) && id in jobs && jobs[id].job.status.Dead?
      modifies this`queues
      ensures Core({id}) && Loose(Now(), id) && !jobs[id].ready
      ensures Moved(old(queues), queues, old(readyNotifications), readyNotifications, jobs[id].job.queue)
      ensures old(OnTime({})) ==> OnTime({id})
    {
      hide H.Consistent, WheelOk, Timers, Indexed, Punctual;
      ghost var v := Now();
      DetachDead(v, id);
      var q := jobs[id].job.queue;
      queues := queues[q := queues[q].(dead := queues[q].dead - {id})];
      if old(OnTime({})) { PunctualOthers(v, Now(), wallNow, wallNow - monoNow, id, q, {}); }
      assert {} + {id} == {id};
    }

    /** A dead job starts over. */
    method Revive(id: JobId, runAt: Time)
      requires Core({}) && id in jobs && jobs[id].job.status.Dead?
      modifies this`jobs, this`queues, this`readyNotifications, wheel
      ensures Core({}) && wheel.now == old(wheel.now)
      ensures id in jobs && jobs == old(jobs)[id := jobs[id]]
      ensures jobs[id].job == old(jobs)[id].job.(status := Pending, attempts := 0, finishedAt := 0, runAt := runAt)
      ensures jobs[id].ready <==> !replaying && runAt <= wallNow
      ensures Moved(old(queues), queues, old(readyNotifications), readyNotifications, jobs[id].job.queue)
      ensures old(OnTime({})) ==> OnTime({})
    {
      hide Core, OnTime, Detached, Loose, OnlyDiffers, Moved;
      ghost var a := queues;
      Unbury(id);
      ghost var b := queues;
      SetJob(id, jobs[id].job.(attempts := 0, finishedAt := 0, runAt := runAt));
      EnterPending(id);
      MovedThrough(a, b, queues, old(readyNotifications), old(readyNotifications), readyNotifications,
                   jobs[id].job.queue);
    }

    lemma QueueIsThere(id: JobId)
      requires Core({}) && id in jobs
      ensures jobs[id].job.queue in queues
    {
      assert JobIndexed(Now(), id);
    }

    /** One more for the lifetime totals of a queue. */
    method Tally(q: Bytes, r: Record)
      requires Core({}) && q in queues && Tallies(r)
      modifies this`queues
      ensures Core({}) && Announced(old(queues), queues, readyNotifications)
      ensures DurableTotals(queues) == Jobs.Counted(old(DurableTotals(queues)), q, r)
      ensures old(OnTime({})) ==> OnTime({})
    {
      hide H.Consistent, WheelOk, Timers, Indexed, Tallied;
      ghost var before := queues;
      TotalsOnly(Now(), q, Tallied(queues[q].totals, r), {});
      queues := queues[q := queues[q].(totals := Tallied(queues[q].totals, r))];
      TotalsUpdate(before, q, queues[q]);
      forall p ensures AnnouncedAt(before, queues, readyNotifications, p) { }
      if old(OnTime({})) { PunctualSame(old(Now()), Now(), wallNow, wallNow - monoNow); }
    }

    method ApplyLeased(r: Record) returns (ok: bool)
      requires Valid() && r.JobLeased?
      modifies this`jobs, this`queues, this`expired, this`nextToken, wheel
      ensures Valid() && Outcome(r, ok)
    {
      hide Core, OnTime, Announced, RefsOk, Keyed, Sound, Moved, AllSharp, Apply, Applies, DurableJobs, DurableTotals,
           Oldest;
      ghost var d, before, was := Persistent(), queues, jobs;
      Means(jobs, d, r);
      if r.id !in jobs || !jobs[r.id].job.status.Pending? || r.token != nextToken ||
        jobs[r.id].job.attempts >= jobs[r.id].job.maxAttempts {
        AnnouncedSame(queues, readyNotifications);
        return false;
      }
      MoveToLeased(r.id, r.token, r.leaseExpiresAt);
      nextToken := r.token + 1;
      MovedMeans(before, queues, readyNotifications, readyNotifications, jobs[r.id].job.queue);
      JobsUpdate(was, r.id, jobs[r.id]);
      ApplyKeepsSound(d, r);
      if !replaying {
        StillReferred(was, jobs, nextJobId, finishedGc, deadGc, r.id);
        SharpAgain(was, jobs, wallNow, r.id);
      }
      return true;
    }

    method ApplyExtended(r: Record) returns (ok: bool)
      requires Valid() && r.LeaseExtended?
      modifies this`jobs, this`queues, this`expired, wheel
      ensures Valid() && Outcome(r, ok)
    {
      hide Core, OnTime, Announced, RefsOk, Keyed, Sound, Moved, AllSharp, Apply, Applies, DurableJobs, DurableTotals,
           Oldest;
      ghost var d, before, was := Persistent(), queues, jobs;
      Means(jobs, d, r);
      if r.id !in jobs || !jobs[r.id].job.status.Leased? || jobs[r.id].job.token != r.token {
        AnnouncedSame(queues, readyNotifications);
        return false;
      }
      Relet(r.id, r.leaseExpiresAt);
      MovedMeans(before, queues, readyNotifications, readyNotifications, jobs[r.id].job.queue);
      JobsUpdate(was, r.id, jobs[r.id]);
      ApplyKeepsSound(d, r);
      if !replaying {
        StillReferred(was, jobs, nextJobId, finishedGc, deadGc, r.id);
        SharpAgain(was, jobs, wallNow, r.id);
      }
      return true;
    }

    method ApplySucceeded(r: Record) returns (ok: bool)
      requires Valid() && r.JobSucceeded?
      modifies this`jobs, this`queues, this`expired, this`finishedGc, this`deadGc, wheel
      ensures Valid() && Outcome(r, ok)
    {
      hide Core, OnTime, Announced, RefsOk, Keyed, Sound, Moved, AllSharp, Apply, Applies, DurableJobs, DurableTotals,
           Oldest;
      ghost var d, before, was, refs := Persistent(), queues, jobs, finishedGc;
      Means(jobs, d, r);
      if r.id !in jobs || !jobs[r.id].job.status.Leased? || jobs[r.id].job.token != r.token {
        AnnouncedSame(queues, readyNotifications);
        return false;
      }
      FinishAndTally(r.id, Status.Succeeded, r.at, r);
      JobsUpdate(was, r.id, jobs[r.id]);
      ApplyKeepsSound(d, r);
      if !replaying {
        InRange(was, d, r.id);
        NowReferred(was, jobs, nextJobId, refs, deadGc, finishedGc, deadGc, r.id);
        SharpAgain(was, jobs, wallNow, r.id);
      }
      return true;
    }

    method ApplyCancelled(r: Record) returns (ok: bool)
      requires Valid() && r.JobCancelled?
      modifies this`jobs, this`queues, this`expired, this`finishedGc, this`deadGc, wheel
      ensures Valid() && Outcome(r, ok)
    {
      hide Core, OnTime, Announced, RefsOk, Keyed, Sound, Moved, AllSharp, Apply, Applies, DurableJobs, DurableTotals,
           Oldest;
      ghost var d, before, was, refs := Persistent(), queues, jobs, finishedGc;
      Means(jobs, d, r);
      if r.id !in jobs || Terminal(jobs[r.id].job.status) {
        AnnouncedSame(queues, readyNotifications);
        return false;
      }
      FinishAndTally(r.id, Status.Cancelled, r.at, r);
      JobsUpdate(was, r.id, jobs[r.id]);
      ApplyKeepsSound(d, r);
      if !replaying {
        InRange(was, d, r.id);
        NowReferred(was, jobs, nextJobId, refs, deadGc, finishedGc, deadGc, r.id);
        SharpAgain(was, jobs, wallNow, r.id);
      }
      return true;
    }

    method SetError(id: JobId, error: Bytes)
      requires Core({}) && id in jobs
      modifies this`jobs
      ensures Core({}) && jobs == old(jobs)[id := old(jobs)[id].(job := old(jobs)[id].job.(lastError := error))]
      ensures old(OnTime({})) ==> OnTime({})
    {
      hide H.Consistent, WheelOk, Timers, Indexed;
      ghost var v := Now();
      ErrorOnly(v, id, error);
      jobs := jobs[id := jobs[id].(job := jobs[id].job.(lastError := error))];
      KeysSame(v.jobs, jobs, id);
      if old(OnTime({})) { PunctualError(v, wallNow, wallNow - monoNow, id, error); }
    }

    method ApplyFailed(r: Record) returns (ok: bool)
      requires Valid() && r.AttemptFailed?
      modifies this`jobs, this`queues, this`expired, this`finishedGc, this`deadGc, this`readyNotifications, wheel
      ensures Valid() && Outcome(r, ok)
    {
      hide Core, OnTime, Announced, RefsOk, Keyed, Sound, Moved, AllSharp, Apply, Applies, DurableJobs, DurableTotals,
           Oldest, JobAfter;
      ghost var d, before, was := Persistent(), queues, jobs;
      Means(jobs, d, r);
      if r.id !in jobs || !jobs[r.id].job.status.Leased? || jobs[r.id].job.token != r.token {
        AnnouncedSame(queues, readyNotifications);
        return false;
      }
      if r.dead { FailForGood(r); } else { FailAndRetry(r); }
      JobsUpdate(was, r.id, jobs[r.id]);
      ApplyKeepsSound(d, r);
      if !replaying {
        InRange(was, d, r.id);
        if r.dead {
          NowReferred(was, jobs, nextJobId, finishedGc, old(deadGc), finishedGc, deadGc, r.id);
        } else {
          StillReferred(was, jobs, nextJobId, finishedGc, deadGc, r.id);
        }
        SharpAgain(was, jobs, wallNow, r.id);
      }
      return true;
    }

    method FailForGood(r: Record)
      requires Core({}) && inFlight == map[] && r.AttemptFailed? && r.dead && r.id in jobs &&
               jobs[r.id].job.status.Leased?
      modifies this`jobs, this`queues, this`expired, this`finishedGc, this`deadGc, wheel
      ensures Core({}) && wheel.now == old(wheel.now) && expired == old(expired) - {r.id}
      ensures r.id in jobs && jobs == old(jobs)[r.id := jobs[r.id]] &&
              jobs[r.id].job == JobAfter(old(jobs)[r.id].job, r) && jobs[r.id].job.status.Dead?
      ensures Announced(old(queues), queues, readyNotifications)
      ensures DurableTotals(queues) == Jobs.Counted(old(DurableTotals(queues)), old(jobs)[r.id].job.queue, r)
      ensures finishedGc == old(finishedGc) && deadGc == old(deadGc) + [FinishedRef(r.id, jobs[r.id].job.finishedAt)]
      ensures old(Chronological()) && r.at == wallNow ==> Chronological()
      ensures old(OnTime({})) ==> OnTime({})
    {
      hide Core, OnTime, Announced, DurableTotals, Jobs.Counted, Oldest;
      SetError(r.id, r.error);
      FinishAndTally(r.id, Status.Dead, r.at, r);
    }

    method FailAndRetry(r: Record)
      requires Core({}) && inFlight == map[] && r.AttemptFailed? && !r.dead && r.id in jobs &&
               jobs[r.id].job.status.Leased?
      modifies this`jobs, this`queues, this`expired, this`readyNotifications, wheel
      ensures Core({}) && wheel.now == old(wheel.now) && expired == old(expired) - {r.id}
      ensures r.id in jobs && jobs == old(jobs)[r.id := jobs[r.id]] &&
              jobs[r.id].job == JobAfter(old(jobs)[r.id].job, r) && jobs[r.id].job.status.Pending?
      ensures jobs[r.id].ready <==> !replaying && jobs[r.id].job.runAt <= wallNow
      ensures Announced(old(queues), queues, readyNotifications) &&
              forall q | q in old(readyNotifications) :: q in readyNotifications
      ensures DurableTotals(queues) == Jobs.Counted(old(DurableTotals(queues)), old(jobs)[r.id].job.queue, r)
      ensures old(OnTime({})) ==> OnTime({})
    {
      hide Core, OnTime, Announced, DurableTotals, Moved, Jobs.Counted;
      ghost var a, notes := queues, readyNotifications;
      SetError(r.id, r.error);
      QueueIsThere(r.id);
      var q := jobs[r.id].job.queue;
      Tally(q, r);
      ghost var b := queues;
      BackToPending(r.id, r.retryAt);
      MovedMeans(b, queues, notes, readyNotifications, q);
      AnnouncedThrough(a, b, queues, notes, readyNotifications);
    }

    method ApplyRetried(r: Record) returns (ok: bool)
      requires Valid() && r.DeadJobRetried?
      modifies this`jobs, this`queues, this`expired, this`readyNotifications, wheel
      ensures Valid() && Outcome(r, ok)
    {
      hide H.Consistent, WheelOk, Timers, Indexed, Punctual, Announced, RefsOk, Keyed, Sound, Moved, AllSharp, Apply,
           Applies, DurableJobs, DurableTotals, Oldest;
      ghost var d, before, was, notes := Persistent(), queues, jobs, readyNotifications;
      Means(jobs, d, r);
      if r.id !in jobs || !jobs[r.id].job.status.Dead? {
        AnnouncedSame(queues, readyNotifications);
        return false;
      }
      DeadIsNotExpired(Now(), r.id);
      Revive(r.id, r.runAt);
      assert expired == expired - {r.id};
      MovedMeans(before, queues, notes, readyNotifications, jobs[r.id].job.queue);
      JobsUpdate(was, r.id, jobs[r.id]);
      ApplyKeepsSound(d, r);
      if !replaying {
        StillReferred(was, jobs, nextJobId, finishedGc, deadGc, r.id);
        SharpAgain(was, jobs, wallNow, r.id);
      }
      return true;
    }

    /** erase_job() */
    method EraseJob(id: JobId)
      requires Core({}) && inFlight == map[] && id in jobs
      modifies this`jobs, this`queues, this`expired, wheel
      ensures Core({}) && wheel.now == old(wheel.now) && expired == old(expired) - {id} && jobs == old(jobs) - {id}
      ensures Moved(old(queues), queues, old(readyNotifications), readyNotifications, old(jobs)[id].job.queue)
      ensures old(OnTime({})) ==> OnTime({})
      ensures old(jobs)[id].timer.None? ==> Timers() == old(Timers())
    {
      hide H.Consistent, WheelOk, Timers, Indexed, Punctual, Detached, Loose, OnlyDiffers, Moved;
      ghost var a := queues;
      LeaveIndexes(id);
      ghost var b := queues;
      var q := jobs[id].job.queue;
      LeaveDeadLetters(id);
      MovedThrough(a, b, queues, readyNotifications, readyNotifications, readyNotifications, q);
      b := queues;
      Drop(id);
      MovedThrough(a, b, queues, readyNotifications, readyNotifications, readyNotifications, q);
    }

    method LeaveDeadLetters(id: JobId)
      requires Core({id}) && Detached(Now(), id) && id in jobs
      modifies this`queues
      ensures Core({id}) && Loose(Now(), id)
      ensures Moved(old(queues), queues, old(readyNotifications), readyNotifications, old(jobs)[id].job.queue)
      ensures old(OnTime({id})) ==> OnTime({id})
    {
      hide H.Consistent, WheelOk, Timers, Indexed, Punctual, OnlyDiffers;
      ghost var v := Now();
      var q := jobs[id].job.queue;
      if jobs[id].job.status.Dead? {
        LeaveDead(v, id);
        queues := queues[q := queues[q].(dead := queues[q].dead - {id})];
        if old(OnTime({id})) { PunctualOthers(v, Now(), wallNow, wallNow - monoNow, id, q, {id}); }
        assert {id} + {id} == {id};
      } else {
        NotInDead(v, id);
      }
    }

    /** The job is in no index any more and goes. */
    method Drop(id: JobId)
      requires Core({id}) && Loose(Now(), id) && id in jobs
      modifies this`jobs, this`queues
      ensures Core({}) && jobs == old(jobs) - {id}
      ensures Moved(old(queues), queues, old(readyNotifications), readyNotifications, old(jobs)[id].job.queue)
      ensures old(OnTime({id})) ==> OnTime({})
    {
      hide H.Consistent, WheelOk, Timers, Indexed, Punctual, StageOf, Add, OnlyDiffers, Loose, Detached;
      ghost var v := Now();
      LooseMeans(v, id);
      var q := jobs[id].job.queue;
      DropJob(v, id);
      queues := queues[q := queues[q].(counts := Add(queues[q].counts, StageOf(jobs[id]), -1))];
      jobs := jobs - {id};
      FewerJobs(v.jobs, id);
      if old(OnTime({id})) { PunctualAgain(v, Now(), wallNow, wallNow - monoNow, id, q); }
    }

    method ApplyPurged(r: Record) returns (ok: bool)
      requires Valid() && r.JobsPurged?
      modifies this`jobs, this`queues, this`expired, wheel
      ensures Valid() && Outcome(r, ok)
    {
      hide Core, OnTime, Announced, RefsOk, Keyed, Sound, Moved, AllSharp, Apply, Applies, DurableJobs, DurableTotals,
           Oldest;
      ghost var d, before, was := Persistent(), queues, jobs;
      MeansPurged(jobs, d, r);
      AnnouncedSame(queues, readyNotifications);
      for i := 0 to |r.ids|
        invariant unchanged(this) && unchanged(wheel)
        invariant forall k | 0 <= k < i :: r.ids[k] in jobs && Terminal(jobs[r.ids[k]].job.status)
      {
        if r.ids[i] !in jobs || !Terminal(jobs[r.ids[i]].job.status) {
          assert r.ids[i] in r.ids;
          return false;
        }
      }
      assert Applies(d, r);
      EraseAll(r.ids);
      JobsLess(was, IdSet(r.ids));
      ApplyKeepsSound(d, r);
      LessReferred(was, jobs, nextJobId, finishedGc, deadGc);
      return true;
    }

    /** erase_job() for an id that may have been erased already. */
    method EraseIfThere(id: JobId)
      requires Core({}) && inFlight == map[] && (id in jobs ==> Terminal(jobs[id].job.status))
      modifies this`jobs, this`queues, this`expired, wheel
      ensures Core({}) && wheel.now == old(wheel.now) && expired == old(expired) && jobs == old(jobs) - {id}
      ensures Announced(old(queues), queues, readyNotifications) && DurableTotals(queues) == old(DurableTotals(queues))
      ensures old(OnTime({})) ==> OnTime({})
      ensures Timers() == old(Timers())
    {
      hide H.Consistent, WheelOk, Timers, Indexed, Punctual, Announced, DurableTotals, Moved;
      ghost var before := queues;
      AnnouncedSame(queues, readyNotifications);
      if id in jobs {
        TerminalIsNotExpired(Now(), id);
        TerminalHasNoTimer(Now(), id);
        ghost var q := jobs[id].job.queue;
        EraseJob(id);
        MovedMeans(before, queues, readyNotifications, readyNotifications, q);
      }
    }

    /** The second loop of a purge, which tolerates a duplicate id. */
    method EraseAll(ids: seq<JobId>)
      requires Core({}) && inFlight == map[] && forall id | id in ids :: id in jobs && Terminal(jobs[id].job.status)
      modifies this`jobs, this`queues, this`expired, wheel
      ensures Core({}) && wheel.now == old(wheel.now) && expired == old(expired) && jobs == old(jobs) - IdSet(ids)
      ensures Announced(old(queues), queues, readyNotifications) && DurableTotals(queues) == old(DurableTotals(queues))
      ensures old(OnTime({})) ==> OnTime({})
    {
      hide Core, OnTime, Announced, DurableTotals;
      ghost var before, notes := queues, readyNotifications;
      AnnouncedSame(queues, notes);
      assert IdSet(ids[..0]) == {};
      for i := 0 to |ids|
        invariant Core({}) && wheel.now == old(wheel.now) && expired == old(expired) &&
                  jobs == old(jobs) - IdSet(ids[..i])
        invariant Announced(before, queues, notes) && DurableTotals(queues) == old(DurableTotals(queues))
        invariant old(OnTime({})) ==> OnTime({})
      {
        ghost var b := queues;
        assert ids[i] in ids;
        OneMoreId(old(jobs), ids, i);
        EraseIfThere(ids[i]);
        AnnouncedThrough(before, b, queues, notes, notes);
      }
      assert ids[..|ids|] == ids;
    }

    // --- JobEnqueued ------------------------------------------------------------------------------------

    method GetOrCreateQueue(q: Bytes)
      requires Core({})
      modifies this`queues
      ensures Core({}) && q in queues && Announced(old(queues), queues, readyNotifications)
      ensures forall r: Record | r.JobEnqueued? ::
              Jobs.Counted(DurableTotals(queues), q, r) == Jobs.Counted(old(DurableTotals(queues)), q, r)
      ensures old(OnTime({})) ==> OnTime({})
    {
      hide H.Consistent, WheelOk, Timers, Indexed, Punctual, Announced;
      ghost var before := queues;
      AnnouncedSame(queues, readyNotifications);
      if q !in queues {
        AddQueue(Now(), q);
        queues := queues[q := NEW_QUEUE];
        EmptyQueue(before, q, readyNotifications);
        if old(OnTime({})) { PunctualSame(old(Now()), Now(), wallNow, wallNow - monoNow); }
      }
    }

    /** A new job, not yet in any index. */
    method Admit(id: JobId, job: Job)
      requires Core({}) && id !in jobs && |jobs| < LIMIT && job.queue in queues
      modifies this`jobs, this`queues
      ensures Core({id}) && Loose(Now(), id) && jobs == old(jobs)[id := LiveJob(job, false, None)]
      ensures Moved(old(queues), queues, old(readyNotifications), readyNotifications, job.queue)
      ensures old(OnTime({})) ==> OnTime({id})
    {
      hide H.Consistent, WheelOk, Timers, Indexed, Punctual, Loose, Detached, OnlyDiffers, Add, StageOf;
      ghost var v := Now();
      var j := LiveJob(job, false, None);
      AddJob(v, id, j);
      jobs := jobs[id := j];
      queues := queues[job.queue := queues[job.queue].(counts := Add(queues[job.queue].counts, StageOf(j), 1))];
      assert jobs.Keys == v.jobs.Keys + {id};
      if old(OnTime({})) { PunctualOthers(v, Now(), wallNow, wallNow - monoNow, id, job.queue, {}); }
      assert {} + {id} == {id};
    }

    method UpsertIdem(e: IdemEntry)
      requires Keyed(idemOrder, idemIndex)
      modifies this`idemOrder, this`idemIndex
      ensures Keyed(idemOrder, idemIndex) && idemOrder == Without(old(idemOrder), e.key) + [e]
    {
      KeyedUpsert(idemOrder, idemIndex, e);
      if e.key in idemIndex {
        idemIndex := idemIndex - {e.key};
        idemOrder := Without(idemOrder, e.key);
      } else {
        KeyAbsent(idemOrder, idemIndex, e.key);
      }
      idemOrder := idemOrder + [e];
      idemIndex := idemIndex[e.key := e];
      assert idemIndex == old(idemIndex)[e.key := e];
    }

    method Remember(r: Record)
      requires Keyed(idemOrder, idemIndex) && r.JobEnqueued?
      modifies this`idemOrder, this`idemIndex
      ensures Keyed(idemOrder, idemIndex) && idemOrder == Upserted(old(idemOrder), r)
    {
      hide Keyed, Without;
      if r.idemKey != [] { UpsertIdem(IdemEntry(r.idemKey, r.id, r.idemExpiresAt)); }
    }

    /** The job and its place among the indexes. */
    method Enroll(r: Record)
      requires Core({}) && r.JobEnqueued? && r.id !in jobs && |jobs| < LIMIT && r.queue != []
      modifies this`jobs, this`queues, this`readyNotifications, wheel
      ensures Core({}) && wheel.now == old(wheel.now)
      ensures r.id in jobs && jobs == old(jobs)[r.id := jobs[r.id]] && jobs[r.id].job == NewJob(r)
      ensures jobs[r.id].ready <==> !replaying && r.runAt <= wallNow
      ensures Announced(old(queues), queues, readyNotifications) &&
              forall q | q in old(readyNotifications) :: q in readyNotifications
      ensures DurableTotals(queues) == Jobs.Counted(old(DurableTotals(queues)), r.queue, r)
      ensures old(OnTime({})) ==> OnTime({})
    {
      hide Core, OnTime, Loose, Detached, Announced, Moved, DurableTotals, Jobs.Counted, DueLater, T.TimingWheel.Valid,
           AllSharp;
      ghost var a, notes := queues, readyNotifications;
      GetOrCreateQueue(r.queue);
      ghost var b := queues;
      Admit(r.id, NewJob(r));
      MovedMeans(b, queues, notes, notes, r.queue);
      AnnouncedThrough(a, b, queues, notes, notes);
      ghost var c := queues;
      EnterPending(r.id);
      assert jobs == old(jobs)[r.id := jobs[r.id]];
      MovedMeans(c, queues, notes, readyNotifications, r.queue);
      AnnouncedThrough(a, c, queues, notes, readyNotifications);
      ghost var d := queues;
      QueueIsThere(r.id);
      Tally(r.queue, r);
      AnnouncedThrough(a, d, queues, readyNotifications, readyNotifications);
    }

    method ApplyEnqueued(r: Record) returns (ok: bool)
      requires Valid() && r.JobEnqueued? && |jobs| < LIMIT
      modifies this`jobs, this`queues, this`nextJobId, this`idemOrder, this`idemIndex, this`readyNotifications, wheel
      ensures Valid() && Outcome(r, ok)
    {
      hide Core, Announced, RefsOk, Keyed, Sound, AllSharp, Apply, Applies, DurableJobs, DurableTotals, Oldest;
      MeansEnqueued(jobs, Persistent(), r);
      if r.id != nextJobId || r.queue == [] || r.maxAttempts == 0 {
        AnnouncedSame(queues, readyNotifications);
        return false;
      }
      Enqueue(r);
      return true;
    }

    method Enqueue(r: Record)
      requires Valid() && r.JobEnqueued? && |jobs| < LIMIT && Applies(Persistent(), r)
      modifies this`jobs, this`queues, this`nextJobId, this`idemOrder, this`idemIndex, this`readyNotifications, wheel
      ensures Valid() && Outcome(r, true)
    {
      hide Core, OnTime, Announced, RefsOk, Keyed, Sound, AllSharp, Apply, Applies, Oldest, DurableJobs, DurableTotals,
           Jobs.Counted, Upserted, NewJob;
      ghost var d, was := Persistent(), jobs;
      MeansEnqueued(jobs, d, r);
      Register(r);
      ApplyKeepsSound(d, r);
      if !replaying {
        NewReferred(was, jobs, r.id, finishedGc, deadGc);
        SharpAgain(was, jobs, wallNow, r.id);
      }
    }

    /** All that JobEnqueued does, once it has been found to fit. */
    method Register(r: Record)
      requires Core({}) && Keyed(idemOrder, idemIndex) && r.JobEnqueued? && r.id !in jobs && |jobs| < LIMIT &&
               r.queue != []
      modifies this`jobs, this`queues, this`nextJobId, this`idemOrder, this`idemIndex, this`readyNotifications, wheel
      ensures Core({}) && Keyed(idemOrder, idemIndex) && wheel.now == old(wheel.now)
      ensures r.id in jobs && jobs == old(jobs)[r.id := jobs[r.id]] && jobs[r.id].job.status.Pending? &&
              (replaying || SharpAt(jobs, wallNow, r.id))
      ensures Announced(old(queues), queues, readyNotifications) &&
              forall q | q in old(readyNotifications) :: q in readyNotifications
      ensures var d := old(Persistent());
              Persistent() == Durable(d.jobs[r.id := NewJob(r)], Jobs.Counted(d.totals, r.queue, r), r.id + 1,
                                      d.nextToken, Upserted(d.idem, r))
      ensures old(OnTime({})) ==> OnTime({})
    {
      hide Core, OnTime, Announced, Keyed, DurableJobs, DurableTotals, Jobs.Counted, Upserted;
      ghost var was := jobs;
      Enroll(r);
      Remember(r);
      nextJobId := r.id + 1;
      JobsUpdate(was, r.id, jobs[r.id]);
    }

    /** The single mutation path, live and during recovery. */
    method ApplyRecord(r: Record) returns (ok: bool)
      requires Valid() && (r.JobEnqueued? ==> |jobs| < LIMIT)
      modifies this`jobs, this`queues, this`expired, this`nextJobId, this`nextToken, this`idemOrder, this`idemIndex,
               this`finishedGc, this`deadGc, this`readyNotifications, wheel
      ensures Valid() && Outcome(r, ok)
    {
      hide Valid, Outcome;
      match r
      case JobEnqueued(_, _, _, _, _, _, _, _, _, _, _) => ok := ApplyEnqueued(r);
      case JobLeased(_, _, _, _) => ok := ApplyLeased(r);
      case LeaseExtended(_, _, _, _) => ok := ApplyExtended(r);
      case JobSucceeded(_, _, _) => ok := ApplySucceeded(r);
      case AttemptFailed(_, _, _, _, _, _, _) => ok := ApplyFailed(r);
      case JobCancelled(_, _) => ok := ApplyCancelled(r);
      case DeadJobRetried(_, _, _) => ok := ApplyRetried(r);
      case JobsPurged(_) => ok := ApplyPurged(r);
    }

    method FinishAndTally(id: JobId, status: Status, at: Time, r: Record)
      requires Core({}) && inFlight == map[] && id in jobs && !Terminal(jobs[id].job.status) && Terminal(status) &&
               Tallies(r)
      modifies this`jobs, this`queues, this`expired, this`finishedGc, this`deadGc, wheel
      ensures Core({}) && wheel.now == old(wheel.now) && expired == old(expired) - {id}
      ensures id in jobs && jobs == old(jobs)[id := jobs[id]] && jobs[id].job == Finished(old(jobs)[id].job, status, at)
      ensures Announced(old(queues), queues, readyNotifications)
      ensures DurableTotals(queues) == Jobs.Counted(old(DurableTotals(queues)), jobs[id].job.queue, r)
      ensures if status.Dead? then finishedGc == old(finishedGc) && deadGc == old(deadGc) + [FinishedRef(id, at)]
              else finishedGc == old(finishedGc) + [FinishedRef(id, at)] && deadGc == old(deadGc)
      ensures old(Chronological()) && at == wallNow ==> Chronological()
      ensures old(OnTime({})) ==> OnTime({})
    {
      hide Core, OnTime, Moved, Announced, DurableTotals, Jobs.Counted;
      ghost var a, f, g := queues, finishedGc, deadGc;
      Finish(id, status, at);
      ghost var b := queues;
      MovedMeans(a, b, readyNotifications, readyNotifications, jobs[id].job.queue);
      QueueIsThere(id);
      Tally(jobs[id].job.queue, r);
      AnnouncedThrough(a, b, queues, readyNotifications, readyNotifications);
    }

    /** Queues that gained a ready job since the last call. */
    method TakeReadyNotifications() returns (names: seq<Bytes>)
      modifies this`readyNotifications
      ensures names == old(readyNotifications) && readyNotifications == []
    {
      names := readyNotifications;
      readyNotifications := [];
    }

    // --- time ---------------------------------------------------------------------------------------------

    method SetNow(wall: Time, mono: nat)
      modifies this`wallNow, this`monoNow
      ensures wallNow == wall && monoNow == mono && (old(Valid()) ==> Valid()) && Persistent() == old(Persistent())
      ensures old(Chronological()) && old(wallNow) <= wall ==> Chronological()
      ensures old(OnTime({})) && old(wallNow) <= wall && wall - mono == old(wallNow) - old(monoNow) ==> OnTime({})
    {
      hide Timers;
      ghost var v, before, offset := Now(), wallNow, wallNow - monoNow;
      wallNow, monoNow := wall, mono;
      if Punctual(v, before, offset, {}) && before <= wall { PunctualLater(v, before, wall, offset); }
    }

    /** The job of a fired timer no longer has one. */
    method TakeTimer(h: T.TimerHandle, id: JobId)
      requires Core({}) && h in inFlight && inFlight[h].id == id
      modifies this`jobs, this`inFlight
      ensures id in old(jobs) && old(jobs)[id].timer == Some(h) && NeedsTimer(old(jobs)[id]) && !old(jobs)[id].ready
      ensures old(inFlight)[h].kind == KindOf(old(jobs)[id])
      ensures jobs == old(jobs)[id := old(jobs)[id].(timer := None)] && inFlight == old(inFlight) - {h}
      ensures Core({id}) && Loose(Now(), id)
      ensures old(OnTime({})) ==> OnTime({id})
    {
      hide H.Consistent, Indexed, Detached, Loose, Punctual, OnlyDiffers;
      ghost var v := Now();
      assert h in v.timers && v.timers[h] == inFlight[h];
      FiredTimer(v, h);
      WhereItIs(v, id);
      NotDead(v, id);
      ghost var q, was, flying := jobs[id].job.queue, jobs, inFlight;
      StillFlying(h);
      jobs := jobs[id := jobs[id].(timer := None)];
      inFlight := inFlight - {h};
      MergeMinus(wheel.pending, flying, h);
      LeaveBoth(v, id, queues[q].ready, Timers());
      assert queues == queues[q := queues[q].(ready := queues[q].ready)];
      assert Now() == Left(v, id, queues[q].ready, Timers());
      DetachedIsLoose(Now(), id);
      KeysSame(was, jobs, id);
      if old(OnTime({})) { PunctualOthers(v, Now(), wallNow, wallNow - monoNow, id, q, {}); }
      assert {} + {id} == {id};
    }

    /** What one fired timer means for its job: it is ready, or its lease has run out, or
        the wall clock says to wait some more. */
    method HandleEvent(e: T.TimerEvent) returns (lease: bool)
      requires Core({}) && !replaying && e.handle in inFlight && inFlight[e.handle] == e.timer
      modifies this`jobs, this`queues, this`expired, this`inFlight, this`readyNotifications, wheel
      ensures Core({}) && wheel.now == old(wheel.now) && inFlight == old(inFlight) - {e.handle}
      ensures var id := e.timer.id;
              && id in old(jobs) && id in jobs && jobs == old(jobs)[id := jobs[id]] && jobs[id].job == old(jobs)[id].job
              && expired == (if lease then old(expired) + {id} else old(expired))
              && (lease <==> jobs[id].job.status.Leased? && jobs[id].job.leaseExpiresAt <= wallNow)
              && (jobs[id].ready <==> jobs[id].job.status.Pending? && jobs[id].job.runAt <= wallNow)
              && Moved(old(queues), queues, old(readyNotifications), readyNotifications, jobs[id].job.queue)
      ensures var id := e.timer.id;
              var live := jobs[id];
              !lease && !live.ready ==>
                && live.timer.Some? && live.timer.value in Timers()
                && Timers()[live.timer.value].deadline ==
                   MonoDeadline(if live.job.status.Pending? then live.job.runAt else live.job.leaseExpiresAt)
      ensures old(OnTime({})) ==> OnTime({})
      ensures old(DueLater(wheel.pending, monoNow)) ==> DueLater(wheel.pending, monoNow)
    {
      hide Core, OnTime, Loose, DueLater, Moved;
      var id := e.timer.id;
      QueueOfFired(e.handle, id);
      if id !in jobs || jobs[id].timer != Some(e.handle) {
        assert false;
      } else {
        MovedNot(queues, readyNotifications, jobs[id].job.queue);
        TakeTimer(e.handle, id);
        lease := false;
        if e.timer.kind == DUE_TIMER && jobs[id].job.status.Pending? {
          if jobs[id].job.runAt > wallNow {
            AttachTimerTo(id, MonoDeadline(jobs[id].job.runAt), DUE_TIMER);
          } else {
            EnterPending(id);
          }
        } else if e.timer.kind == EXPIRY_TIMER && jobs[id].job.status.Leased? {
          if jobs[id].job.leaseExpiresAt > wallNow {
            AttachTimerTo(id, MonoDeadline(jobs[id].job.leaseExpiresAt), EXPIRY_TIMER);
          } else {
            lease := true;
            Expire(id);
          }
        } else {
          assert false;
        }
      }
    }

    ghost method Expire(id: JobId)
      requires Core({id}) && Loose(Now(), id) && id in jobs && jobs[id].job.status.Leased? && !jobs[id].ready
      modifies this`expired
      ensures Core({}) && expired == old(expired) + {id}
      ensures old(OnTime({id})) ==> OnTime({})
    {
      hide H.Consistent, WheelOk, Timers, Indexed, Punctual;
      ghost var v := Now();
      AwaitEnd(v, id);
      expired := expired + {id};
      if old(OnTime({id})) {
        PunctualNoTimer(v, wallNow, wallNow - monoNow, id); PunctualSame(v, Now(), wallNow, wallNow - monoNow);
      }
    }

    lemma QueueOfFired(h: T.TimerHandle, id: JobId)
      requires Core({}) && h in inFlight && inFlight[h].id == id
      ensures id in jobs && jobs[id].timer == Some(h) && jobs[id].job.queue in queues
    {
      assert h in Now().timers;
      FiredTimer(Now(), h);
    }

    /** Lets the wheel catch up: what fires is in flight, so no job has lost its timer yet. */
    method CatchUp() returns (fired: seq<T.TimerEvent>)
      requires Core({}) && inFlight == map[]
      modifies this`inFlight, wheel
      ensures Core({}) && Now() == old(Now()) && Flying(inFlight, fired, 0)
      ensures forall j, k | 0 <= j < k < |fired| :: fired[j].handle != fired[k].handle
      ensures DueLater(wheel.pending, monoNow)
      ensures forall k | 0 <= k < |fired| :: TimerCame(jobs, Timers(), wheel.now, fired[k].timer.id)
      ensures old(OnTime({})) ==> OnTime({})
    {
      hide Indexed, T.TimingWheel.Valid, T.TimingWheel.Retired, Punctual, T.Accounted, T.InOrder, T.AllBy, Flying,
           TimerCame;
      ghost var before, v := wheel.pending, Now();
      assert Timers() == before;
      fired := wheel.Advance(monoNow);
      FiredHaveCome(v, before, wheel.pending, fired, wheel.now);
      InFlightIsFired(before, wheel.pending, fired);
      inFlight := map h | h in before && h !in wheel.pending :: before[h];
    }

    /** Fires due timers. Jobs whose time has come are promoted here; leases that have run
        out are reported, because ending one takes a logged record. */
    method AdvanceTimers() returns (leases: seq<JobId>)
      requires Valid() && !replaying && expired == {}
      modifies this`jobs, this`queues, this`expired, this`inFlight, this`readyNotifications, wheel
      ensures Valid() && Persistent() == old(Persistent())
      ensures forall id :: id in expired <==> id in leases
      ensures forall id | id in leases ::
              id in jobs && jobs[id].job.status.Leased? && jobs[id].job.leaseExpiresAt <= wallNow
      ensures forall id | id in leases :: TimerCame(old(jobs), old(Timers()), wheel.now, id)
      ensures Announced(old(queues), queues, readyNotifications) &&
              forall q | q in old(readyNotifications) :: q in readyNotifications
      ensures old(OnTime({})) ==> OnTime({}) && Sharp() && NoneOverdue(jobs, expired, wallNow, graceUntil)
    {
      hide Core, OnTime, Announced, DueLater, Moved, DurableTotals, DurableJobs, Flying, Sound, Keyed, RefsOk, AllSharp,
           NoneOverdue, TimerCame, Timers;
      ghost var before, was, notes := queues, jobs, readyNotifications;
      AnnouncedSame(queues, readyNotifications);
      var fired := CatchUp();
      ghost var timers, now := Timers(), wheel.now;
      leases := [];
      SameDurable(was, jobs, nextJobId, finishedGc, deadGc);
      for k := 0 to |fired|
        invariant Core({}) && Flying(inFlight, fired, k) && DueLater(wheel.pending, monoNow)
        invariant SameJobs(was, jobs) && DurableTotals(queues) == old(DurableTotals(queues))
        invariant forall id :: id in expired <==> id in leases
        invariant forall id | id in leases ::
                  id in was && was[id].job.status.Leased? && was[id].job.leaseExpiresAt <= wallNow
        invariant wheel.now == now && forall id | id in leases :: TimerCame(was, timers, now, id)
        invariant Announced(before, queues, readyNotifications) && forall q | q in notes :: q in readyNotifications
        invariant old(OnTime({})) ==> OnTime({})
      {
        ghost var b, n := queues, readyNotifications;
        FlyingNext(inFlight, fired, k);
        var lease := HandleEvent(fired[k]);
        MovedMeans(b, queues, n, readyNotifications, jobs[fired[k].timer.id].job.queue);
        AnnouncedThrough(before, b, queues, n, readyNotifications);
        if lease { leases := leases + [fired[k].timer.id]; }
      }
      FlyingEnds(inFlight, fired);
      SameDurable(was, jobs, nextJobId, finishedGc, deadGc);
      if old(OnTime({})) { SharpNow(); }
    }

    /** With every due timer still to come, what is scheduled is not due. */
    lemma SharpNow()
      requires Core({}) && inFlight == map[] && !replaying && OnTime({}) && DueLater(wheel.pending, monoNow)
      ensures Sharp() && NoneOverdue(jobs, expired, wallNow, graceUntil)
    {
      forall id ensures SharpAt(jobs, wallNow, id) && (id !in expired ==> NotOverdue(jobs, wallNow, graceUntil, id)) {
        assert JobIndexed(Now(), id) && PunctualAt(Now(), wallNow, wallNow - monoNow, id);
      }
    }

    lemma StillFlying(h: T.TimerHandle)
      requires WheelOk() && h in inFlight
      ensures h !in wheel.pending
    {
      wheel.RetiredIsGone(h);
    }

    lemma NoneLater()
      requires Valid() && !replaying
      ensures Chronological() ==> NoneFinishedAfter(jobs, wallNow)
    {
      if Chronological() {
        forall id | id in jobs && Terminal(jobs[id].job.status) ensures jobs[id].job.finishedAt <= wallNow {
          assert HasRef(jobs, finishedGc, deadGc, id);
        }
      }
    }

    lemma FitsIn()
      requires Valid()
      ensures |jobs| <= LIMIT
    {
    }

    lemma ExpiredIsLeased(id: JobId)
      requires Valid()
      ensures id in expired ==> id in jobs && jobs[id].job.status.Leased?
    {
      assert JobIndexed(Now(), id);
    }

    // --- replay and derived state -----------------------------------------------------------------------------

    method BeginReplay()
      requires Valid() && jobs == map[]
      modifies this`replaying
      ensures Valid() && replaying && Persistent() == old(Persistent())
    {
      replaying := true;
      forall h ensures TimerOwned(Now(), h) { assert TimerOwned(old(Now()), h); }
      forall q ensures HeapOk(Now(), q) { assert HeapOk(old(Now()), q); }
      forall q ensures DeadOk(Now(), q) { assert DeadOk(old(Now()), q); }
      forall q ensures CountsOk(Now(), q) { assert CountsOk(old(Now()), q); }
    }

    /** Counters, queues and keys of an image that is being read, in replay mode. */
    constructor Opened(keep: Retention, d: Durable)
      requires KeysApart(d.idem)
      ensures Core({}) && replaying && jobs == map[] && inFlight == map[] && this.keep == keep && fresh(wheel)
      ensures queues.Keys == d.totals.Keys && DurableTotals(queues) == d.totals
      ensures nextJobId == d.nextJobId && nextToken == d.nextToken && idemOrder == d.idem && Keyed(idemOrder, idemIndex)
    {
      this.keep := keep;
      wallNow, monoNow, replaying := 0, 0, true;
      jobs, nextJobId, nextToken, idemOrder := map[], d.nextJobId, d.nextToken, d.idem;
      queues, idemIndex := QueuesWith(d.totals), KeyIndex(d.idem);
      wheel := new T.TimingWheel(0);
      finishedGc, deadGc, readyNotifications, expired, inFlight, graceUntil := [], [], [], {}, map[], 0;
      new;
      hide Core, OnTime, Sound, KeysApart, Keyed, DurableTotals, RefsOk, Announced, AllSharp, T.TimingWheel.Valid,
           QueuesWith, KeyIndex;
      EmptyIndexes();
    }

    /** The jobs of the image complete its state. */
    method Fill(d: Durable)
      requires Core({}) && replaying && jobs == map[] && inFlight == map[] && Sound(d) && |d.jobs| <= LIMIT
      requires queues.Keys == d.totals.Keys && DurableTotals(queues) == d.totals
      requires nextJobId == d.nextJobId && nextToken == d.nextToken && idemOrder == d.idem &&
               Keyed(idemOrder, idemIndex)
      modifies this`jobs, this`queues, this`readyNotifications, wheel
      ensures Valid() && Persistent() == d
    {
      hide Core, Sound, Keyed, DurableJobs, DurableTotals;
      QueuesOfJobs(d);
      RestoreAll(d.jobs);
    }

    /** One job of an image, into the indexes that are kept during replay. */
    method Restore(id: JobId, job: Job)
      requires Core({}) && replaying && id !in jobs && |jobs| < LIMIT && job.queue in queues
      modifies this`jobs, this`queues, this`readyNotifications, wheel
      ensures Core({}) && id in jobs && jobs == old(jobs)[id := jobs[id]] && jobs[id].job == job
      ensures queues.Keys == old(queues).Keys && DurableTotals(queues) == old(DurableTotals(queues))
    {
      hide Core, OnTime, Loose, Moved, DueLater, Timers, MonoDeadline, T.TimingWheel.Valid, DurableTotals;
      ghost var a, notes := queues, readyNotifications;
      Admit(id, job);
      MovedKeys(a, queues, notes, notes, job.queue);
      MovedMeans(a, queues, notes, notes, job.queue);
      ghost var b := queues;
      if job.status.Pending? {
        EnterPending(id);
      } else if job.status.Leased? {
        MovedNot(queues, notes, job.queue);
        ScheduleLeaseTimer(id, 0);
      } else {
        FileAway(id);
      }
      MovedKeys(b, queues, notes, readyNotifications, job.queue);
      MovedMeans(b, queues, notes, readyNotifications, job.queue);
    }

    method RestoreAll(all: map<JobId, Job>)
      requires Core({}) && replaying && jobs == map[] && |all| <= LIMIT &&
               forall id | id in all :: all[id].queue in queues
      modifies this`jobs, this`queues, this`readyNotifications, wheel
      ensures Core({}) && DurableJobs(jobs) == all && DurableTotals(queues) == old(DurableTotals(queues))
    {
      hide Core, DurableTotals;
      var ids := all.Keys;
      while ids != {}
        invariant Core({}) && ids <= all.Keys && jobs.Keys == all.Keys - ids && queues.Keys == old(queues).Keys
        invariant (forall id | id in jobs :: jobs[id].job == all[id]) &&
                  DurableTotals(queues) == old(DurableTotals(queues))
        decreases |ids|
      {
        var id :| id in ids;
        RoomForOne(jobs, all, id);
        Restore(id, all[id]);
        ids := ids - {id};
      }
    }

    method ClearQueues()
      modifies this`queues
      ensures queues.Keys == old(queues).Keys && forall q | q in queues :: queues[q] == Cleared(old(queues)[q])
    {
      var names := queues.Keys;
      while names != {}
        invariant names <= queues.Keys == old(queues).Keys
        invariant forall q | q in queues :: queues[q] == if q in names then old(queues)[q] else Cleared(old(queues)[q])
        decreases |names|
      {
        var q :| q in names;
        queues := queues[q := Cleared(queues[q])];
        names := names - {q};
      }
    }

    /** One job into the indexes its state calls for now. */
    method Readmit(id: JobId, job: Job, grace: int)
      requires Core({}) && !replaying && id !in jobs && |jobs| < LIMIT && job.queue in queues &&
               wallNow + grace <= graceUntil
      modifies this`jobs, this`queues, this`finishedGc, this`deadGc, this`readyNotifications, wheel
      ensures Core({}) && id in jobs && jobs == old(jobs)[id := jobs[id]] && jobs[id].job == job &&
              SharpAt(jobs, wallNow, id)
      ensures Moved(old(queues), queues, old(readyNotifications), readyNotifications, job.queue)
      ensures var ref := [FinishedRef(id, job.finishedAt)];
              if !Terminal(job.status) then finishedGc == old(finishedGc) && deadGc == old(deadGc)
              else if job.status.Dead? then finishedGc == old(finishedGc) && deadGc == old(deadGc) + ref
              else finishedGc == old(finishedGc) + ref && deadGc == old(deadGc)
      ensures old(OnTime({})) ==> OnTime({})
      ensures MoreTimers(old(Timers()), Timers()) && SparedAt(jobs, Timers(), wallNow, monoNow, wallNow + grace, id)
    {
      hide Core, OnTime, Loose, Moved, DueLater, Timers, MonoDeadline, T.TimingWheel.Valid;
      ghost var a, notes := queues, readyNotifications;
      Admit(id, job);
      ghost var b := queues;
      if job.status.Pending? {
        EnterPending(id);
        MovedThrough(a, b, queues, notes, notes, readyNotifications, job.queue);
      } else if job.status.Leased? {
        ScheduleLeaseTimer(id, grace);
      } else {
        FileAway(id);
        MovedThrough(a, b, queues, notes, notes, notes, job.queue);
        if job.status.Dead? {
          deadGc := deadGc + [FinishedRef(id, job.finishedAt)];
        } else {
          finishedGc := finishedGc + [FinishedRef(id, job.finishedAt)];
        }
      }
    }

    /** A wheel without timers, empty indexes and no jobs in them yet. */
    method StartOver(ghost grace: int)
      modifies this`jobs, this`queues, this`wheel, this`finishedGc, this`deadGc, this`readyNotifications, this`expired,
               this`inFlight, this`graceUntil
      ensures graceUntil == wallNow + grace
      ensures Core({}) && jobs == map[] && inFlight == map[] && expired == {} && finishedGc == [] && deadGc == [] &&
              fresh(wheel)
      ensures queues.Keys == old(queues).Keys && DurableTotals(queues) == old(DurableTotals(queues))
      ensures OnTime({}) && Sharp() && RefsOk(jobs, nextJobId, [], []) && Announced(map[], queues, readyNotifications)
    {
      hide Core, OnTime, RefsOk, Announced, AllSharp, T.TimingWheel.Valid;
      wheel := new T.TimingWheel(monoNow);
      finishedGc, deadGc, readyNotifications, expired, inFlight, jobs := [], [], [], {}, map[], map[];
      graceUntil := wallNow + grace;
      ClearQueues();
      EmptyIndexes();
    }

    /** The jobs so far are back in their indexes, on time, with leases spared for the grace period. */
    ghost predicate Rebuilding(all: map<JobId, LiveJob>, grace: int)
      reads this, wheel
    {
      && Core({}) && PartOf(jobs, all) && OnTime({}) && Sharp() && Announced(map[], queues, readyNotifications)
      && RefsOk(jobs, nextJobId, finishedGc, deadGc) && RefsFrom(all, finishedGc, false) && RefsFrom(all, deadGc, true)
      && AllSpared(jobs, Timers(), wallNow, monoNow, wallNow + grace)
    }

    lemma RoomForNext(all: map<JobId, LiveJob>, id: JobId, grace: int)
      requires Rebuilding(all, grace) && id in all && id !in jobs && |all| <= LIMIT
      ensures Core({}) && |jobs| < LIMIT && OnTime({}) && Announced(map[], queues, readyNotifications)
    {
      hide Core, OnTime, RefsOk, Announced, AllSharp, AllSpared, Timers, RefsFrom;
      RoomForOne(jobs, all, id);
    }

    /** One more job is back. */
    lemma MoreRebuilt(all: map<JobId, LiveJob>, id: JobId, grace: int, was: map<JobId, LiveJob>,
                      timers: map<T.TimerHandle, T.Timer>, f: seq<FinishedRef>, g: seq<FinishedRef>)
      requires PartOf(was, all) && AllSharp(was, wallNow) && AllSpared(was, timers, wallNow, monoNow, wallNow + grace)
      requires RefsOk(was, nextJobId, f, g) && RefsFrom(all, f, false) && RefsFrom(all, g, true)
      requires id in all && id in jobs && id !in was && id < nextJobId
      requires Core({}) && jobs == was[id := jobs[id]] && jobs[id].job == all[id].job && OnTime({})
      requires SharpAt(jobs, wallNow, id) && Announced(map[], queues, readyNotifications)
      requires MoreTimers(timers, Timers()) && SparedAt(jobs, Timers(), wallNow, monoNow, wallNow + grace, id)
      requires var ref := [FinishedRef(id, jobs[id].job.finishedAt)];
               if !Terminal(jobs[id].job.status) then finishedGc == f && deadGc == g
               else if jobs[id].job.status.Dead? then finishedGc == f && deadGc == g + ref
               else finishedGc == f + ref && deadGc == g
      ensures Rebuilding(all, grace)
    {
      hide Core, OnTime, RefsOk, Announced, AllSharp, RefsFrom, AllSpared, SparedAt, Timers, MoreTimers, Terminal,
           SharpAt;
      PartAndOne(was, jobs, all, id);
      SharpAgain(was, jobs, wallNow, id);
      SparedToo(was, jobs, timers, Timers(), wallNow, monoNow, wallNow + grace, id);
      ReadmittedRef(all, was, jobs, nextJobId, f, g, finishedGc, deadGc, id);
    }

    method ReadmitNext(all: map<JobId, LiveJob>, id: JobId, grace: int)
      requires Rebuilding(all, grace) && !replaying && id in all && id !in jobs && |all| <= LIMIT &&
               wallNow + grace <= graceUntil && all[id].job.queue in queues && id < nextJobId
      modifies this`jobs, this`queues, this`finishedGc, this`deadGc, this`readyNotifications, wheel
      ensures Rebuilding(all, grace) && jobs.Keys == old(jobs).Keys + {id}
      ensures queues.Keys == old(queues).Keys && DurableTotals(queues) == old(DurableTotals(queues))
    {
      hide Core, OnTime, RefsOk, Announced, AllSharp, RefsFrom, AllSpared, SparedAt, Timers, MoreTimers, PartOf,
           DurableTotals, Moved, Terminal, SharpAt;
      ghost var was, timers, f, g := jobs, Timers(), finishedGc, deadGc;
      ghost var b, notes := queues, readyNotifications;
      RoomForNext(all, id, grace);
      Readmit(id, all[id].job, grace);
      MovedKeys(b, queues, notes, readyNotifications, all[id].job.queue);
      MovedMeans(b, queues, notes, readyNotifications, all[id].job.queue);
      AnnouncedThrough(map[], b, queues, notes, readyNotifications);
      hide Rebuilding;
      MoreRebuilt(all, id, grace, was, timers, f, g);
    }

    /** The loop over all jobs, in no particular order. */
    method ReadmitAll(all: map<JobId, LiveJob>, grace: int)
      requires Core({}) && !replaying && jobs == map[] && |all| <= LIMIT && finishedGc == [] && deadGc == [] &&
               wallNow + grace <= graceUntil
      requires forall id | id in all :: all[id].job.queue in queues && id < nextJobId
      requires OnTime({}) && Sharp() && RefsOk(jobs, nextJobId, [], []) && Announced(map[], queues, readyNotifications)
      modifies this`jobs, this`queues, this`finishedGc, this`deadGc, this`readyNotifications, wheel
      ensures Rebuilding(all, grace) && SameJobs(all, jobs) && DurableTotals(queues) == old(DurableTotals(queues))
    {
      hide *;
      StartsRebuilding(all, grace);
      ghost var names := queues.Keys;
      var ids := all.Keys;
      while ids != {}
        invariant Rebuilding(all, grace) && ids <= all.Keys && jobs.Keys == all.Keys - ids
        invariant queues.Keys == names && DurableTotals(queues) == old(DurableTotals(queues))
        decreases |ids|
      {
        var id :| id in ids;
        ReadmitNext(all, id, grace);
        ids := ids - {id};
      }
      AllRebuilt(all, grace);
    }

    lemma StartsRebuilding(all: map<JobId, LiveJob>, grace: int)
      requires Core({}) && jobs == map[] && finishedGc == [] && deadGc == []
      requires OnTime({}) && Sharp() && RefsOk(jobs, nextJobId, [], []) && Announced(map[], queues, readyNotifications)
      ensures Rebuilding(all, grace)
    {
      hide Core, OnTime, RefsOk, Announced, AllSharp, AllSpared, Timers, RefsFrom;
      NoRefs(all);
      NoneToSpare(jobs, Timers(), wallNow, monoNow, wallNow + grace);
    }

    lemma AllRebuilt(all: map<JobId, LiveJob>, grace: int)
      requires Rebuilding(all, grace) && jobs.Keys == all.Keys
      ensures SameJobs(all, jobs)
    {
      hide Core, OnTime, RefsOk, Announced, AllSharp, AllSpared, Timers, RefsFrom;
    }

    /** Everything derived, from the durable state and the clocks as they are now. */
    method RebuildDerived(grace: int)
      requires !replaying && Sound(Persistent()) && Keyed(idemOrder, idemIndex) && |jobs| <= LIMIT
      modifies this`jobs, this`queues, this`wheel, this`finishedGc, this`deadGc, this`readyNotifications, this`expired,
               this`inFlight, this`graceUntil
      ensures Valid() && Persistent() == old(Persistent()) && expired == {} && fresh(wheel) &&
              graceUntil == wallNow + grace
      ensures OnTime({}) && Sharp() && Announced(map[], queues, readyNotifications)
      ensures AllSpared(jobs, Timers(), wallNow, monoNow, graceUntil)
      ensures NoneFinishedAfter(old(jobs), wallNow) ==> Chronological()
    {
      hide Sound, Keyed, Core, OnTime, RefsOk, Announced, AllSharp, DurableTotals, DurableJobs, RefsFrom, Oldest,
           SameJobs, NoneFinishedAfter, AllSpared, Timers;
      var all := jobs;
      JobsAreInQueues(Persistent(), all, queues);
      StartOver(grace);
      ReadmitAll(all, grace);
      SameDurable(all, jobs, nextJobId, finishedGc, deadGc);
      SortGc(all);
    }

    method SortGc(ghost all: map<JobId, LiveJob>)
      requires RefsOk(jobs, nextJobId, finishedGc, deadGc) && RefsFrom(all, finishedGc, false) &&
               RefsFrom(all, deadGc, true)
      modifies this`finishedGc, this`deadGc
      ensures RefsOk(jobs, nextJobId, finishedGc, deadGc)
      ensures NoneFinishedAfter(all, wallNow) ==> Chronological()
    {
      hide RefsOk, RefsFrom, Oldest, Sorted;
      ghost var f, g := finishedGc, deadGc;
      finishedGc := SortRefs(finishedGc);
      deadGc := SortRefs(deadGc);
      RefsReordered(jobs, nextJobId, f, g, finishedGc, deadGc);
      RefsBounded(all, f, finishedGc, wallNow, false);
      RefsBounded(all, g, deadGc, wallNow, true);
    }

    /** Leaves replay: derived state is rebuilt and what is past retention goes. */
    method EndReplay(grace: int)
      requires Valid() && replaying
      modifies this`replaying, this`jobs, this`queues, this`wheel, this`finishedGc, this`deadGc,
               this`readyNotifications, this`expired, this`inFlight, this`graceUntil,
               this`idemOrder, this`idemIndex
      ensures Valid() && !replaying && expired == {} && fresh(wheel) && graceUntil == wallNow + grace
      ensures OnTime({}) && Sharp() && AllSpared(jobs, Timers(), wallNow, monoNow, graceUntil)
      ensures NoneFinishedAfter(old(jobs), wallNow) ==>
              Chronological() && Persistent() == Jobs.Collect(keep, old(Persistent()), wallNow)
    {
      hide Sound, Keyed, Core, OnTime, RefsOk, AllSharp, DurableTotals, DurableJobs, Oldest, Jobs.Collect, OnlyPastGone,
           NoneFinishedAfter, Announced, AllSpared, Timers;
      FitsIn();
      replaying := false;
      RebuildDerived(grace);
      ghost var was := jobs;
      CollectGarbage();
      FewerSpared(keep, was, jobs, Timers(), wallNow, monoNow, graceUntil);
    }

    lemma EmptyIndexes()
      requires wheel.Valid() && wheel.pending == map[] && jobs == map[] && inFlight == map[] && expired == {}
      requires forall q | q in queues :: queues[q] == Cleared(queues[q])
      ensures Core({}) && OnTime({}) && Sharp() && RefsOk(jobs, nextJobId, [], []) && Announced(map[], queues, [])
    {
      assert Timers() == map[];
      NothingIndexed(Now());
      forall q ensures AnnouncedAt(map[], queues, [], q) { }
    }

    // --- garbage collection -----------------------------------------------------------------------------

    /** One of the two lists of finished jobs, oldest first. Stale references are skipped. */
    method CollectRefs(dead: bool)
      requires Core({}) && inFlight == map[] && RefsOk(jobs, nextJobId, finishedGc, deadGc)
      modifies this`jobs, this`queues, this`expired, this`finishedGc, this`deadGc, wheel
      ensures Core({}) && wheel.now == old(wheel.now) && expired == old(expired)
      ensures RefsOk(jobs, nextJobId, finishedGc, deadGc)
      ensures OnlyPastGone(keep, old(jobs), jobs, wallNow)
      ensures old(Chronological()) ==> Chronological() && NonePast(keep, jobs, wallNow, dead)
      ensures Announced(old(queues), queues, readyNotifications) && DurableTotals(queues) == old(DurableTotals(queues))
      ensures old(OnTime({})) ==> OnTime({})
      ensures Timers() == old(Timers())
    {
      hide Core, OnTime, RefsOk, Announced, DurableTotals, OnlyPastGone, Oldest, NonePast, Timers;
      var refs := if dead then deadGc else finishedGc;
      var retention := if dead then keep.dead else keep.finished;
      ghost var before, sorted := queues, refs;
      AnnouncedSame(queues, readyNotifications);
      NoneGone(keep, jobs, wallNow);
      while refs != [] && refs[0].finishedAt + retention <= wallNow
        invariant Core({}) && wheel.now == old(wheel.now) && expired == old(expired)
        invariant finishedGc == old(finishedGc) && deadGc == old(deadGc)
        invariant RefsOk(jobs, nextJobId, if dead then finishedGc else refs, if dead then refs else deadGc)
        invariant OnlyPastGone(keep, old(jobs), jobs, wallNow)
        invariant Oldest(sorted, wallNow) ==> Oldest(refs, wallNow)
        invariant Announced(before, queues, readyNotifications) && DurableTotals(queues) == old(DurableTotals(queues))
        invariant old(OnTime({})) ==> OnTime({})
        invariant Timers() == old(Timers())
        decreases |refs|
      {
        var ref := refs[0];
        ghost var was, b, rest := jobs, queues, refs;
        refs := refs[1..];
        var hit := ref.id in jobs && jobs[ref.id].job.finishedAt == ref.finishedAt
                   && (if dead then jobs[ref.id].job.status.Dead? else Terminal(jobs[ref.id].job.status));
        if hit { EraseIfThere(ref.id); }
        if dead { PoppedDead(keep, was, jobs, nextJobId, finishedGc, rest, hit, wallNow); } else {
          PoppedFinished(keep, was, jobs, nextJobId, rest, deadGc, hit, wallNow);
        }
        if hit {
          MorePastGone(keep, old(jobs), was, ref.id, wallNow);
          AnnouncedThrough(before, b, queues, readyNotifications, readyNotifications);
        }
        OldestRest(rest, wallNow);
      }
      NoneLeft(keep, jobs, nextJobId, refs, finishedGc, deadGc, wallNow, dead);
      if dead { deadGc := refs; } else { finishedGc := refs; }
    }

    method EraseIdemFront()
      requires Keyed(idemOrder, idemIndex) && idemOrder != []
      modifies this`idemOrder, this`idemIndex
      ensures Keyed(idemOrder, idemIndex) && idemOrder == old(idemOrder)[1..]
    {
      idemIndex := idemIndex - {idemOrder[0].key};
      idemOrder := idemOrder[1..];
    }

    method DropKeys()
      requires Keyed(idemOrder, idemIndex)
      modifies this`idemOrder, this`idemIndex
      ensures Keyed(idemOrder, idemIndex) && idemOrder == DropExpired(old(idemOrder), wallNow)
    {
      hide Keyed;
      while idemOrder != [] && idemOrder[0].expiresAt <= wallNow
        invariant Keyed(idemOrder, idemIndex) && DropExpired(idemOrder, wallNow) == DropExpired(old(idemOrder), wallNow)
        decreases |idemOrder|
      {
        EraseIdemFront();
      }
    }

    /** Drops what is past its retention. Nothing else goes, whatever the clock did; and
        everything past goes while the clock has not gone back. */
    method CollectGarbage()
      requires Valid() && !replaying
      modifies this`jobs, this`queues, this`expired, this`finishedGc, this`deadGc, this`idemOrder, this`idemIndex, wheel
      ensures Valid() && wheel.now == old(wheel.now) && expired == old(expired)
      ensures OnlyPastGone(keep, old(jobs), jobs, wallNow)
      ensures old(Chronological()) ==> Chronological() && Persistent() == Jobs.Collect(keep, old(Persistent()), wallNow)
      ensures Announced(old(queues), queues, readyNotifications)
      ensures old(OnTime({})) ==> OnTime({})
      ensures old(Sharp()) ==> Sharp()
      ensures Timers() == old(Timers())
    {
      hide Core, OnTime, RefsOk, Announced, DurableTotals, DurableJobs, OnlyPastGone, Oldest, NonePast, Keyed, Sound,
           AllSharp, Jobs.Collect, DropExpired;
      ghost var a, d := queues, Persistent();
      CollectRefs(false);
      ghost var b, between := queues, jobs;
      CollectRefs(true);
      AnnouncedThrough(a, b, queues, readyNotifications, readyNotifications);
      PastGoneThrough(keep, old(jobs), between, jobs, wallNow);
      DropKeys();
      GoneIsSound(keep, d, old(jobs), jobs, idemOrder, wallNow);
      if old(Chronological()) { GoneIsCollected(keep, d, old(jobs), between, jobs, wallNow); }
      LessSharp(keep, old(jobs), jobs, wallNow);
    }
  }

  // --- lemmas about rebuilding ------------------------------------------------------------------------------

  ghost predicate NoneFinishedAfter(jobs: map<JobId, LiveJob>, now: Time) {
    forall id | id in jobs && Terminal(jobs[id].job.status) :: jobs[id].job.finishedAt <= now
  }

  /** The references are those of finished jobs. */
  ghost predicate RefsFrom(all: map<JobId, LiveJob>, refs: seq<FinishedRef>, dead: bool) {
    forall ref | ref in refs ::
      && ref.id in all && Terminal(all[ref.id].job.status) && all[ref.id].job.status.Dead? == dead
      && ref.finishedAt == all[ref.id].job.finishedAt
  }

  /** Some of these jobs, up to what is derived. */
  ghost predicate PartOf(jobs: map<JobId, LiveJob>, all: map<JobId, LiveJob>) {
    jobs.Keys <= all.Keys && forall id | id in jobs :: jobs[id].job == all[id].job
  }

  lemma PartAndOne(was: map<JobId, LiveJob>, jobs: map<JobId, LiveJob>, all: map<JobId, LiveJob>, id: JobId)
    requires PartOf(was, all) && id in all && id in jobs && jobs == was[id := jobs[id]] && jobs[id].job == all[id].job
    ensures PartOf(jobs, all)
  {
  }

  lemma NoneToSpare(jobs: map<JobId, LiveJob>, timers: map<T.TimerHandle, T.Timer>, wall: Time, mono: int,
                    until: Time)
    requires jobs == map[]
    ensures AllSpared(jobs, timers, wall, mono, until)
  {
  }

  lemma NoRefs(all: map<JobId, LiveJob>)
    ensures RefsFrom(all, [], false) && RefsFrom(all, [], true)
  {
  }

  predicate KeysApart(idem: seq<IdemEntry>) { forall i, j | 0 <= i < j < |idem| :: idem[i].key != idem[j].key }

  function KeyIndex(order: seq<IdemEntry>): (index: map<Bytes, IdemEntry>)
    requires KeysApart(order)
    ensures Keyed(order, index)
  {
    map i | 0 <= i < |order| :: order[i].key := order[i]
  }

  /** Queues with these totals and no jobs yet. */
  function QueuesWith(totals: map<Bytes, Totals>): (queues: map<Bytes, Queue>)
    ensures queues.Keys == totals.Keys && DurableTotals(queues) == totals &&
            forall q | q in queues :: queues[q] == Cleared(queues[q])
  {
    map q | q in totals :: NEW_QUEUE.(totals := totals[q])
  }

  lemma QueuesOfJobs(d: Durable)
    requires Sound(d)
    ensures forall id | id in d.jobs :: d.jobs[id].queue in d.totals
  {
    forall id | id in d.jobs ensures d.jobs[id].queue in d.totals { assert JobOk(d, id); }
  }

  lemma RoomForOne<J, K>(jobs: map<JobId, J>, all: map<JobId, K>, id: JobId)
    requires jobs.Keys <= all.Keys && id in all && id !in jobs
    ensures |jobs| < |all|
  {
    T.SubsetIsSmaller(jobs.Keys, all.Keys - {id});
    assert |jobs.Keys| == |jobs| && |all.Keys| == |all|;
  }

  lemma ReadmittedRef(all: map<JobId, LiveJob>, was: map<JobId, LiveJob>, jobs: map<JobId, LiveJob>, nextJobId: JobId,
                      f: seq<FinishedRef>, g: seq<FinishedRef>, f': seq<FinishedRef>, g': seq<FinishedRef>, id: JobId)
    requires id in all && id !in was && id in jobs && jobs == was[id := jobs[id]] && id < nextJobId
    requires forall k | k in jobs :: k in all && jobs[k].job == all[k].job
    requires RefsOk(was, nextJobId, f, g) && RefsFrom(all, f, false) && RefsFrom(all, g, true)
    requires var ref := [FinishedRef(id, jobs[id].job.finishedAt)];
             if !Terminal(jobs[id].job.status) then f' == f && g' == g
             else if jobs[id].job.status.Dead? then f' == f && g' == g + ref
             else f' == f + ref && g' == g
    ensures RefsOk(jobs, nextJobId, f', g') && RefsFrom(all, f', false) && RefsFrom(all, g', true)
  {
    forall ref | ref in f' ensures RefOk(jobs, nextJobId, ref) {
      if ref in f { assert RefOk(was, nextJobId, ref); }
    }
    forall k ensures HasRef(jobs, f', g', k) { assert HasRef(was, f, g, k); }
  }

  lemma JobsAreInQueues(d: Durable, jobs: map<JobId, LiveJob>, queues: map<Bytes, Queue>)
    requires Sound(d) && d.jobs == DurableJobs(jobs) && d.totals == DurableTotals(queues)
    ensures forall id | id in jobs :: jobs[id].job.queue in queues && id < d.nextJobId
  {
    forall id | id in jobs ensures jobs[id].job.queue in queues && id < d.nextJobId { assert JobOk(d, id); }
  }

  lemma RefsReordered(jobs: map<JobId, LiveJob>, nextJobId: JobId, f: seq<FinishedRef>, g: seq<FinishedRef>,
                      f': seq<FinishedRef>, g': seq<FinishedRef>)
    requires RefsOk(jobs, nextJobId, f, g) && (forall ref :: ref in f <==> ref in f') &&
             (forall ref :: ref in g <==> ref in g')
    ensures RefsOk(jobs, nextJobId, f', g')
  {
    forall ref | ref in f' ensures RefOk(jobs, nextJobId, ref) { assert RefOk(jobs, nextJobId, ref); }
    forall k ensures HasRef(jobs, f', g', k) { assert HasRef(jobs, f, g, k); }
  }

  ghost predicate Sorted(refs: seq<FinishedRef>) {
    forall i, j | 0 <= i < j < |refs| :: refs[i].finishedAt <= refs[j].finishedAt
  }

  lemma RefsBounded(all: map<JobId, LiveJob>, refs: seq<FinishedRef>, refs': seq<FinishedRef>, now: Time, dead: bool)
    requires RefsFrom(all, refs, dead) && Sorted(refs') && forall ref :: ref in refs <==> ref in refs'
    ensures NoneFinishedAfter(all, now) ==> Oldest(refs', now)
  {
    if NoneFinishedAfter(all, now) {
      forall i | 0 <= i < |refs'| ensures refs'[i].finishedAt <= now { assert refs'[i] in refs'; }
    }
  }

  /** The references by time. */
  method SortRefs(refs: seq<FinishedRef>) returns (sorted: seq<FinishedRef>)
    ensures Sorted(sorted) && forall ref :: ref in refs <==> ref in sorted
  {
    sorted := [];
    for i := 0 to |refs|
      invariant Sorted(sorted) && forall ref :: ref in refs[..i] <==> ref in sorted
    {
      assert refs[..i + 1] == refs[..i] + [refs[i]];
      var k := |sorted|;
      while k > 0 && sorted[k - 1].finishedAt > refs[i].finishedAt
        invariant 0 <= k <= |sorted| && forall j | k <= j < |sorted| :: sorted[j].finishedAt > refs[i].finishedAt
      {
        k := k - 1;
      }
      Inserted(sorted, k, refs[i]);
      sorted := sorted[..k] + [refs[i]] + sorted[k..];
    }
    assert refs[..|refs|] == refs;
  }

  lemma Inserted(sorted: seq<FinishedRef>, k: nat, ref: FinishedRef)
    requires Sorted(sorted) && k <= |sorted| && (k > 0 ==> sorted[k - 1].finishedAt <= ref.finishedAt)
    requires forall j | k <= j < |sorted| :: sorted[j].finishedAt > ref.finishedAt
    ensures var r := sorted[..k] + [ref] + sorted[k..];
            Sorted(r) && forall x :: x in r <==> x in sorted || x == ref
  {
    assert sorted == sorted[..k] + sorted[k..];
  }

  // --- lemmas about collection ----------------------------------------------------------------------------

  /** Jobs are unchanged or gone, and the ones that are gone were past their retention. */
  ghost predicate OnlyPastGone(keep: Retention, before: map<JobId, LiveJob>, jobs: map<JobId, LiveJob>, now: Time) {
    && (forall id | id in jobs :: id in before && jobs[id] == before[id])
    && (forall id | id in before && id !in jobs :: Past(keep, before[id].job, now))
  }

  ghost predicate NonePast(keep: Retention, jobs: map<JobId, LiveJob>, now: Time, dead: bool) {
    forall id | id in jobs && jobs[id].job.status.Dead? == dead :: !Past(keep, jobs[id].job, now)
  }

  lemma NoneGone(keep: Retention, jobs: map<JobId, LiveJob>, now: Time)
    ensures OnlyPastGone(keep, jobs, jobs, now)
  {
  }

  lemma MorePastGone(keep: Retention, before: map<JobId, LiveJob>, jobs: map<JobId, LiveJob>, id: JobId, now: Time)
    requires OnlyPastGone(keep, before, jobs, now) && id in jobs && Past(keep, jobs[id].job, now)
    ensures OnlyPastGone(keep, before, jobs - {id}, now)
  {
  }

  lemma PastGoneThrough(keep: Retention, a: map<JobId, LiveJob>, b: map<JobId, LiveJob>, c: map<JobId, LiveJob>,
                        now: Time)
    requires OnlyPastGone(keep, a, b, now) && OnlyPastGone(keep, b, c, now)
    ensures OnlyPastGone(keep, a, c, now)
  {
  }

  /** A popped reference was stale, or its job is gone: the others still lead to theirs. */
  lemma PoppedFinished(keep: Retention, was: map<JobId, LiveJob>, jobs: map<JobId, LiveJob>, nextJobId: JobId,
                       refs: seq<FinishedRef>, dead: seq<FinishedRef>, hit: bool, now: Time)
    requires refs != [] && RefsOk(was, nextJobId, refs, dead) && refs[0].finishedAt + keep.finished <= now
    requires var id := refs[0].id;
             && (hit <==> id in was && was[id].job.finishedAt == refs[0].finishedAt && Terminal(was[id].job.status))
             && jobs == if hit then was - {id} else was
    ensures RefsOk(jobs, nextJobId, refs[1..], dead) && (hit ==> Past(keep, was[refs[0].id].job, now))
  {
    assert refs[0] in refs && RefOk(was, nextJobId, refs[0]);
    forall ref | ref in refs[1..] ensures RefOk(jobs, nextJobId, ref) {
      assert ref in refs && RefOk(was, nextJobId, ref);
    }
    forall k ensures HasRef(jobs, refs[1..], dead, k) {
      assert HasRef(was, refs, dead, k);
      assert refs == [refs[0]] + refs[1..];
    }
  }

  lemma PoppedDead(keep: Retention, was: map<JobId, LiveJob>, jobs: map<JobId, LiveJob>, nextJobId: JobId,
                   finished: seq<FinishedRef>, refs: seq<FinishedRef>, hit: bool, now: Time)
    requires refs != [] && RefsOk(was, nextJobId, finished, refs) && refs[0].finishedAt + keep.dead <= now
    requires var id := refs[0].id;
             && (hit <==> id in was && was[id].job.finishedAt == refs[0].finishedAt && was[id].job.status.Dead?)
             && jobs == if hit then was - {id} else was
    ensures RefsOk(jobs, nextJobId, finished, refs[1..]) && (hit ==> Past(keep, was[refs[0].id].job, now))
  {
    forall ref | ref in finished ensures RefOk(jobs, nextJobId, ref) { assert RefOk(was, nextJobId, ref); }
    forall k ensures HasRef(jobs, finished, refs[1..], k) {
      assert HasRef(was, finished, refs, k);
      assert refs == [refs[0]] + refs[1..];
    }
  }

  lemma OldestRest(refs: seq<FinishedRef>, now: Time)
    requires refs != []
    ensures Oldest(refs, now) ==> Oldest(refs[1..], now)
  {
  }

  /** The first reference that stays is too young, and so are all after it. */
  lemma NoneLeft(keep: Retention, jobs: map<JobId, LiveJob>, nextJobId: JobId, refs: seq<FinishedRef>,
                 finished: seq<FinishedRef>, dead: seq<FinishedRef>, now: Time, isDead: bool)
    requires RefsOk(jobs, nextJobId, if isDead then finished else refs, if isDead then refs else dead)
    requires refs == [] || refs[0].finishedAt + (if isDead then keep.dead else keep.finished) > now
    ensures Oldest(refs, now) ==> NonePast(keep, jobs, now, isDead)
  {
    if Oldest(refs, now) {
      forall id | id in jobs && jobs[id].job.status.Dead? == isDead ensures !Past(keep, jobs[id].job, now) {
        assert HasRef(jobs, if isDead then finished else refs, if isDead then refs else dead, id);
        if Terminal(jobs[id].job.status) {
          var i :| 0 <= i < |refs| && refs[i] == FinishedRef(id, jobs[id].job.finishedAt);
        }
      }
    }
  }

  lemma GoneIsSound(keep: Retention, d: Durable, before: map<JobId, LiveJob>, jobs: map<JobId, LiveJob>,
                    idem: seq<IdemEntry>, now: Time)
    requires Sound(d) && d.jobs == DurableJobs(before) && OnlyPastGone(keep, before, jobs, now)
    ensures Sound(d.(jobs := DurableJobs(jobs), idem := idem))
  {
    var d' := d.(jobs := DurableJobs(jobs), idem := idem);
    forall id ensures JobOk(d', id) { assert JobOk(d, id); }
  }

  lemma GoneIsCollected(keep: Retention, d: Durable, before: map<JobId, LiveJob>, between: map<JobId, LiveJob>,
                        jobs: map<JobId, LiveJob>, now: Time)
    requires d.jobs == DurableJobs(before) && OnlyPastGone(keep, before, jobs, now) &&
             OnlyPastGone(keep, between, jobs, now)
    requires NonePast(keep, between, now, false) && NonePast(keep, jobs, now, true)
    ensures d.(jobs := DurableJobs(jobs), idem := DropExpired(d.idem, now)) == Jobs.Collect(keep, d, now)
  {
    assert DurableJobs(jobs) == Kept(keep, d.jobs, now);
  }

  lemma LessSharp(keep: Retention, before: map<JobId, LiveJob>, jobs: map<JobId, LiveJob>, now: Time)
    requires OnlyPastGone(keep, before, jobs, now)
    ensures AllSharp(before, now) ==> AllSharp(jobs, now)
  {
    if AllSharp(before, now) {
      forall k ensures SharpAt(jobs, now, k) { assert SharpAt(before, now, k); }
    }
  }

  lemma PunctualSame(v: View, v': View, wall: Time, offset: int)
    requires Punctual(v, wall, offset, {}) && v'.jobs == v.jobs && v'.timers == v.timers &&
             v'.graceUntil == v.graceUntil
    ensures Punctual(v', wall, offset, {})
  {
    forall id ensures PunctualAt(v', wall, offset, id) { assert PunctualAt(v, wall, offset, id); }
  }

  lemma InRange(jobs: map<JobId, LiveJob>, d: Durable, id: JobId)
    requires Sound(d) && d.jobs == DurableJobs(jobs) && id in jobs
    ensures id < d.nextJobId
  {
    assert JobOk(d, id);
  }

  lemma DeadIsNotExpired(v: View, id: JobId)
    requires Indexed(v, {}) && id in v.jobs && v.jobs[id].job.status.Dead?
    ensures id !in v.expired
  {
    assert JobIndexed(v, id);
  }

  lemma PunctualError(v: View, wall: Time, offset: int, id: JobId, error: Bytes)
    requires Punctual(v, wall, offset, {}) && id in v.jobs
    ensures Punctual(v.(jobs := v.jobs[id := v.jobs[id].(job := v.jobs[id].job.(lastError := error))]), wall, offset,
                     {})
  {
    var v' := v.(jobs := v.jobs[id := v.jobs[id].(job := v.jobs[id].job.(lastError := error))]);
    forall k ensures PunctualAt(v', wall, offset, k) { assert PunctualAt(v, wall, offset, k); }
  }

  lemma TerminalHasNoTimer(v: View, id: JobId)
    requires Indexed(v, {}) && id in v.jobs && Terminal(v.jobs[id].job.status)
    ensures v.jobs[id].timer.None?
  {
    assert JobIndexed(v, id);
  }

  lemma TerminalIsNotExpired(v: View, id: JobId)
    requires Indexed(v, {}) && id in v.jobs && Terminal(v.jobs[id].job.status)
    ensures v.expired - {id} == v.expired
  {
    assert JobIndexed(v, id);
  }

  lemma NotInDead(v: View, id: JobId)
    requires Indexed(v, {id}) && Detached(v, id) && !v.jobs[id].job.status.Dead?
    ensures Loose(v, id)
  {
    assert DeadOk(v, v.jobs[id].job.queue);
  }

  lemma MeansPurged(jobs: map<JobId, LiveJob>, d: Durable, r: Record)
    requires r.JobsPurged? && d.jobs == DurableJobs(jobs)
    ensures Applies(d, r) <==> forall id | id in r.ids :: id in jobs && Terminal(jobs[id].job.status)
    ensures Applies(d, r) ==> Apply(d, r) == d.(jobs := d.jobs - IdSet(r.ids))
  {
    if !Applies(d, r) {
      var id :| id in r.ids && !(id in d.jobs && Terminal(d.jobs[id].status));
      assert !(id in jobs && Terminal(jobs[id].job.status));
    }
  }

  lemma JobsLess(jobs: map<JobId, LiveJob>, ids: set<JobId>)
    ensures DurableJobs(jobs - ids) == DurableJobs(jobs) - ids
  {
  }

  lemma LessReferred(was: map<JobId, LiveJob>, jobs: map<JobId, LiveJob>, nextJobId: JobId, finished: seq<FinishedRef>,
                     dead: seq<FinishedRef>)
    requires forall id | id in jobs :: id in was && jobs[id] == was[id]
    ensures RefsOk(was, nextJobId, finished, dead) ==> RefsOk(jobs, nextJobId, finished, dead)
    ensures forall wall: Time :: AllSharp(was, wall) ==> AllSharp(jobs, wall)
  {
    if RefsOk(was, nextJobId, finished, dead) {
      forall ref | ref in finished ensures RefOk(jobs, nextJobId, ref) { assert RefOk(was, nextJobId, ref); }
      forall k ensures HasRef(jobs, finished, dead, k) { assert HasRef(was, finished, dead, k); }
    }
    forall wall: Time | AllSharp(was, wall) ensures AllSharp(jobs, wall) {
      forall k ensures SharpAt(jobs, wall, k) { assert SharpAt(was, wall, k); }
    }
  }

  lemma OneMoreId(jobs: map<JobId, LiveJob>, ids: seq<JobId>, i: nat)
    requires i < |ids|
    ensures jobs - IdSet(ids[..i + 1]) == jobs - IdSet(ids[..i]) - {ids[i]}
  {
    assert ids[..i + 1] == ids[..i] + [ids[i]];
    assert IdSet(ids[..i + 1]) == IdSet(ids[..i]) + {ids[i]};
  }

  lemma FewerJobs(jobs: map<JobId, LiveJob>, id: JobId)
    ensures |jobs - {id}| <= |jobs|
  {
    T.SubsetIsSmaller((jobs - {id}).Keys, jobs.Keys);
    assert |(jobs - {id}).Keys| == |jobs - {id}| && |jobs.Keys| == |jobs|;
  }

  lemma EmptyQueue(before: map<Bytes, Queue>, q: Bytes, notes: seq<Bytes>)
    requires q !in before
    ensures Announced(before, before[q := NEW_QUEUE], notes)
    ensures forall r: Record | r.JobEnqueued? ::
              Jobs.Counted(DurableTotals(before[q := NEW_QUEUE]), q, r) == Jobs.Counted(DurableTotals(before), q, r)
  {
    var queues := before[q := NEW_QUEUE];
    forall p ensures AnnouncedAt(before, queues, notes, p) { }
    TotalsUpdate(before, q, NEW_QUEUE);
  }

  lemma MeansEnqueued(jobs: map<JobId, LiveJob>, d: Durable, r: Record)
    requires r.JobEnqueued? && d.jobs == DurableJobs(jobs) && Sound(d)
    ensures Applies(d, r) <==> r.id == d.nextJobId && r.queue != [] && r.maxAttempts != 0
    ensures Applies(d, r) ==>
              && r.id !in jobs
              && Apply(d, r) == Durable(d.jobs[r.id := NewJob(r)], Jobs.Counted(d.totals, r.queue, r), r.id + 1,
                                        d.nextToken, Upserted(d.idem, r))
  {
    assert JobOk(d, r.id);
  }

  lemma NewReferred(was: map<JobId, LiveJob>, jobs: map<JobId, LiveJob>, id: JobId, finished: seq<FinishedRef>,
                    dead: seq<FinishedRef>)
    requires RefsOk(was, id, finished, dead) && id in jobs && jobs == was[id := jobs[id]] &&
             !Terminal(jobs[id].job.status)
    ensures RefsOk(jobs, id + 1, finished, dead)
  {
    forall ref | ref in finished ensures RefOk(jobs, id + 1, ref) { assert RefOk(was, id, ref); }
    forall k ensures HasRef(jobs, finished, dead, k) { assert HasRef(was, finished, dead, k); }
  }

  lemma {:induction false} KeyAbsent(order: seq<IdemEntry>, index: map<Bytes, IdemEntry>, key: Bytes)
    requires Keyed(order, index) && key !in index
    ensures Without(order, key) == order
  {
    forall i | 0 <= i < |order| ensures order[i].key != key { }
    WithoutNone(order, key);
  }

  lemma {:induction false} WithoutNone(order: seq<IdemEntry>, key: Bytes)
    requires forall i | 0 <= i < |order| :: order[i].key != key
    ensures Without(order, key) == order
  {
    if order != [] { WithoutNone(order[1..], key); }
  }

  ghost predicate DistinctKeys(order: seq<IdemEntry>) {
    forall i, j | 0 <= i < j < |order| :: order[i].key != order[j].key
  }

  lemma {:induction false} WithoutDistinct(order: seq<IdemEntry>, key: Bytes)
    requires DistinctKeys(order)
    ensures DistinctKeys(Without(order, key))
  {
    if order != [] {
      WithoutDistinct(order[1..], key);
      var rest := Without(order[1..], key);
      forall i | 0 <= i < |rest| ensures rest[i].key != order[0].key {
        assert rest[i] in rest;
        WithoutMembers(order[1..], key, rest[i]);
        var k :| 0 <= k < |order[1..]| && order[1..][k] == rest[i];
        assert order[k + 1] == rest[i];
      }
    }
  }

  lemma KeyedUpsert(order: seq<IdemEntry>, index: map<Bytes, IdemEntry>, e: IdemEntry)
    requires Keyed(order, index)
    ensures Keyed(Without(order, e.key) + [e], index[e.key := e])
  {
    WithoutDistinct(order, e.key);
    var rest := Without(order, e.key);
    var order', index' := rest + [e], index[e.key := e];
    forall i | 0 <= i < |rest| ensures rest[i] in order && rest[i].key != e.key {
      assert rest[i] in rest;
      WithoutMembers(order, e.key, rest[i]);
    }
    forall key | key in index' ensures index'[key].key == key && index'[key] in order' {
      if key != e.key {
        WithoutMembers(order, e.key, index[key]);
      }
    }
  }

  /** What fits and what follows, for the records about one job. */
  lemma Means(jobs: map<JobId, LiveJob>, d: Durable, r: Record)
    requires !r.JobEnqueued? && !r.JobsPurged? && d.jobs == DurableJobs(jobs)
    ensures Applies(d, r) <==>
              && r.id in jobs
              && var job := jobs[r.id].job;
                 match r
                 case JobLeased(_, token, _, _) => job.status.Pending? && token == d.nextToken &&
                   job.attempts < job.maxAttempts
                 case LeaseExtended(_, token, _, _) => job.status.Leased? && job.token == token
                 case JobSucceeded(_, token, _) => job.status.Leased? && job.token == token
                 case AttemptFailed(_, token, _, _, _, _, _) => job.status.Leased? && job.token == token
                 case JobCancelled(_, _) => !Terminal(job.status)
                 case DeadJobRetried(_, _, _) => job.status.Dead?
    ensures Applies(d, r) ==>
              Apply(d, r) == d.(jobs := d.jobs[r.id := JobAfter(jobs[r.id].job, r)],
                                totals := Jobs.Counted(d.totals, jobs[r.id].job.queue, r),
                                nextToken := if r.JobLeased? then r.token + 1 else d.nextToken)
  {
  }

  lemma SharpAgain(was: map<JobId, LiveJob>, jobs: map<JobId, LiveJob>, wall: Time, id: JobId)
    requires id in jobs && jobs == was[id := jobs[id]] && SharpAt(jobs, wall, id)
    ensures AllSharp(was, wall) ==> AllSharp(jobs, wall)
  {
    if AllSharp(was, wall) {
      forall k ensures SharpAt(jobs, wall, k) { assert SharpAt(was, wall, k); }
    }
  }

  /** Only one queue differs; its totals are the same, and unless it is on the list of
      queues to announce, its heap has gained no job. */
  ghost predicate Moved(before: map<Bytes, Queue>, queues: map<Bytes, Queue>, notes: seq<Bytes>, notes': seq<Bytes>,
                        q: Bytes) {
    && q in before && q in queues && queues == before[q := queues[q]] && queues[q].totals == before[q].totals
    && (q in notes' || forall e | e in queues[q].ready.heap :: e in before[q].ready.heap)
    && (forall p | p in notes :: p in notes')
  }

  /** The timers in flight are the events from the k-th on. */
  ghost predicate Flying(inFlight: map<T.TimerHandle, T.Timer>, fired: seq<T.TimerEvent>, k: nat) {
    && (forall j | k <= j < |fired| :: fired[j].handle in inFlight && inFlight[fired[j].handle] == fired[j].timer)
    && (forall h | h in inFlight :: exists j :: k <= j < |fired| && fired[j].handle == h)
  }

  lemma InFlightIsFired(before: map<T.TimerHandle, T.Timer>, pending: map<T.TimerHandle, T.Timer>,
                        fired: seq<T.TimerEvent>)
    requires T.Accounted(before, pending, fired)
    ensures Flying(map h | h in before && h !in pending :: before[h], fired, 0)
    ensures forall j, k | 0 <= j < k < |fired| :: fired[j].handle != fired[k].handle
    ensures pending + (map h | h in before && h !in pending :: before[h]) == before
  {
    var inFlight := map h | h in before && h !in pending :: before[h];
    forall h | h in inFlight ensures exists j :: 0 <= j < |fired| && fired[j].handle == h {
      assert T.Reported(fired, h);
    }
  }

  lemma FiredHaveCome(v: View, before: map<T.TimerHandle, T.Timer>, pending: map<T.TimerHandle, T.Timer>,
                      fired: seq<T.TimerEvent>, now: nat)
    requires Indexed(v, {}) && v.timers == before && T.Accounted(before, pending, fired) && T.AllBy(fired, now)
    ensures forall k | 0 <= k < |fired| :: TimerCame(v.jobs, v.timers, now, fired[k].timer.id)
  {
    hide Indexed;
    forall k | 0 <= k < |fired| ensures TimerCame(v.jobs, v.timers, now, fired[k].timer.id) {
      FiredTimer(v, fired[k].handle);
    }
  }

  lemma FlyingNext(inFlight: map<T.TimerHandle, T.Timer>, fired: seq<T.TimerEvent>, k: nat)
    requires Flying(inFlight, fired, k) && k < |fired| &&
             forall i, j | 0 <= i < j < |fired| :: fired[i].handle != fired[j].handle
    ensures fired[k].handle in inFlight && inFlight[fired[k].handle] == fired[k].timer
    ensures Flying(inFlight - {fired[k].handle}, fired, k + 1)
  {
    var rest := inFlight - {fired[k].handle};
    forall h | h in rest ensures exists j :: k + 1 <= j < |fired| && fired[j].handle == h {
      var j :| k <= j < |fired| && fired[j].handle == h;
      assert j != k;
    }
  }

  lemma FlyingEnds(inFlight: map<T.TimerHandle, T.Timer>, fired: seq<T.TimerEvent>)
    requires Flying(inFlight, fired, |fired|)
    ensures inFlight == map[]
  {
  }

  /** The same jobs, up to what is derived. */
  ghost predicate SameJobs(was: map<JobId, LiveJob>, jobs: map<JobId, LiveJob>) {
    was.Keys == jobs.Keys && forall id | id in jobs :: jobs[id].job == was[id].job
  }

  lemma SameDurable(was: map<JobId, LiveJob>, jobs: map<JobId, LiveJob>, nextJobId: JobId, finished: seq<FinishedRef>,
                    dead: seq<FinishedRef>)
    requires SameJobs(was, jobs)
    ensures DurableJobs(jobs) == DurableJobs(was)
    ensures RefsOk(was, nextJobId, finished, dead) ==> RefsOk(jobs, nextJobId, finished, dead)
  {
    if RefsOk(was, nextJobId, finished, dead) {
      forall ref | ref in finished ensures RefOk(jobs, nextJobId, ref) { assert RefOk(was, nextJobId, ref); }
      forall k ensures HasRef(jobs, finished, dead, k) { assert HasRef(was, finished, dead, k); }
    }
  }

  lemma MovedKeys(before: map<Bytes, Queue>, queues: map<Bytes, Queue>, notes: seq<Bytes>, notes': seq<Bytes>, q: Bytes)
    requires Moved(before, queues, notes, notes', q)
    ensures queues.Keys == before.Keys
  {
  }

  lemma MovedNot(queues: map<Bytes, Queue>, notes: seq<Bytes>, q: Bytes)
    requires q in queues
    ensures Moved(queues, queues, notes, notes, q)
  {
  }

  lemma MovedThrough(a: map<Bytes, Queue>, b: map<Bytes, Queue>, c: map<Bytes, Queue>, n: seq<Bytes>, n': seq<Bytes>,
                     n'': seq<Bytes>, q: Bytes)
    requires Moved(a, b, n, n', q) && Moved(b, c, n', n'', q)
    ensures Moved(a, c, n, n'', q)
  {
  }

  lemma MovedMeans(before: map<Bytes, Queue>, queues: map<Bytes, Queue>, notes: seq<Bytes>, notes': seq<Bytes>,
                   q: Bytes)
    requires Moved(before, queues, notes, notes', q)
    ensures Announced(before, queues, notes') && (forall p | p in notes :: p in notes') &&
            DurableTotals(queues) == DurableTotals(before)
  {
    forall p ensures AnnouncedAt(before, queues, notes', p) { }
  }

  lemma AnnouncedSame(queues: map<Bytes, Queue>, notes: seq<Bytes>)
    ensures Announced(queues, queues, notes)
  {
    forall p ensures AnnouncedAt(queues, queues, notes, p) { }
  }

  lemma LooseDetached(v: View, id: JobId)
    requires Loose(v, id)
    ensures Detached(v, id)
  {
  }

  lemma DetachedIsLoose(v: View, id: JobId)
    requires Detached(v, id) && id !in v.queues[v.jobs[id].job.queue].dead
    ensures Loose(v, id)
  {
  }

  lemma NotDead(v: View, id: JobId)
    requires Indexed(v, {}) && id in v.jobs && !v.jobs[id].job.status.Dead?
    ensures v.jobs[id].job.queue in v.queues && id !in v.queues[v.jobs[id].job.queue].dead
    ensures v.jobs[id].ready ==> v.jobs[id].job.status.Pending?
  {
    assert JobIndexed(v, id);
  }

  /** A job that finishes gets its reference. */
  lemma NowReferred(was: map<JobId, LiveJob>, jobs: map<JobId, LiveJob>, nextJobId: JobId, finished: seq<FinishedRef>,
                    dead: seq<FinishedRef>,
                    finished': seq<FinishedRef>, dead': seq<FinishedRef>, id: JobId)
    requires RefsOk(was, nextJobId, finished, dead) && id in was && id in jobs && jobs == was[id := jobs[id]] &&
             id < nextJobId
    requires !Terminal(was[id].job.status) && Terminal(jobs[id].job.status)
    requires var ref := [FinishedRef(id, jobs[id].job.finishedAt)];
             if jobs[id].job.status.Dead? then finished' == finished && dead' == dead + ref
               else finished' == finished + ref && dead' == dead
    ensures RefsOk(jobs, nextJobId, finished', dead')
  {
    forall ref | ref in finished' ensures RefOk(jobs, nextJobId, ref) {
      if ref in finished { assert RefOk(was, nextJobId, ref); }
    }
    forall k ensures HasRef(jobs, finished', dead', k) { assert HasRef(was, finished, dead, k); }
  }

  /** A job that was not finished and is not finished: the lists need not change. */
  lemma StillReferred(was: map<JobId, LiveJob>, jobs: map<JobId, LiveJob>, nextJobId: JobId, finished: seq<FinishedRef>,
                      dead: seq<FinishedRef>, id: JobId)
    requires RefsOk(was, nextJobId, finished, dead) && id in was && id in jobs && jobs == was[id := jobs[id]]
    requires !Terminal(was[id].job.status) || was[id].job.status.Dead?
    requires !Terminal(jobs[id].job.status)
    ensures RefsOk(jobs, nextJobId, finished, dead)
  {
    forall ref | ref in finished ensures RefOk(jobs, nextJobId, ref) { assert RefOk(was, nextJobId, ref); }
    forall k ensures HasRef(jobs, finished, dead, k) { assert HasRef(was, finished, dead, k); }
  }

  lemma PunctualAgain(v: View, v': View, wall: Time, offset: int, id: JobId, q: Bytes)
    requires OnlyDiffers(v, v', id, q) && Indexed(v, {id}) && Punctual(v, wall, offset, {id}) &&
             PunctualAt(v', wall, offset, id)
    ensures Punctual(v', wall, offset, {})
  {
    PunctualOthers(v, v', wall, offset, id, q, {id});
    forall k ensures PunctualAt(v', wall, offset, k) { if k != id { assert k !in {id} + {id}; } }
  }

  lemma PunctualNoTimer(v: View, wall: Time, offset: int, id: JobId)
    requires Loose(v, id) && !v.jobs[id].ready && Punctual(v, wall, offset, {id})
    ensures Punctual(v, wall, offset, {})
  {
    forall k ensures PunctualAt(v, wall, offset, k) { if k != id { assert k !in {id}; } }
  }

  /** A loose job can go into its heap. */
  lemma HeapTakes(v: View, id: JobId)
    requires Indexed(v, {id}) && Loose(v, id)
    ensures var h := v.queues[v.jobs[id].job.queue].ready; H.Consistent(h) && id !in h.index
  {
    var q := v.jobs[id].job.queue;
    assert HeapOk(v, q);
    IndexMeans(v.queues[q].ready, id);
  }

  lemma KeysSame(jobs: map<JobId, LiveJob>, jobs': map<JobId, LiveJob>, id: JobId)
    requires id in jobs && id in jobs' && jobs' == jobs[id := jobs'[id]]
    ensures |jobs'| == |jobs|
  {
    assert jobs'.Keys == jobs.Keys;
  }
}
