/**
 The derived half of the job state: ready heaps, timers, dead-letter sets and counts,
 and what ties them to the jobs.
 */
module JobIndex {
  import opened Wrappers
  import opened LogFormat
  import opened Jobs
  import H = ReadyHeaps
  import T = TimingWheels

  const DUE_TIMER: nat := 1
  const EXPIRY_TIMER: nat := 2

  /** A job with its derived fields. A pending job is ready or scheduled. */
  datatype LiveJob = LiveJob(job: Job, ready: bool, timer: Option<T.TimerHandle>)

  datatype Queue = Queue(totals: Totals, ready: H.Heap, dead: set<JobId>, counts: map<Stage, int>)

  /** The six states of a live job, in the order of the counters. */
  datatype Stage = Scheduled | Ready | Leased | Succeeded | Dead | Cancelled

  function StageOf(j: LiveJob): Stage {
    match j.job.status
    case Pending => if j.ready then Ready else Scheduled
    case Leased => Stage.Leased
    case Succeeded => Stage.Succeeded
    case Dead => Stage.Dead
    case Cancelled => Stage.Cancelled
  }

  const ZERO: map<Stage, int> :=
    map[Scheduled := 0, Ready := 0, Stage.Leased := 0, Stage.Succeeded := 0, Stage.Dead := 0, Stage.Cancelled := 0]

  const NEW_QUEUE := Queue(Totals(0, 0, 0, 0, 0), H.EMPTY, {}, ZERO)

  function EntryOf(id: JobId, job: Job): H.Entry { H.Entry(job.priority, job.runAt, id) }

  predicate NeedsTimer(j: LiveJob) { StageOf(j).Scheduled? || StageOf(j).Leased? }

  function KindOf(j: LiveJob): nat { if j.job.status.Leased? then EXPIRY_TIMER else DUE_TIMER }

  /** Jobs and everything derived from them. `timers` is what the wheel holds; the leases
      in `expired` have lost their timer and wait for the record that ends them, and none
      ends before `graceUntil`. */
  datatype View = View(jobs: map<JobId, LiveJob>, queues: map<Bytes, Queue>, timers: map<T.TimerHandle, T.Timer>,
                       replaying: bool, expired: set<JobId>, graceUntil: Time)

  // --- the invariants ---------------------------------------------------------------------------

  /** The job is in exactly the indexes its state calls for. */
  ghost predicate JobIndexed(v: View, id: JobId) {
    id in v.jobs ==>
      var j := v.jobs[id];
      && j.job.queue in v.queues
      && (j.ready ==> j.job.status.Pending?)
      && (j.ready <==> EntryOf(id, j.job) in v.queues[j.job.queue].ready.heap)
      && (j.job.status.Dead? <==> id in v.queues[j.job.queue].dead)
      && (id in v.expired ==> j.job.status.Leased?)
      && (j.timer.Some? <==> !v.replaying && NeedsTimer(j) && id !in v.expired)
      && (j.timer.Some? ==>
          j.timer.value in v.timers && v.timers[j.timer.value].id == id && v.timers[j.timer.value].kind == KindOf(j))
  }

  ghost predicate HeapOk(v: View, q: Bytes) {
    q in v.queues ==>
      && H.Consistent(v.queues[q].ready)
      && forall e | e in v.queues[q].ready.heap :: InHeap(v, q, e)
  }

  ghost predicate InHeap(v: View, q: Bytes, e: H.Entry) {
    e.id in v.jobs && v.jobs[e.id].job.queue == q && v.jobs[e.id].ready && e == EntryOf(e.id, v.jobs[e.id].job)
  }

  ghost predicate DeadOk(v: View, q: Bytes) {
    q in v.queues ==>
      forall id | id in v.queues[q].dead :: id in v.jobs && v.jobs[id].job.queue == q && v.jobs[id].job.status.Dead?
  }

  ghost function Members(jobs: map<JobId, LiveJob>, q: Bytes, s: Stage): set<JobId> {
    set id | id in jobs && jobs[id].job.queue == q && StageOf(jobs[id]) == s
  }

  ghost predicate CountOk(jobs: map<JobId, LiveJob>, counts: map<Stage, int>, q: Bytes, s: Stage) {
    s in counts && counts[s] == |Members(jobs, q, s)|
  }

  /** The counters of a queue say how many of its jobs are in each state. */
  ghost predicate Counted(jobs: map<JobId, LiveJob>, counts: map<Stage, int>, q: Bytes) {
    forall s :: CountOk(jobs, counts, q, s)
  }

  ghost predicate CountsOk(v: View, q: Bytes) {
    q in v.queues ==> Counted(v.jobs, v.queues[q].counts, q)
  }

  /** Every timer in the wheel is the timer of its job. */
  ghost predicate TimerOwned(v: View, h: T.TimerHandle) {
    h in v.timers ==> v.timers[h].id in v.jobs && v.jobs[v.timers[h].id].timer == Some(h)
  }

  /** Everything is indexed, except perhaps the loose jobs. */
  ghost predicate Indexed(v: View, loose: set<JobId>) {
    && (forall id | id !in loose :: JobIndexed(v, id))
    && (forall q :: HeapOk(v, q)) && (forall q :: DeadOk(v, q)) && (forall q :: CountsOk(v, q))
    && (forall h :: TimerOwned(v, h))
    && (forall id | id in v.expired :: id in v.jobs)
  }

  /** A job that is in no heap and has no timer. */
  ghost predicate Detached(v: View, id: JobId) {
    && id in v.jobs && v.jobs[id].job.queue in v.queues && v.jobs[id].timer.None? && id !in v.expired
    && (forall e | e in v.queues[v.jobs[id].job.queue].ready.heap :: e.id != id)
  }

  /** A job that has been taken out of every index. */
  ghost predicate Loose(v: View, id: JobId) {
    Detached(v, id) && id !in v.queues[v.jobs[id].job.queue].dead
  }

  // --- changing one job ---------------------------------------------------------------------------

  /** Only the job `id` and the queue `q` it belongs to differ. */
  ghost predicate OnlyDiffers(v: View, v': View, id: JobId, q: Bytes) {
    && v'.replaying == v.replaying && v'.graceUntil == v.graceUntil
    && (id in v.jobs ==> v.jobs[id].job.queue == q) && (id in v'.jobs ==> v'.jobs[id].job.queue == q)
    && (forall k | k != id :: (k in v.jobs <==> k in v'.jobs) && (k in v.jobs ==> v'.jobs[k] == v.jobs[k]))
    && (forall k | k != id :: k in v.expired <==> k in v'.expired)
    && q in v.queues && q in v'.queues
    && (forall p | p != q :: (p in v.queues <==> p in v'.queues) && (p in v.queues ==> v'.queues[p] == v.queues[p]))
    && (forall e: H.Entry | e.id != id :: e in v.queues[q].ready.heap <==> e in v'.queues[q].ready.heap)
    && (forall k | k != id :: k in v.queues[q].dead <==> k in v'.queues[q].dead)
    && (forall h | h in v.timers && v.timers[h].id != id :: h in v'.timers && v'.timers[h] == v.timers[h])
    && (forall h | h in v'.timers && v'.timers[h].id != id :: h in v.timers && v.timers[h] == v'.timers[h])
  }

  lemma OtherJob(v: View, v': View, id: JobId, q: Bytes, k: JobId)
    requires OnlyDiffers(v, v', id, q) && JobIndexed(v, k) && k != id
    ensures JobIndexed(v', k)
  {
  }

  /** What the other jobs and queues rely on is kept; what is left to show is about `id`
      and its queue. */
  lemma OthersKeep(v: View, v': View, id: JobId, q: Bytes, loose: set<JobId>)
    requires Indexed(v, loose) && OnlyDiffers(v, v', id, q)
    requires H.Consistent(v'.queues[q].ready) &&
             (forall e | e in v'.queues[q].ready.heap && e.id == id :: InHeap(v', q, e))
    requires id in v'.queues[q].dead ==> id in v'.jobs && v'.jobs[id].job.status.Dead?
    requires CountsOk(v', q)
    requires forall h | h in v'.timers && v'.timers[h].id == id :: TimerOwned(v', h)
    requires id in v'.expired ==> id in v'.jobs
    ensures Indexed(v', loose + {id})
  {
    hide H.Consistent;
    forall k | k !in loose + {id} ensures JobIndexed(v', k) { OtherJob(v, v', id, q, k); }
    forall p ensures HeapOk(v', p) { OtherHeap(v, v', id, q, p); }
    forall p ensures DeadOk(v', p) { OtherDead(v, v', id, q, p); }
    forall p ensures CountsOk(v', p) { OtherCounts(v, v', id, q, p); }
    forall h ensures TimerOwned(v', h) { assert TimerOwned(v, h); }
  }

  lemma OtherHeap(v: View, v': View, id: JobId, q: Bytes, p: Bytes)
    requires (forall p :: HeapOk(v, p)) && OnlyDiffers(v, v', id, q)
    requires H.Consistent(v'.queues[q].ready) &&
             (forall e | e in v'.queues[q].ready.heap && e.id == id :: InHeap(v', q, e))
    ensures HeapOk(v', p)
  {
    hide H.Consistent;
    assert HeapOk(v, p);
    if p in v'.queues {
      forall e | e in v'.queues[p].ready.heap ensures InHeap(v', p, e) {
        if e.id != id || p != q { assert e in v.queues[p].ready.heap && InHeap(v, p, e); }
      }
    }
  }

  lemma OtherDead(v: View, v': View, id: JobId, q: Bytes, p: Bytes)
    requires (forall p :: DeadOk(v, p)) && OnlyDiffers(v, v', id, q)
    requires id in v'.queues[q].dead ==> id in v'.jobs && v'.jobs[id].job.status.Dead?
    ensures DeadOk(v', p)
  {
    assert DeadOk(v, p);
  }

  lemma OtherCounts(v: View, v': View, id: JobId, q: Bytes, p: Bytes)
    requires (forall p :: CountsOk(v, p)) && OnlyDiffers(v, v', id, q) && CountsOk(v', q)
    ensures CountsOk(v', p)
  {
    if p != q && p in v'.queues {
      assert CountsOk(v, p);
      forall s ensures CountOk(v'.jobs, v'.queues[p].counts, p, s) {
        assert CountOk(v.jobs, v.queues[p].counts, p, s);
        assert Members(v'.jobs, p, s) == Members(v.jobs, p, s);
      }
    }
  }

  // --- counting --------------------------------------------------------------------------------------

  function Add(counts: map<Stage, int>, s: Stage, n: int): map<Stage, int> {
    if s in counts then counts[s := counts[s] + n] else counts
  }

  lemma MembersSet(jobs: map<JobId, LiveJob>, q: Bytes, id: JobId, j: LiveJob, s: Stage)
    ensures Members(jobs[id := j], q, s) == Members(jobs, q, s) - {id} +
            if j.job.queue == q && StageOf(j) == s then {id} else {}
  {
    hide StageOf;
    var jobs' := jobs[id := j];
    assert forall k | k != id :: k in jobs' <==> k in jobs;
  }

  lemma CountDrops(jobs: map<JobId, LiveJob>, counts: map<Stage, int>, q: Bytes, id: JobId)
    requires Counted(jobs, counts, q) && id in jobs && jobs[id].job.queue == q
    ensures Counted(jobs - {id}, Add(counts, StageOf(jobs[id]), -1), q)
  {
    hide StageOf;
    var a := StageOf(jobs[id]);
    forall s ensures CountOk(jobs - {id}, Add(counts, a, -1), q, s) {
      assert CountOk(jobs, counts, q, s) && CountOk(jobs, counts, q, a);
      MembersDrop(jobs, q, id, s);
    }
  }

  lemma MembersDrop(jobs: map<JobId, LiveJob>, q: Bytes, id: JobId, s: Stage)
    requires id in jobs && jobs[id].job.queue == q
    ensures |Members(jobs - {id}, q, s)| == |Members(jobs, q, s)| - if StageOf(jobs[id]) == s then 1 else 0
  {
    hide StageOf;
    assert Members(jobs - {id}, q, s) == Members(jobs, q, s) - {id};
    assert id in Members(jobs, q, s) <==> StageOf(jobs[id]) == s;
    if StageOf(jobs[id]) != s { assert Members(jobs, q, s) - {id} == Members(jobs, q, s); }
  }

  lemma CountAdds(jobs: map<JobId, LiveJob>, counts: map<Stage, int>, q: Bytes, id: JobId, j: LiveJob)
    requires Counted(jobs, counts, q) && id !in jobs && j.job.queue == q
    ensures Counted(jobs[id := j], Add(counts, StageOf(j), 1), q)
  {
    hide StageOf;
    var jobs', b := jobs[id := j], StageOf(j);
    forall s ensures CountOk(jobs', Add(counts, b, 1), q, s) {
      assert CountOk(jobs, counts, q, s) && CountOk(jobs, counts, q, b);
      MembersAdd(jobs, q, id, j, s);
    }
  }

  lemma MembersAdd(jobs: map<JobId, LiveJob>, q: Bytes, id: JobId, j: LiveJob, s: Stage)
    requires id !in jobs && j.job.queue == q
    ensures |Members(jobs[id := j], q, s)| == |Members(jobs, q, s)| + if StageOf(j) == s then 1 else 0
  {
    hide StageOf;
    MembersSet(jobs, q, id, j, s);
    assert Members(jobs, q, s) - {id} == Members(jobs, q, s);
    if StageOf(j) != s { assert Members(jobs, q, s) + {} == Members(jobs, q, s); }
  }

  /** set_state(): one counter down, one up. */
  lemma CountMoves(jobs: map<JobId, LiveJob>, counts: map<Stage, int>, q: Bytes, id: JobId, j: LiveJob)
    requires Counted(jobs, counts, q) && id in jobs && jobs[id].job.queue == q == j.job.queue
    ensures Counted(jobs[id := j], Add(Add(counts, StageOf(jobs[id]), -1), StageOf(j), 1), q)
  {
    hide Counted, Add;
    CountDrops(jobs, counts, q, id);
    CountAdds(jobs - {id}, Add(counts, StageOf(jobs[id]), -1), q, id, j);
    assert (jobs - {id})[id := j] == jobs[id := j];
  }

  lemma CountsSame(jobs: map<JobId, LiveJob>, counts: map<Stage, int>, q: Bytes, id: JobId, j: LiveJob)
    requires Counted(jobs, counts, q) && id in jobs
    requires jobs[id].job.queue == j.job.queue && StageOf(jobs[id]) == StageOf(j)
    ensures Counted(jobs[id := j], counts, q)
  {
    var jobs' := jobs[id := j];
    forall s ensures CountOk(jobs', counts, q, s) {
      assert CountOk(jobs, counts, q, s);
      MembersSet(jobs, q, id, j, s);
      assert Members(jobs', q, s) == Members(jobs, q, s);
    }
  }

  // --- taking a job out of its indexes ------------------------------------------------------------------

  lemma NoTimerOf(v: View, id: JobId)
    requires (forall h :: TimerOwned(v, h)) && (id in v.jobs ==> v.jobs[id].timer.None?)
    ensures forall h | h in v.timers :: v.timers[h].id != id
  {
    forall h | h in v.timers ensures v.timers[h].id != id { assert TimerOwned(v, h); }
  }

  lemma IndexMeans(h: H.Heap, id: nat)
    requires H.Consistent(h)
    ensures id in h.index <==> exists i :: 0 <= i < |h.heap| && h.heap[i].id == id
  {
  }

  /** leave_indexes(), first half. */
  lemma LeaveHeap(v: View, id: JobId, h: H.Heap)
    requires Indexed(v, {}) && id in v.jobs && v.jobs[id].job.queue in v.queues
    requires H.Consistent(h) &&
             forall e :: e in h.heap <==> e in v.queues[v.jobs[id].job.queue].ready.heap && e.id != id
    ensures var q := v.jobs[id].job.queue;
            Indexed(v.(queues := v.queues[q := v.queues[q].(ready := h)]), {id})
  {
    hide H.Consistent, Counted, StageOf;
    var q := v.jobs[id].job.queue;
    assert JobIndexed(v, id) && DeadOk(v, q) && CountsOk(v, q);
    var v' := v.(queues := v.queues[q := v.queues[q].(ready := h)]);
    forall t | t in v'.timers && v'.timers[t].id == id ensures TimerOwned(v', t) { assert TimerOwned(v, t); }
    OthersKeep(v, v', id, q, {});
    assert {} + {id} == {id};
  }

  /** leave_indexes(), second half. */
  lemma LeaveWheel(v: View, id: JobId, timers: map<T.TimerHandle, T.Timer>)
    requires Indexed(v, {id}) && id in v.jobs && v.jobs[id].job.queue in v.queues
    requires forall e | e in v.queues[v.jobs[id].job.queue].ready.heap :: e.id != id
    requires timers == if v.jobs[id].timer.Some? then v.timers - {v.jobs[id].timer.value} else v.timers
    requires v.jobs[id].timer.Some? && v.jobs[id].timer.value in v.timers ==> v.timers[v.jobs[id].timer.value].id == id
    ensures var v' := View(v.jobs[id := v.jobs[id].(timer := None)], v.queues, timers, v.replaying, v.expired - {id},
                           v.graceUntil);
            Indexed(v', {id}) && Detached(v', id)
  {
    hide H.Consistent, Counted, StageOf;
    var q := v.jobs[id].job.queue;
    assert HeapOk(v, q) && DeadOk(v, q) && CountsOk(v, q);
    var j' := v.jobs[id].(timer := None);
    var v' := View(v.jobs[id := j'], v.queues, timers, v.replaying, v.expired - {id}, v.graceUntil);
    SameStage(v.jobs[id], j');
    CountsSame(v.jobs, v.queues[q].counts, q, id, j');
    forall t | t in v'.timers ensures v'.timers[t].id != id { assert TimerOwned(v, t); }
    OthersKeep(v, v', id, q, {id});
    assert {id} + {id} == {id};
  }

  lemma SameStage(j: LiveJob, j': LiveJob)
    requires j.job.status == j'.job.status && j.ready == j'.ready
    ensures StageOf(j) == StageOf(j')
  {
  }

  /** What leave_indexes() needs to know about a job that is in its indexes. */
  lemma WhereItIs(v: View, id: JobId)
    requires Indexed(v, {}) && id in v.jobs
    ensures var j := v.jobs[id];
            && j.job.queue in v.queues && H.Consistent(v.queues[j.job.queue].ready)
            && (id in v.queues[j.job.queue].ready.index <==> j.ready)
            && (forall e | e in v.queues[j.job.queue].ready.heap && e.id == id :: j.ready)
            && (j.timer.Some? ==> j.timer.value in v.timers && v.timers[j.timer.value].id == id)
  {
    var q := v.jobs[id].job.queue;
    assert JobIndexed(v, id) && HeapOk(v, q);
    IndexMeans(v.queues[q].ready, id);
    forall e | e in v.queues[q].ready.heap && e.id == id ensures v.jobs[id].ready { assert InHeap(v, q, e); }
    if id in v.queues[q].ready.index {
      var i :| 0 <= i < |v.queues[q].ready.heap| && v.queues[q].ready.heap[i].id == id;
      assert v.queues[q].ready.heap[i] in v.queues[q].ready.heap;
    }
  }

  /** The view with the job out of its heap and its timer. */
  ghost function Left(v: View, id: JobId, h: H.Heap, timers: map<T.TimerHandle, T.Timer>): View
    requires id in v.jobs && v.jobs[id].job.queue in v.queues
  {
    var q := v.jobs[id].job.queue;
    View(v.jobs[id := v.jobs[id].(timer := None)], v.queues[q := v.queues[q].(ready := h)], timers, v.replaying,
         v.expired - {id}, v.graceUntil)
  }

  lemma LeaveBoth(v: View, id: JobId, h: H.Heap, timers: map<T.TimerHandle, T.Timer>)
    requires Indexed(v, {}) && id in v.jobs && v.jobs[id].job.queue in v.queues
    requires H.Consistent(h) &&
             forall e :: e in h.heap <==> e in v.queues[v.jobs[id].job.queue].ready.heap && e.id != id
    requires timers == if v.jobs[id].timer.Some? then v.timers - {v.jobs[id].timer.value} else v.timers
    ensures var v' := Left(v, id, h, timers);
            Indexed(v', {id}) && Detached(v', id) && OnlyDiffers(v, v', id, v.jobs[id].job.queue)
  {
    hide Indexed, H.Consistent;
    WhereItIs(v, id);
    LeaveHeap(v, id, h);
    var q := v.jobs[id].job.queue;
    LeaveWheel(v.(queues := v.queues[q := v.queues[q].(ready := h)]), id, timers);
  }

  lemma LooseMeans(v: View, id: JobId)
    requires Loose(v, id)
    ensures id in v.jobs && v.jobs[id].job.queue in v.queues && v.jobs[id].timer.None?
  {
  }

  // --- changing a loose job --------------------------------------------------------------------------------

  /** Fields that no index depends on, while the job is in none. */
  lemma LooseFields(v: View, id: JobId, j: LiveJob)
    requires Indexed(v, {id}) && Detached(v, id)
    requires j.job.queue == v.jobs[id].job.queue && j.job.status == v.jobs[id].job.status &&
             j.ready == v.jobs[id].ready && j.timer.None?
    ensures var v' := v.(jobs := v.jobs[id := j]);
            Indexed(v', {id}) && Detached(v', id) && (Loose(v, id) ==> Loose(v', id)) &&
              OnlyDiffers(v, v', id, j.job.queue)
  {
    hide H.Consistent, Counted, StageOf;
    var q := j.job.queue;
    assert HeapOk(v, q) && DeadOk(v, q) && CountsOk(v, q);
    SameStage(v.jobs[id], j);
    CountsSame(v.jobs, v.queues[q].counts, q, id, j);
    var v' := v.(jobs := v.jobs[id := j]);
    NoTimerOf(v, id);
    OthersKeep(v, v', id, q, {id});
    assert {id} + {id} == {id};
  }

  /** No index depends on the last error of a job. */
  lemma ErrorOnly(v: View, id: JobId, error: Bytes)
    requires Indexed(v, {}) && id in v.jobs
    ensures Indexed(v.(jobs := v.jobs[id := v.jobs[id].(job := v.jobs[id].job.(lastError := error))]), {})
  {
    hide H.Consistent, Counted;
    var q := v.jobs[id].job.queue;
    var j := v.jobs[id].(job := v.jobs[id].job.(lastError := error));
    var v' := v.(jobs := v.jobs[id := j]);
    assert JobIndexed(v, id) && HeapOk(v, q) && DeadOk(v, q) && CountsOk(v, q);
    CountsSame(v.jobs, v.queues[q].counts, q, id, j);
    forall e | e in v.queues[q].ready.heap && e.id == id ensures InHeap(v', q, e) { assert InHeap(v, q, e); }
    forall t | t in v'.timers && v'.timers[t].id == id ensures TimerOwned(v', t) { assert TimerOwned(v, t); }
    OthersKeep(v, v', id, q, {});
    assert {} + {id} == {id};
    NoLongerLoose(v', id);
  }

  /** set_state() on a loose job. */
  lemma LooseStage(v: View, id: JobId, j: LiveJob)
    requires Indexed(v, {id}) && Loose(v, id)
    requires j.job.queue == v.jobs[id].job.queue && j.timer.None?
    ensures var q := j.job.queue;
            var queue := v.queues[q].(counts := Add(Add(v.queues[q].counts, StageOf(v.jobs[id]), -1), StageOf(j), 1));
            var v' := v.(jobs := v.jobs[id := j], queues := v.queues[q := queue]);
            Indexed(v', {id}) && Loose(v', id) && OnlyDiffers(v, v', id, q)
  {
    hide H.Consistent, Counted, StageOf, Add;
    var q := j.job.queue;
    assert HeapOk(v, q) && DeadOk(v, q) && CountsOk(v, q);
    CountMoves(v.jobs, v.queues[q].counts, q, id, j);
    var queue := v.queues[q].(counts := Add(Add(v.queues[q].counts, StageOf(v.jobs[id]), -1), StageOf(j), 1));
    var v' := v.(jobs := v.jobs[id := j], queues := v.queues[q := queue]);
    NoTimerOf(v, id);
    OthersKeep(v, v', id, q, {id});
    assert {id} + {id} == {id};
  }

  /** The lifetime totals are in no index. */
  lemma TotalsOnly(v: View, q: Bytes, totals: Totals, loose: set<JobId>)
    requires Indexed(v, loose) && q in v.queues
    ensures Indexed(v.(queues := v.queues[q := v.queues[q].(totals := totals)]), loose)
  {
    hide H.Consistent, Counted, StageOf;
    var v' := v.(queues := v.queues[q := v.queues[q].(totals := totals)]);
    forall id | id !in loose ensures JobIndexed(v', id) { assert JobIndexed(v, id); }
    forall p ensures HeapOk(v', p) {
      assert HeapOk(v, p);
      if p in v'.queues { forall e | e in v'.queues[p].ready.heap ensures InHeap(v', p, e) { assert InHeap(v, p, e); } }
    }
    forall p ensures DeadOk(v', p) { assert DeadOk(v, p); }
    forall p ensures CountsOk(v', p) { assert CountsOk(v, p); }
    forall h ensures TimerOwned(v', h) { assert TimerOwned(v, h); }
  }

  // --- putting a job into the indexes of its state -----------------------------------------------------------

  lemma NoLongerLoose(v: View, id: JobId)
    requires Indexed(v, {id}) && JobIndexed(v, id)
    ensures Indexed(v, {})
  {
    forall k ensures JobIndexed(v, k) { if k != id { assert k !in {id}; } }
  }

  /** A finished job, or any job during replay, needs no heap and no timer. */
  lemma NothingToAttach(v: View, id: JobId)
    requires Indexed(v, {id}) && Loose(v, id) && !v.jobs[id].ready && !v.jobs[id].job.status.Dead?
    requires v.replaying || !NeedsTimer(v.jobs[id])
    ensures Indexed(v, {})
  {
    NoLongerLoose(v, id);
  }

  lemma AttachDead(v: View, id: JobId)
    requires Indexed(v, {id}) && Detached(v, id) && !v.jobs[id].ready && v.jobs[id].job.status.Dead?
    ensures var q := v.jobs[id].job.queue;
            Indexed(v.(queues := v.queues[q := v.queues[q].(dead := v.queues[q].dead + {id})]), {})
  {
    hide H.Consistent, Counted;
    var q := v.jobs[id].job.queue;
    assert HeapOk(v, q) && DeadOk(v, q) && CountsOk(v, q);
    var v' := v.(queues := v.queues[q := v.queues[q].(dead := v.queues[q].dead + {id})]);
    NoTimerOf(v, id);
    OthersKeep(v, v', id, q, {id});
    assert {id} + {id} == {id};
    NoLongerLoose(v', id);
  }

  lemma DetachDead(v: View, id: JobId)
    requires Indexed(v, {}) && id in v.jobs && v.jobs[id].job.status.Dead?
    ensures var q := v.jobs[id].job.queue;
            q in v.queues &&
            var v' := v.(queues := v.queues[q := v.queues[q].(dead := v.queues[q].dead - {id})]);
            Indexed(v', {id}) && Loose(v', id) && !v.jobs[id].ready
  {
    hide H.Consistent, Counted;
    var q := v.jobs[id].job.queue;
    assert JobIndexed(v, id) && HeapOk(v, q) && DeadOk(v, q) && CountsOk(v, q);
    var v' := v.(queues := v.queues[q := v.queues[q].(dead := v.queues[q].dead - {id})]);
    forall t | t in v'.timers && v'.timers[t].id == id ensures TimerOwned(v', t) { assert TimerOwned(v, t); }
    forall e | e in v.queues[q].ready.heap ensures e.id != id { assert InHeap(v, q, e); }
    OthersKeep(v, v', id, q, {});
    assert {} + {id} == {id};
  }

  /** A dead job that is being erased leaves the dead-letter queue. */
  lemma LeaveDead(v: View, id: JobId)
    requires Indexed(v, {id}) && Detached(v, id)
    ensures var q := v.jobs[id].job.queue;
            var v' := v.(queues := v.queues[q := v.queues[q].(dead := v.queues[q].dead - {id})]);
            Indexed(v', {id}) && Loose(v', id) && OnlyDiffers(v, v', id, q)
  {
    hide H.Consistent, Counted;
    var q := v.jobs[id].job.queue;
    assert HeapOk(v, q) && DeadOk(v, q) && CountsOk(v, q);
    var v' := v.(queues := v.queues[q := v.queues[q].(dead := v.queues[q].dead - {id})]);
    NoTimerOf(v, id);
    OthersKeep(v, v', id, q, {id});
    assert {id} + {id} == {id};
  }

  lemma AttachTimer(v: View, id: JobId, h: T.TimerHandle, timer: T.Timer)
    requires Indexed(v, {id}) && Loose(v, id) && !v.replaying && NeedsTimer(v.jobs[id]) && !v.jobs[id].ready
    requires h !in v.timers && timer.id == id && timer.kind == KindOf(v.jobs[id])
    ensures var v' := v.(jobs := v.jobs[id := v.jobs[id].(timer := Some(h))], timers := v.timers[h := timer]);
            Indexed(v', {}) && OnlyDiffers(v, v', id, v.jobs[id].job.queue)
  {
    hide H.Consistent, Counted;
    var q := v.jobs[id].job.queue;
    assert HeapOk(v, q) && DeadOk(v, q) && CountsOk(v, q);
    var j' := v.jobs[id].(timer := Some(h));
    var v' := v.(jobs := v.jobs[id := j'], timers := v.timers[h := timer]);
    CountsSame(v.jobs, v.queues[q].counts, q, id, j');
    forall t | t in v'.timers && v'.timers[t].id == id ensures TimerOwned(v', t) { assert TimerOwned(v, t); }
    OthersKeep(v, v', id, q, {id});
    assert {id} + {id} == {id};
    NoLongerLoose(v', id);
  }

  /** A lease whose timer has fired waits, without a timer, for the record that ends it. */
  lemma AwaitEnd(v: View, id: JobId)
    requires Indexed(v, {id}) && Loose(v, id) && v.jobs[id].job.status.Leased? && !v.jobs[id].ready
    ensures Indexed(v.(expired := v.expired + {id}), {})
  {
    hide H.Consistent, Counted;
    var q := v.jobs[id].job.queue;
    assert HeapOk(v, q) && DeadOk(v, q) && CountsOk(v, q);
    var v' := v.(expired := v.expired + {id});
    NoTimerOf(v, id);
    OthersKeep(v, v', id, q, {id});
    assert {id} + {id} == {id};
    NoLongerLoose(v', id);
  }

  /** The timer of a job is the one that fired. */
  lemma FiredTimer(v: View, h: T.TimerHandle)
    requires Indexed(v, {}) && h in v.timers
    ensures var id := v.timers[h].id;
            && id in v.jobs && v.jobs[id].timer == Some(h) && v.timers[h].kind == KindOf(v.jobs[id])
            && NeedsTimer(v.jobs[id]) && !v.jobs[id].ready && id !in v.expired && v.jobs[id].job.queue in v.queues
            && v.expired - {id} == v.expired
  {
    assert TimerOwned(v, h);
    assert JobIndexed(v, v.timers[h].id);
  }

  lemma AttachReady(v: View, id: JobId, h: H.Heap)
    requires Indexed(v, {id}) && Loose(v, id) && v.jobs[id].ready && v.jobs[id].job.status.Pending?
    requires H.Consistent(h) &&
             forall e ::
               e in h.heap <==> e in v.queues[v.jobs[id].job.queue].ready.heap || e == EntryOf(id, v.jobs[id].job)
    ensures var q := v.jobs[id].job.queue;
            var v' := v.(queues := v.queues[q := v.queues[q].(ready := h)]);
            Indexed(v', {}) && OnlyDiffers(v, v', id, q)
  {
    hide H.Consistent, Counted;
    var q := v.jobs[id].job.queue;
    assert HeapOk(v, q) && DeadOk(v, q) && CountsOk(v, q);
    var v' := v.(queues := v.queues[q := v.queues[q].(ready := h)]);
    NoTimerOf(v, id);
    OthersKeep(v, v', id, q, {id});
    assert {id} + {id} == {id};
    NoLongerLoose(v', id);
  }

  // --- jobs come and go ------------------------------------------------------------------------------------------

  lemma AddQueue(v: View, q: Bytes)
    requires Indexed(v, {}) && q !in v.queues
    ensures Indexed(v.(queues := v.queues[q := NEW_QUEUE]), {})
  {
    hide Counted, StageOf;
    var v' := v.(queues := v.queues[q := NEW_QUEUE]);
    forall id ensures JobIndexed(v', id) { assert JobIndexed(v, id); }
    forall p ensures HeapOk(v', p) {
      assert HeapOk(v, p);
      if p in v'.queues { forall e | e in v'.queues[p].ready.heap ensures InHeap(v', p, e) { assert InHeap(v, p, e); } }
    }
    forall p ensures DeadOk(v', p) { assert DeadOk(v, p); }
    forall p ensures CountsOk(v', p) {
      assert CountsOk(v, p);
      if p == q { NoMembers(v, q); }
    }
    forall h ensures TimerOwned(v', h) { assert TimerOwned(v, h); }
  }

  lemma NoMembers(v: View, q: Bytes)
    requires (forall id :: JobIndexed(v, id)) && q !in v.queues
    ensures Counted(v.jobs, ZERO, q)
  {
    forall s ensures CountOk(v.jobs, ZERO, q, s) {
      forall id | id in v.jobs ensures v.jobs[id].job.queue != q { assert JobIndexed(v, id); }
      assert Members(v.jobs, q, s) == {};
      ZeroEverywhere(s);
    }
  }

  function Cleared(queue: Queue): Queue { queue.(ready := H.EMPTY, dead := {}, counts := ZERO) }

  /** No jobs and empty indexes: where rebuild_derived() starts. */
  lemma NothingIndexed(v: View)
    requires v.jobs == map[] && v.timers == map[] && v.expired == {}
    requires forall q | q in v.queues :: v.queues[q] == Cleared(v.queues[q])
    ensures Indexed(v, {})
  {
    forall q ensures CountsOk(v, q) {
      if q in v.queues {
        forall s ensures CountOk(v.jobs, ZERO, q, s) {
          assert Members(v.jobs, q, s) == {};
          ZeroEverywhere(s);
        }
      }
    }
    forall q ensures HeapOk(v, q) { }
  }

  lemma ZeroEverywhere(s: Stage)
    ensures s in ZERO && ZERO[s] == 0
  {
    match s
    case Scheduled => assert s in ZERO;
    case Ready => assert s in ZERO;
    case Leased => assert s in ZERO;
    case Succeeded => assert s in ZERO;
    case Dead => assert s in ZERO;
    case Cancelled => assert s in ZERO;
  }

  lemma AddJob(v: View, id: JobId, j: LiveJob)
    requires Indexed(v, {}) && id !in v.jobs && j.job.queue in v.queues && j.timer.None?
    ensures var q := j.job.queue;
            var queue := v.queues[q].(counts := Add(v.queues[q].counts, StageOf(j), 1));
            var v' := v.(jobs := v.jobs[id := j], queues := v.queues[q := queue]);
            Indexed(v', {id}) && Loose(v', id) && OnlyDiffers(v, v', id, q)
  {
    hide H.Consistent, Counted, StageOf, Add;
    var q := j.job.queue;
    assert HeapOk(v, q) && DeadOk(v, q) && CountsOk(v, q);
    CountAdds(v.jobs, v.queues[q].counts, q, id, j);
    var queue := v.queues[q].(counts := Add(v.queues[q].counts, StageOf(j), 1));
    var v' := v.(jobs := v.jobs[id := j], queues := v.queues[q := queue]);
    forall e | e in v.queues[q].ready.heap ensures e.id != id { assert InHeap(v, q, e); }
    NoTimerOf(v, id);
    OthersKeep(v, v', id, q, {});
    assert {} + {id} == {id};
  }

  /** erase_job() once the job is in no index. */
  lemma DropJob(v: View, id: JobId)
    requires Indexed(v, {id}) && Loose(v, id)
    ensures var q := v.jobs[id].job.queue;
            var queue := v.queues[q].(counts := Add(v.queues[q].counts, StageOf(v.jobs[id]), -1));
            var v' := v.(jobs := v.jobs - {id}, queues := v.queues[q := queue]);
            Indexed(v', {}) && OnlyDiffers(v, v', id, q)
  {
    hide H.Consistent, Counted, StageOf, Add;
    var q := v.jobs[id].job.queue;
    assert HeapOk(v, q) && DeadOk(v, q) && CountsOk(v, q);
    CountDrops(v.jobs, v.queues[q].counts, q, id);
    var queue := v.queues[q].(counts := Add(v.queues[q].counts, StageOf(v.jobs[id]), -1));
    var v' := v.(jobs := v.jobs - {id}, queues := v.queues[q := queue]);
    NoTimerOf(v, id);
    OthersKeep(v, v', id, q, {id});
    assert {id} + {id} == {id};
    NoLongerLoose(v', id);
  }

  // --- how many timers there can be --------------------------------------------------------------------------------

  lemma {:induction false} Owners(v: View, handles: set<T.TimerHandle>) returns (ids: set<JobId>)
    requires (forall h :: TimerOwned(v, h)) && handles <= v.timers.Keys
    ensures |ids| == |handles| &&
            forall id | id in ids :: id in v.jobs && v.jobs[id].timer.Some? && v.jobs[id].timer.value in handles
    ensures forall h | h in handles :: v.timers[h].id in ids
  {
    if handles == {} {
      ids := {};
    } else {
      var h :| h in handles;
      var fewer := Owners(v, handles - {h});
      assert TimerOwned(v, h);
      ids := fewer + {v.timers[h].id};
    }
  }

  /** As long as a job has no timer, there are fewer timers than jobs. */
  lemma TimersFit(v: View, id: JobId)
    requires (forall h :: TimerOwned(v, h)) && id in v.jobs && v.jobs[id].timer.None?
    ensures |v.timers| < |v.jobs|
  {
    var ids := Owners(v, v.timers.Keys);
    T.SubsetIsSmaller(ids, v.jobs.Keys - {id});
    assert |v.timers.Keys| == |v.timers| && |v.jobs.Keys| == |v.jobs|;
  }

  /** check_invariants(): as many timers in the wheel as jobs that hold one. */
  lemma TimersCounted(v: View)
    requires Indexed(v, {})
    ensures |v.timers| == |set id | id in v.jobs && v.jobs[id].timer.Some?|
  {
    var holders := set id | id in v.jobs && v.jobs[id].timer.Some?;
    var ids := Owners(v, v.timers.Keys);
    forall id | id in holders ensures id in ids { assert JobIndexed(v, id); }
    assert ids == holders;
    assert |v.timers.Keys| == |v.timers|;
  }

  lemma {:induction false} IdsOf(heap: seq<H.Entry>) returns (ids: set<JobId>)
    requires forall i, j | 0 <= i < j < |heap| :: heap[i].id != heap[j].id
    ensures |ids| == |heap| && forall id :: id in ids <==> exists i :: 0 <= i < |heap| && heap[i].id == id
  {
    if heap == [] {
      ids := {};
    } else {
      var fewer := IdsOf(heap[..|heap| - 1]);
      ids := fewer + {heap[|heap| - 1].id};
      forall id | id in fewer ensures exists i :: 0 <= i < |heap| && heap[i].id == id {
        var i :| 0 <= i < |heap| - 1 && heap[..|heap| - 1][i].id == id;
        assert heap[i].id == id;
      }
      forall id | exists i :: 0 <= i < |heap| && heap[i].id == id ensures id in ids {
        var i :| 0 <= i < |heap| && heap[i].id == id;
        if i < |heap| - 1 { assert heap[..|heap| - 1][i].id == id; }
      }
    }
  }

  /** check_invariants(): heap and dead-letter sizes agree with the counters. */
  lemma SizesCounted(v: View, q: Bytes)
    requires Indexed(v, {}) && q in v.queues
    ensures Ready in v.queues[q].counts && Stage.Dead in v.queues[q].counts
    ensures v.queues[q].counts[Ready] == |v.queues[q].ready.heap| &&
            v.queues[q].counts[Stage.Dead] == |v.queues[q].dead|
  {
    var queue := v.queues[q];
    assert HeapOk(v, q) && DeadOk(v, q) && CountsOk(v, q);
    assert CountOk(v.jobs, queue.counts, q, Ready) && CountOk(v.jobs, queue.counts, q, Stage.Dead);
    var ids := IdsOf(queue.ready.heap);
    forall id ensures id in ids <==> id in Members(v.jobs, q, Ready) {
      assert JobIndexed(v, id);
      if id in ids {
        var i :| 0 <= i < |queue.ready.heap| && queue.ready.heap[i].id == id;
        assert InHeap(v, q, queue.ready.heap[i]);
      }
    }
    assert ids == Members(v.jobs, q, Ready);
    forall id ensures id in queue.dead <==> id in Members(v.jobs, q, Stage.Dead) { assert JobIndexed(v, id); }
    assert queue.dead == Members(v.jobs, q, Stage.Dead);
  }
}
