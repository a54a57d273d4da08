/**
 Snapshots of a running Engine: the file holds exactly the state it was taken of, and
 stands in for the part of the log before it.
 */
module SnapshotRuns {
  import opened Wrappers
  import opened LogFormat
  import opened Codec
  import opened Jobs
  import opened JobRuns
  import opened Images
  import opened ChunkSizes
  import opened MetaSizes
  import opened SnapshotFiles
  import RecordCodec

  // --- the keys of a run --------------------------------------------------------------------------

  /** Keys in order of expiry, none beyond the limit, no two alike. */
  ghost predicate KeysOk(idem: seq<IdemEntry>, limit: Time) {
    && InOrder(idem) && (forall i | 0 <= i < |idem| :: idem[i].expiresAt <= limit && idem[i].key != [])
    && (forall i, j | 0 <= i < j < |idem| :: idem[i].key != idem[j].key)
  }

  /** The first key goes before the others. */
  ghost predicate Precedes(first: IdemEntry, e: IdemEntry) { first.expiresAt <= e.expiresAt && first.key != e.key }

  lemma FirstPrecedes(idem: seq<IdemEntry>, limit: Time)
    requires KeysOk(idem, limit) && idem != []
    ensures KeysOk(idem[1..], limit) && idem[0].expiresAt <= limit && idem[0].key != [] &&
            forall e | e in idem[1..] :: Precedes(idem[0], e)
  {
    forall e | e in idem[1..] ensures Precedes(idem[0], e) { var j :| 0 <= j < |idem[1..]| && idem[1..][j] == e; }
  }

  lemma PutFirst(first: IdemEntry, rest: seq<IdemEntry>, limit: Time)
    requires KeysOk(rest, limit) && first.expiresAt <= limit && first.key != [] &&
             forall e | e in rest :: Precedes(first, e)
    ensures KeysOk([first] + rest, limit)
  {
    forall j | 0 <= j < |rest| ensures Precedes(first, rest[j]) { assert rest[j] in rest; }
  }

  lemma {:induction false} WithoutKeepsOk(idem: seq<IdemEntry>, key: Bytes, limit: Time)
    requires KeysOk(idem, limit)
    ensures KeysOk(Without(idem, key), limit)
  {
    hide KeysOk, Precedes;
    if idem != [] {
      FirstPrecedes(idem, limit);
      WithoutKeepsOk(idem[1..], key, limit);
      var kept := Without(idem[1..], key);
      assert [] + kept == kept;
      forall e | e in kept ensures Precedes(idem[0], e) { WithoutMembers(idem[1..], key, e); }
      PutFirst(idem[0], kept, limit);
    }
  }

  lemma {:induction false} DropKeepsOk(idem: seq<IdemEntry>, now: Time, limit: Time)
    requires KeysOk(idem, limit)
    ensures KeysOk(DropExpired(idem, now), limit)
  {
    if idem != [] && idem[0].expiresAt <= now { DropKeepsOk(idem[1..], now, limit); }
  }

  lemma UpsertKeepsOk(idem: seq<IdemEntry>, r: Record, limit: Time)
    requires KeysOk(idem, limit) && r.JobEnqueued? && (r.idemKey != [] ==> r.idemExpiresAt == limit)
    ensures KeysOk(Upserted(idem, r), limit)
  {
    if r.idemKey != [] {
      WithoutKeepsOk(idem, r.idemKey, limit);
      var kept := Without(idem, r.idemKey);
      forall i | 0 <= i < |kept| ensures kept[i].key != r.idemKey { WithoutMembers(idem, r.idemKey, kept[i]); }
    }
  }

  /** With a window that is the same for every key and a clock that does not go back, the
      order in which keys were taken is the order in which they expire. */
  lemma {:induction false} RunKeysInOrder(policy: Policy, events: seq<Event>, now: Time)
    requires EngineRun(policy, EMPTY, events, now)
    ensures KeysOk(Run(policy.keep, EMPTY, events).idem, now + policy.window)
  {
    hide Applies, Resolved, KeysOk, JobAfter, Counted;
    if events == [] {
      NoKeys(now + policy.window);
    } else {
      var before, last := events[..|events| - 1], events[|events| - 1];
      var d := Run(policy.keep, EMPTY, before);
      RunKeysInOrder(policy, before, last.now);
      LaterKeys(d.idem, last.now + policy.window, now + policy.window);
      match last
      case Collected(t) => DropKeepsOk(d.idem, t, now + policy.window);
      case Logged(r, t) =>
        if r.JobEnqueued? {
          ExpiresWithWindow(policy, d, r, t);
          LoggedKeys(d.idem, r, t + policy.window, now + policy.window);
        }
    }
  }

  lemma NoKeys(limit: Time)
    ensures KeysOk([], limit)
  {
  }

  lemma LaterKeys(idem: seq<IdemEntry>, limit: Time, later: Time)
    requires KeysOk(idem, limit) && limit <= later
    ensures KeysOk(idem, later)
  {
  }

  lemma LoggedKeys(idem: seq<IdemEntry>, r: Record, limit: Time, later: Time)
    requires KeysOk(idem, limit) && r.JobEnqueued? && (r.idemKey != [] ==> r.idemExpiresAt == limit) && limit <= later
    ensures KeysOk(Upserted(idem, r), later)
  {
    hide KeysOk, Upserted;
    UpsertKeepsOk(idem, r, limit);
    LaterKeys(Upserted(idem, r), limit, later);
  }

  lemma ExpiresWithWindow(policy: Policy, d: Durable, r: Record, now: Time)
    requires Applies(d, r) && Resolved(policy, d, r, now) && r.JobEnqueued?
    ensures r.idemKey != [] ==> r.idemExpiresAt == now + policy.window
  {
  }

  /** No queue goes without a name. */
  lemma {:induction false} RunQueuesNamed(policy: Policy, events: seq<Event>, now: Time)
    requires EngineRun(policy, EMPTY, events, now)
    ensures forall q | q in Run(policy.keep, EMPTY, events).totals :: q != []
  {
    hide Resolved, Sound, JobAfter;
    if events != [] {
      var before, last := events[..|events| - 1], events[|events| - 1];
      RunQueuesNamed(policy, before, last.now);
      EmptyIsSound();
      RunIsSound(policy, EMPTY, before, last.now);
      if last.Logged? && !last.record.JobEnqueued? && !last.record.JobsPurged? {
        QueueNamed(Run(policy.keep, EMPTY, before), last.record.id);
      }
    }
  }

  lemma QueueNamed(d: Durable, id: JobId)
    requires Sound(d) && id in d.jobs
    ensures d.jobs[id].queue != []
  {
    assert JobOk(d, id);
  }

  // --- a snapshot of a run --------------------------------------------------------------------------

  /** The numbers and lengths fit the widths of their fields. */
  ghost predicate Widths(d: Durable) {
    && d.nextJobId < U64 && d.nextToken < U64 && |d.totals| < U64 && |d.jobs| < U64 && |d.idem| < U64
    && (forall q | q in d.totals :: |q| < U64 && TotalsFit(d.totals[q]))
    && (forall id | id in d.jobs :: JobFits(d.jobs[id]))
    && (forall i | 0 <= i < |d.idem| ::
        |d.idem[i].key| < U64 && d.idem[i].jobId < U64 && RecordCodec.TimeOk(d.idem[i].expiresAt))
  }

  lemma RunIsStorable(policy: Policy, events: seq<Event>, now: Time)
    requires EngineRun(policy, EMPTY, events, now) && Widths(Run(policy.keep, EMPTY, events))
    ensures Storable(Run(policy.keep, EMPTY, events)) && InOrder(Run(policy.keep, EMPTY, events).idem)
  {
    hide EngineRun, Run, Sound, JobFits, TotalsFit;
    var d := Run(policy.keep, EMPTY, events);
    EmptyIsSound();
    RunIsSound(policy, EMPTY, events, now);
    RunQueuesNamed(policy, events, now);
    RunKeysInOrder(policy, events, now);
    forall i | 0 <= i < |d.idem| ensures KeyOk(d.idem, i) { }
  }

  lemma EmptyIsSound()
    ensures Sound(EMPTY)
  {
    forall id ensures JobOk(EMPTY, id) { }
  }

  /** The file taken of a running Engine loads as the very state it was taken of, whatever
      the order of its hash tables and however it was cut into chunks. */
  lemma SnapshotIsTheState(f: Format, lsn: Lsn, created: Lsn, policy: Policy, events: seq<Event>, now: Time, l: Listing,
                           split: Split)
    requires EngineRun(policy, EMPTY, events, now) && Widths(Run(policy.keep, EMPTY, events)) &&
             Lists(Run(policy.keep, EMPTY, events), l)
    requires var image := Capture(Run(policy.keep, EMPTY, events), l);
             Splits(image, split) && |AllChunks(image, split)| + 1 < U64 && AllFit(AllChunks(image, split))
    ensures var d := Run(policy.keep, EMPTY, events);
            LoadSnapshot(f, lsn, Saved(f, lsn, created, Capture(d, l), split)) == Some(d)
  {
    hide EngineRun, Run, Storable, Encodable, AllChunks, AllFit, LoadSnapshot, Saved, Widths, InOrder, Described,
         Splits;
    var d := Run(policy.keep, EMPTY, events);
    RunIsStorable(policy, events, now);
    CaptureIsEncodable(d, l);
    CaptureDescribes(d, l);
    InOrderStays(d.idem);
    SnapshotRoundTrip(f, lsn, created, Capture(d, l), split);
  }

  /** A restart from a snapshot file taken anywhere in the run, and the records logged after
      it, ends where the live state does. */
  lemma RestartFromSnapshot(f: Format, lsn: Lsn, created: Lsn, policy: Policy, events: seq<Event>, now: Time, cut: nat,
                            l: Listing, split: Split, T: Time)
    requires EngineRun(policy, EMPTY, events, now) && cut <= |events| && now <= T
    requires Widths(Run(policy.keep, EMPTY, events[..cut])) && Lists(Run(policy.keep, EMPTY, events[..cut]), l)
    requires var image := Capture(Run(policy.keep, EMPTY, events[..cut]), l);
             Splits(image, split) && |AllChunks(image, split)| + 1 < U64 && AllFit(AllChunks(image, split))
    ensures var loaded := LoadSnapshot(f, lsn,
                                       Saved(f, lsn, created, Capture(Run(policy.keep, EMPTY, events[..cut]), l),
                                             split));
            && loaded.Some? && Accepted(loaded.value, Records(events[cut..]))
            && Collect(policy.keep, Replay(loaded.value, Records(events[cut..])), T) ==
               Collect(policy.keep, Run(policy.keep, EMPTY, events), T)
  {
    hide EngineRun, Run, AllChunks, AllFit, LoadSnapshot, Saved, Widths, Splits, Replay, Accepted, Collect, Records;
    RunPrefix(policy, EMPTY, events, now, cut);
    SnapshotIsTheState(f, lsn, created, policy, events[..cut], now, l, split);
    EmptyIsSound();
    ReplayEquivalence(policy, EMPTY, events, now, cut, T);
  }

  // --- when the keys are out of order --------------------------------------------------------------------

  /** In general loading gives back the state itself exactly when its keys are in order of
      expiry; a wall clock that was set back between two enqueues puts them out of it. */
  lemma SameStateIffInOrder(f: Format, lsn: Lsn, created: Lsn, d: Durable, l: Listing, split: Split)
    requires Storable(d) && Lists(d, l)
    requires var image := Capture(d, l);
             Splits(image, split) && |AllChunks(image, split)| + 1 < U64 && AllFit(AllChunks(image, split))
    ensures LoadSnapshot(f, lsn, Saved(f, lsn, created, Capture(d, l), split)) == Some(d) <==> InOrder(d.idem)
  {
    hide Storable, Encodable, AllChunks, AllFit, LoadSnapshot, Saved, InOrder, Described, Splits;
    CaptureIsEncodable(d, l);
    CaptureDescribes(d, l);
    SnapshotRoundTrip(f, lsn, created, Capture(d, l), split);
    ByExpirySorts(d.idem, 0);
    if InOrder(d.idem) { InOrderStays(d.idem); }
  }

  /** Two jobs with keys, the second enqueued after the wall clock was set back by ten: each
      key expires fifty after it was taken, and they are out of order. */
  lemma ClockSetBackDisorders()
    ensures var first := JobEnqueued(1, [97], [], 0, 1000, 1, 0, 0, [1], 1050, 1000);
            var second := JobEnqueued(2, [97], [], 0, 990, 1, 0, 0, [2], 1040, 990);
            && Accepted(EMPTY, [first, second])
            && Replay(EMPTY, [first, second]).idem == [IdemEntry([1], 1, 1050), IdemEntry([2], 2, 1040)]
            && !InOrder(Replay(EMPTY, [first, second]).idem)
  {
    var first := JobEnqueued(1, [97], [], 0, 1000, 1, 0, 0, [1], 1050, 1000);
    var second := JobEnqueued(2, [97], [], 0, 990, 1, 0, 0, [2], 1040, 990);
    assert [first, second][..1] == [first] && [first][..0] == [];
    assert Replay(EMPTY, [first]) == Apply(EMPTY, first) && Accepted(EMPTY, [first]);
    var one := IdemEntry([1], 1, 1050);
    assert Apply(EMPTY, first).idem == [one];
    assert [one][1..] == [] && Without([one], [2]) == [one];
    var idem := Replay(EMPTY, [first, second]).idem;
    assert idem[0].expiresAt > idem[1].expiresAt;
  }

  // --- what can be written --------------------------------------------------------------------------------

  /** What the Engine sees to in the records it logs, with payloads up to the limit. */
  predicate RecordOk(r: Record) {
    && (r.JobEnqueued? ==> |r.payload| <= PAYLOAD_LIMIT && |r.idemKey| <= 256 && |r.queue| <= MAX_QUEUE_NAME)
    && (r.AttemptFailed? ==> |r.error| <= 1024)
  }

  predicate JobBounded(job: Job) {
    |job.payload| <= PAYLOAD_LIMIT && |job.idemKey| <= 256 && |job.lastError| <= 1024 && |job.queue| <= MAX_QUEUE_NAME
  }

  ghost predicate StateBounded(d: Durable) {
    && (forall id | id in d.jobs :: JobBounded(d.jobs[id]))
    && (forall q | q in d.totals :: |q| <= MAX_QUEUE_NAME)
    && (forall e | e in d.idem :: |e.key| <= 256)
  }

  lemma BoundedNext(d: Durable, r: Record)
    requires StateBounded(d) && Applies(d, r) && RecordOk(r)
    ensures StateBounded(Apply(d, r))
  {
    var after := Apply(d, r);
    if r.JobEnqueued? {
      forall e | e in after.idem ensures |e.key| <= 256 { WithoutMembers(d.idem, r.idemKey, e); }
    }
  }

  lemma BoundedCollect(keep: Retention, d: Durable, now: Time)
    requires StateBounded(d)
    ensures StateBounded(Collect(keep, d, now))
  {
    var gone := DropExpiredSplits(d.idem, now);
    forall e | e in DropExpired(d.idem, now) ensures |e.key| <= 256 { assert e in gone + DropExpired(d.idem, now); }
  }

  lemma {:induction false} RunIsBounded(policy: Policy, events: seq<Event>, now: Time)
    requires EngineRun(policy, EMPTY, events, now)
    requires forall i | 0 <= i < |events| :: events[i].Logged? ==> RecordOk(events[i].record)
    ensures StateBounded(Run(policy.keep, EMPTY, events))
  {
    hide Applies, Apply, Collect, Resolved, RecordOk, StateBounded;
    if events == [] {
      NothingBounded();
    } else {
      var before, last := events[..|events| - 1], events[|events| - 1];
      var d := Run(policy.keep, EMPTY, before);
      RunIsBounded(policy, before, last.now);
      match last
      case Logged(r, _) => BoundedNext(d, r);
      case Collected(t) => BoundedCollect(policy.keep, d, t);
    }
  }

  lemma NothingBounded()
    ensures StateBounded(EMPTY)
  {
  }

  /** Whatever an Engine with payloads up to the limit has been through, its snapshot can be
      written as long as it has no more queues than the limit. */
  lemma RunIsWritable(policy: Policy, events: seq<Event>, now: Time, l: Listing)
    requires EngineRun(policy, EMPTY, events, now)
    requires forall i | 0 <= i < |events| :: events[i].Logged? ==> RecordOk(events[i].record)
    requires var d := Run(policy.keep, EMPTY, events);
             Widths(d) && Lists(d, l) && |d.totals| <= QUEUE_LIMIT && |d.jobs| + |d.idem| < U64 - 4
    ensures Writable(Capture(Run(policy.keep, EMPTY, events), l))
  {
    hide EngineRun, Run, Widths, Storable, Encodable, RecordOk;
    var d := Run(policy.keep, EMPTY, events);
    RunIsBounded(policy, events, now);
    RunIsStorable(policy, events, now);
    CaptureIsEncodable(d, l);
    DistinctSize(l.queues, d.totals.Keys);
    DistinctSize(l.ids, d.jobs.Keys);
    assert |d.totals.Keys| == |d.totals| && |d.jobs.Keys| == |d.jobs|;
    var image := Capture(d, l);
    forall i | 0 <= i < |image.jobs| ensures Bounded(image.jobs[i], PAYLOAD_LIMIT) {
      assert l.ids[i] in l.ids && JobBounded(d.jobs[l.ids[i]]);
    }
    forall i | 0 <= i < |image.queues| ensures |image.queues[i].name| <= MAX_QUEUE_NAME {
      assert l.queues[i] in l.queues;
    }
  }

  /** And the file that is written loads as the state. */
  lemma WrittenIsTheState(f: Format, lsn: Lsn, created: Lsn, policy: Policy, events: seq<Event>, now: Time, l: Listing)
    requires EngineRun(policy, EMPTY, events, now)
    requires forall i | 0 <= i < |events| :: events[i].Logged? ==> RecordOk(events[i].record)
    requires var d := Run(policy.keep, EMPTY, events);
             Widths(d) && Lists(d, l) && |d.totals| <= QUEUE_LIMIT && |d.jobs| + |d.idem| < U64 - 4
    ensures var d := Run(policy.keep, EMPTY, events);
            var image := Capture(d, l);
            && AllFit(AllChunks(image, SplitOf(image))) && |AllChunks(image, SplitOf(image))| + 1 < U64
            && LoadSnapshot(f, lsn, Saved(f, lsn, created, image, SplitOf(image))) == Some(d)
  {
    hide EngineRun, Run, Widths, RecordOk, Writable, AllFit, AllChunks, LoadSnapshot, Saved, SplitOf;
    RunIsWritable(policy, events, now, l);
    var image := Capture(Run(policy.keep, EMPTY, events), l);
    EveryChunkFits(image);
    SnapshotIsTheState(f, lsn, created, policy, events, now, l, SplitOf(image));
  }

  // --- when there are too many queues ---------------------------------------------------------------------

  /** Queues are never erased. */
  lemma {:induction false} QueuesStay(keep: Retention, d: Durable, events: seq<Event>, cut: nat)
    requires cut <= |events|
    ensures Run(keep, d, events[..cut]).totals.Keys <= Run(keep, d, events).totals.Keys
    decreases |events|
  {
    hide Applies, JobAfter, Tallied;
    if cut == |events| {
      assert events[..cut] == events;
    } else {
      var before := events[..|events| - 1];
      QueuesStay(keep, d, before, cut);
      assert before[..cut] == events[..cut];
    }
  }

  /** The queues with the longest names. */
  ghost function LongQueues(d: Durable): set<Bytes> { set q | q in d.totals && |q| == MAX_QUEUE_NAME }

  /** Once there have been so many queues with the longest names, no snapshot can be written
      any more, however the state goes on. */
  lemma NeverWrittenAgain(keep: Retention, d: Durable, events: seq<Event>, cut: nat, l: Listing)
    requires cut <= |events| && |LongQueues(Run(keep, d, events[..cut]))| >= LONG_QUEUES
    requires Lists(Run(keep, d, events), l)
    ensures var image := Capture(Run(keep, d, events), l); !AllFit(AllChunks(image, SplitOf(image)))
  {
    hide Run, MetaPiece, SplitOf, JobChunks, KeyChunks, PutFields;
    var later, first := Run(keep, d, events), Run(keep, d, events[..cut]);
    var image := Capture(later, l);
    QueuesStay(keep, d, events, cut);
    forall q | q in LongQueues(first) ensures q in Long(image.queues) {
      assert q in l.queues;
      var i :| 0 <= i < |l.queues| && l.queues[i] == q;
      assert image.queues[i].name == q;
    }
    SubsetIsFewer(LongQueues(first), Long(image.queues));
    LongNamesDoNotFit(image);
    assert AllChunks(image, SplitOf(image))[0] == Chunk(META, MetaPiece(image));
  }

  lemma {:induction false} SubsetIsFewer<A>(a: set<A>, b: set<A>)
    requires a <= b
    ensures |a| <= |b|
    decreases a
  {
    if a != {} {
      var x :| x in a;
      SubsetIsFewer(a - {x}, b - {x});
    }
  }

  /** One job to each of n queues. */
  function Spread(n: nat): (r: seq<Event>)
    ensures |r| == n
  {
    if n == 0 then [] else Spread(n - 1) + [Logged(JobEnqueued(n, LongName(n - 1), [], 0, 0, 1, 0, 0, [], 0, 0), 0)]
  }

  /** An Engine accepts them all. */
  lemma {:induction false} SpreadRuns(policy: Policy, n: nat)
    requires n <= 1_000_000
    ensures EngineRun(policy, EMPTY, Spread(n), 0)
    ensures var d := Run(policy.keep, EMPTY, Spread(n));
            && d.nextJobId == n + 1 && |LongQueues(d)| == n
            && forall q | q in d.totals :: exists i :: 0 <= i < n && q == LongName(i)
  {
    hide LongName;
    if n == 0 {
      assert LongQueues(EMPTY) == {};
    } else {
      SpreadRuns(policy, n - 1);
      var events, last := Spread(n), Spread(n)[n - 1];
      assert events[..n - 1] == Spread(n - 1);
      var before, d := Run(policy.keep, EMPTY, Spread(n - 1)), Run(policy.keep, EMPTY, events);
      assert d == Apply(before, last.record);
      assert LongQueues(d) == LongQueues(before) + {LongName(n - 1)};
      if LongName(n - 1) in before.totals {
        var i :| 0 <= i < n - 1 && LongName(n - 1) == LongName(i);
        LongNamesDiffer(i, n - 1);
      }
    }
  }

  /** So an Engine can get to where its snapshots fail for good: with one ENQUEUE to each of
      half a million queues. */
  lemma QueuesOutgrowSnapshots(policy: Policy, more: seq<Event>, l: Listing)
    requires Lists(Run(policy.keep, EMPTY, Spread(LONG_QUEUES) + more), l)
    ensures EngineRun(policy, EMPTY, Spread(LONG_QUEUES), 0)
    ensures var image := Capture(Run(policy.keep, EMPTY, Spread(LONG_QUEUES) + more), l);
            !AllFit(AllChunks(image, SplitOf(image)))
  {
    hide Run, EngineRun, Spread, AllFit, AllChunks, LongQueues, Lists;
    SpreadRuns(policy, LONG_QUEUES);
    var events := Spread(LONG_QUEUES) + more;
    assert events[..LONG_QUEUES] == Spread(LONG_QUEUES);
    NeverWrittenAgain(policy.keep, EMPTY, events, LONG_QUEUES, l);
  }
}
