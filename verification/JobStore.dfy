/**
 The server across crashes: the job state on top of snapshots, compaction and the log.

 The abstract machine of the snapshot store becomes the real one. Its snapshots are the
 files an Engine writes of its live state, after whatever garbage collection it has done,
 in whatever order its hash tables are walked and in whatever chunks.
 */
module JobStore {
  import opened Wrappers
  import opened LogFormat
  import opened LogRecovery
  import opened Codec
  import opened Jobs
  import opened JobRuns
  import opened Images
  import opened SnapshotFiles
  import opened SnapshotRuns
  import opened EndToEnd
  import opened Restarts
  import opened States
  import RecordCodec
  import ReplyGates
  import LogDisk
  import SS = SnapshotStore
  import SR = StoreRuns

  /** The replay callback: what a record of the log does to the state. One that does not
      decode or does not fit ends the recovery, and there is no state any more. */
  function ApplyRec(d: Option<Durable>, rec: Rec): Option<Durable> {
    var r := RecordCodec.Decode(rec.kind, rec.payload);
    if d.Some? && r.Some? && Applies(d.value, r.value) then Some(Apply(d.value, r.value)) else None
  }

  /** A snapshot file taken after the first `cut` events of the history. */
  ghost predicate IsFile(f: Format, policy: Policy, events: seq<Event>, prefix: seq<Rec>, data: Bytes, cut: nat,
                         l: Listing, split: Split, created: Lsn) {
    && cut <= |events| && Carries(prefix, Records(events[..cut])) && |prefix| < U64
    && var d := Run(policy.keep, EMPTY, events[..cut]);
       && Widths(d) && Lists(d, l)
       && var image := Capture(d, l);
          && Splits(image, split) && |AllChunks(image, split)| + 1 < U64 && AllFit(AllChunks(image, split))
          && data == Saved(f, |prefix|, created, image, split)
  }

  ghost predicate Holds(f: Format, policy: Policy, events: seq<Event>, prefix: seq<Rec>, data: Bytes) {
    exists cut: nat, l: Listing, split: Split, created: Lsn ::
      IsFile(f, policy, events, prefix, data, cut, l, split, created)
  }

  /** The recovery did not give up, and ending the replay at any time after the history gives
      what the live state would become by collecting then. */
  ghost predicate Agrees(policy: Policy, events: seq<Event>, d: Option<Durable>) {
    d.Some? && forall T :: AgreesAt(policy, events, d.value, T)
  }

  /** The history up to, but not including, the event that logged the record after the n-th. */
  ghost predicate CutAt(events: seq<Event>, n: nat, cut: nat) {
    cut <= |events| && |Records(events[..cut])| == n && (cut == |events| || events[cut].Logged?)
  }

  /** The same for the part of the history that these many records tell of. */
  ghost predicate AgreesUpTo(policy: Policy, events: seq<Event>, n: nat, d: Option<Durable>) {
    d.Some? && forall cut: nat | CutAt(events, n, cut) :: Agrees(policy, events[..cut], d)
  }

  ghost predicate AgreesAt(policy: Policy, events: seq<Event>, d: Durable, T: Time) {
    EngineRun(policy, EMPTY, events, T) ==>
      Collect(policy.keep, d, T) == Collect(policy.keep, Run(policy.keep, EMPTY, events), T)
  }

  /** The loaded state, ready for the records after it. */
  function LoadState(f: Format, l: nat, data: Bytes): Option<Option<Durable>> {
    var d := LoadSnapshot(f, l, data);
    if d.Some? then Some(d) else None
  }

  ghost function JobMachine(f: Format, policy: Policy, events: seq<Event>): SS.Machine<Option<Durable>> {
    SS.Machine(f, Some(EMPTY), ApplyRec, (l, data) => LoadState(f, l, data),
               (prefix, data) => Holds(f, policy, events, prefix, data),
               (recs, d) => AgreesUpTo(policy, events, |recs|, d))
  }

  // --- replay -----------------------------------------------------------------------------------------

  /** Replaying the bytes is replaying the records they carry, and gives up exactly if one of
      them is refused. */
  lemma {:induction false} ReplayOfCarried(m: SS.Machine<Option<Durable>>, d: Durable, recs: seq<Rec>,
                                           records: seq<Record>)
    requires m.apply == ApplyRec && Carries(recs, records)
    ensures m.Replay(Some(d), recs) == if Accepted(d, records) then Some(Replay(d, records)) else None
    decreases |recs|
  {
    hide RecordCodec.Decode, RecordCodec.Encode, RecordCodec.InRange, RecordCodec.TypeOf, Applies, Apply;
    if recs != [] {
      var n := |recs| - 1;
      ReplayOfCarried(m, d, recs[..n], records[..n]);
      RecordCodec.RecordRoundTrip(records[n]);
    }
  }

  lemma {:induction false} RecordsSplit(events: seq<Event>, cut: nat)
    requires cut <= |events|
    ensures Records(events) == Records(events[..cut]) + Records(events[cut..])
    decreases |events|
  {
    if cut == |events| {
      assert events[..cut] == events && events[cut..] == [];
    } else {
      var before, last := events[..|events| - 1], events[|events| - 1];
      RecordsSplit(before, cut);
      assert before[..cut] == events[..cut];
      assert events[cut..][..|events| - cut - 1] == before[cut..] && events[cut..][|events| - cut - 1] == last;
    }
  }

  lemma CarriedTail(recs: seq<Rec>, records: seq<Record>, tail: seq<Record>, l: nat)
    requires l <= |recs| && Carries(recs, records + tail) && |records| == l
    ensures Carries(recs[l..], tail)
  {
    hide RecordCodec.Encode, RecordCodec.InRange, RecordCodec.TypeOf;
    forall k | 0 <= k < |recs| - l
      ensures RecordCodec.InRange(tail[k]) && recs[l..][k].kind == RecordCodec.TypeOf(tail[k]) &&
              recs[l..][k].payload == RecordCodec.Encode(tail[k])
    {
      assert (records + tail)[l + k] == tail[k];
    }
  }

  // --- cuts through the history --------------------------------------------------------------------------

  lemma {:induction false} CutExists(events: seq<Event>, n: nat) returns (cut: nat)
    requires n <= |Records(events)|
    ensures CutAt(events, n, cut)
    decreases |events|
  {
    if |Records(events)| == n {
      cut := |events|;
      assert events[..cut] == events;
    } else {
      var before := events[..|events| - 1];
      cut := CutExists(before, n);
      assert events[..cut] == before[..cut];
      if cut < |before| { assert events[cut] == before[cut]; } else { assert before[..cut] == before; }
    }
  }

  /** A cut with fewer records is earlier. */
  lemma CutIsLast(events: seq<Event>, n: nat, cut: nat, earlier: nat)
    requires CutAt(events, n, cut) && earlier <= |events| && |Records(events[..earlier])| <= n
    ensures earlier <= cut
  {
    if cut < earlier { MoreRecords(events, cut, earlier); }
  }

  lemma MoreRecords(events: seq<Event>, cut: nat, later: nat)
    requires cut < later <= |events| && events[cut].Logged?
    ensures |Records(events[..later])| > |Records(events[..cut])|
  {
    var part, next := events[..later], events[..cut + 1];
    RecordsSplit(part, cut + 1);
    assert part[..cut + 1] == next && next[..cut] == events[..cut];
  }

  lemma CutRecords(events: seq<Event>, n: nat, cut: nat)
    requires CutAt(events, n, cut)
    ensures n <= |Records(events)| && Records(events[..cut]) == Records(events)[..n]
  {
    RecordsSplit(events, cut);
  }

  lemma CarriedPart(recs: seq<Rec>, records: seq<Record>, n: nat)
    requires Carries(recs, records) && n <= |recs|
    ensures n <= |records| && Carries(recs[..n], records[..n])
  {
  }

  // --- the hypothesis of the store, met ------------------------------------------------------------------

  lemma StartAgrees(m: SS.Machine<Option<Durable>>, policy: Policy, events: seq<Event>, recs: seq<Rec>, now: Time)
    requires m.apply == ApplyRec && Carries(recs, Records(events)) && EngineRun(policy, EMPTY, events, now)
    ensures Agrees(policy, events, m.Replay(Some(EMPTY), recs))
  {
    hide Carries, Replay, Run, Collect, EngineRun, Accepted;
    ReplayOfCarried(m, EMPTY, recs, Records(events));
    EmptyIsSound();
    NothingRun(policy, events);
    ReplayEquivalence(policy, EMPTY, events, now, 0, now);
    var d := m.Replay(Some(EMPTY), recs).value;
    forall T ensures AgreesAt(policy, events, d, T) {
      if EngineRun(policy, EMPTY, events, T) { ReplayEquivalence(policy, EMPTY, events, T, 0, T); }
    }
  }

  lemma NothingRun(policy: Policy, events: seq<Event>)
    ensures Run(policy.keep, EMPTY, events[..0]) == EMPTY && events[0..] == events
  {
  }

  lemma FileAgrees(m: SS.Machine<Option<Durable>>, f: Format, policy: Policy, events: seq<Event>, recs: seq<Rec>,
                   now: Time, l: nat, data: Bytes)
    requires m.apply == ApplyRec && Carries(recs, Records(events)) && EngineRun(policy, EMPTY, events, now)
    requires l <= |recs| && Holds(f, policy, events, recs[..l], data)
    ensures var loaded := LoadSnapshot(f, l, data);
            loaded.Some? && Agrees(policy, events, m.Replay(loaded, recs[l..]))
  {
    hide Carries, Replay, Run, Collect, EngineRun, Widths, Lists, Splits, AllChunks, AllFit, Saved, LoadSnapshot,
         Records, Accepted;
    var cut: nat, list: Listing, split: Split,
      created: Lsn :| IsFile(f, policy, events, recs[..l], data, cut, list, split, created);
    RecordsSplit(events, cut);
    CarriedLength(recs[..l], Records(events[..cut]));
    CarriedTail(recs, Records(events[..cut]), Records(events[cut..]), l);
    RestartFromSnapshot(f, l, created, policy, events, now, cut, list, split, now);
    var start := LoadSnapshot(f, l, data).value;
    ReplayOfCarried(m, start, recs[l..], Records(events[cut..]));
    var d := m.Replay(Some(start), recs[l..]).value;
    forall T ensures AgreesAt(policy, events, d, T) {
      if EngineRun(policy, EMPTY, events, T) {
        RestartFromSnapshot(f, l, created, policy, events, T, cut, list, split, T);
      }
    }
  }

  lemma CarriedLength(recs: seq<Rec>, records: seq<Record>)
    requires Carries(recs, records)
    ensures |recs| == |records|
  {
  }

  /** A file of a history that holds no more records than a part of it is a file of that part. */
  lemma HoldsOfPart(f: Format, policy: Policy, events: seq<Event>, n: nat, cut: nat, prefix: seq<Rec>, data: Bytes)
    requires CutAt(events, n, cut) && |prefix| <= n && Holds(f, policy, events, prefix, data)
    ensures Holds(f, policy, events[..cut], prefix, data)
  {
    hide Carries, Run, Widths, Lists, Splits, AllChunks, AllFit, Saved;
    var c: nat, l: Listing, split: Split,
      created: Lsn :| IsFile(f, policy, events, prefix, data, c, l, split, created);
    CarriedLength(prefix, Records(events[..c]));
    CutIsLast(events, n, cut, c);
    assert events[..cut][..c] == events[..c];
    assert IsFile(f, policy, events[..cut], prefix, data, c, l, split, created);
  }

  /** The job state meets the hypothesis of the store for every part of the log. */
  lemma JobsRestore(f: Format, policy: Policy, events: seq<Event>, recs: seq<Rec>, n: nat, T: Time)
    requires EngineRun(policy, EMPTY, events, T) && Carries(recs, Records(events)) && n <= |recs|
    ensures JobMachine(f, policy, events).Restores(recs[..n])
  {
    hide Carries, EngineRun, Holds, AgreesUpTo, LoadSnapshot, Records;
    var m, part := JobMachine(f, policy, events), recs[..n];
    StartRestores(m, policy, events, recs, n, T);
    forall l: nat, data: Bytes ensures m.RestoresFrom(part, l, data) {
      if l <= n && m.holds(part[..l], data) { FileRestores(m, f, policy, events, recs, n, T, l, data); }
    }
  }

  lemma StartRestores(m: SS.Machine<Option<Durable>>, policy: Policy, events: seq<Event>, recs: seq<Rec>, n: nat,
                      T: Time)
    requires m.apply == ApplyRec && m.init == Some(EMPTY) && n <= |recs|
    requires EngineRun(policy, EMPTY, events, T) && Carries(recs, Records(events))
    ensures AgreesUpTo(policy, events, n, m.Replay(m.init, recs[..n]))
  {
    hide Carries, EngineRun, Agrees, Records;
    CarriedLength(recs, Records(events));
    var some := CutExists(events, n);
    StartUpTo(m, policy, events, recs, n, some, T);
    forall cut: nat | CutAt(events, n, cut) ensures Agrees(policy, events[..cut], m.Replay(m.init, recs[..n])) {
      StartUpTo(m, policy, events, recs, n, cut, T);
    }
  }

  lemma FileRestores(m: SS.Machine<Option<Durable>>, f: Format, policy: Policy, events: seq<Event>, recs: seq<Rec>,
                     n: nat, T: Time, l: nat, data: Bytes)
    requires m.apply == ApplyRec && l <= n <= |recs| && Holds(f, policy, events, recs[..n][..l], data)
    requires EngineRun(policy, EMPTY, events, T) && Carries(recs, Records(events))
    ensures LoadSnapshot(f, l, data).Some?
    ensures AgreesUpTo(policy, events, n, m.Replay(LoadSnapshot(f, l, data), recs[..n][l..]))
  {
    hide Carries, EngineRun, Holds, Agrees, LoadSnapshot, Records;
    CarriedLength(recs, Records(events));
    var some := CutExists(events, n);
    FileUpTo(m, f, policy, events, recs, n, some, T, l, data);
    forall cut: nat | CutAt(events, n, cut)
      ensures Agrees(policy, events[..cut], m.Replay(LoadSnapshot(f, l, data), recs[..n][l..]))
    {
      FileUpTo(m, f, policy, events, recs, n, cut, T, l, data);
    }
  }

  lemma StartUpTo(m: SS.Machine<Option<Durable>>, policy: Policy, events: seq<Event>, recs: seq<Rec>, n: nat, cut: nat,
                  T: Time)
    requires m.apply == ApplyRec && m.init == Some(EMPTY)
    requires EngineRun(policy, EMPTY, events, T) && Carries(recs, Records(events)) && n <= |recs| &&
             CutAt(events, n, cut)
    ensures Agrees(policy, events[..cut], m.Replay(m.init, recs[..n]))
    ensures m.Replay(m.init, recs[..n]).Some?
  {
    hide Carries, EngineRun, Records, AgreesAt;
    CutRecords(events, n, cut);
    CarriedPart(recs, Records(events), n);
    RunPrefix(policy, EMPTY, events, T, cut);
    StartAgrees(m, policy, events[..cut], recs[..n], T);
  }

  lemma FileUpTo(m: SS.Machine<Option<Durable>>, f: Format, policy: Policy, events: seq<Event>, recs: seq<Rec>, n: nat,
                 cut: nat, T: Time, l: nat, data: Bytes)
    requires m.apply == ApplyRec && l <= n <= |recs| && Holds(f, policy, events, recs[..n][..l], data)
    requires EngineRun(policy, EMPTY, events, T) && Carries(recs, Records(events)) && CutAt(events, n, cut)
    ensures var loaded := LoadSnapshot(f, l, data);
            && loaded.Some? && Agrees(policy, events[..cut], m.Replay(loaded, recs[..n][l..]))
            && m.Replay(loaded, recs[..n][l..]).Some?
  {
    hide Carries, EngineRun, Records, Holds, LoadSnapshot, AgreesAt;
    CutRecords(events, n, cut);
    CarriedPart(recs, Records(events), n);
    RunPrefix(policy, EMPTY, events, T, cut);
    HoldsOfPart(f, policy, events, n, cut, recs[..n][..l], data);
    FileAgrees(m, f, policy, events[..cut], recs[..n], T, l, data);
  }

  // --- the theorem ------------------------------------------------------------------------------------------

  /** A server that crashed comes back. Its Engine has had the history `events`, of which the
      records reached the log files; snapshots were taken at any points of it and compactions
      ran; crashes and restarts happened anywhere, tearing what was not synced; the newest
      snapshot may even be unreadable. Then recovery succeeds unless the torn bytes hold a
      plausible record. No record is refused on the way, everything committed is there, and
      ending the replay at T gives exactly what the live state would have become by collecting
      at T, had its history ended with the last record that is there. */
  lemma CrashedServerComesBack(f: Format, policy: Policy, events: seq<Event>, T: Time, states: seq<SR.System>,
                               actions: seq<SR.Action>, j: nat, read: SS.View, snaps: seq<nat>, all: seq<nat>)
    requires EngineRun(policy, EMPTY, events, T)
    requires SR.IsRun(JobMachine(f, policy, events), states, actions) && j < |states| && states[j].Down?
    requires Carries(states[j].books.recs, Records(events))
    requires SS.NewestFirst(snaps, SS.SnapshotLsns(states[j].view)) && IsListing(all, SS.Segments(states[j].view).Keys)
    requires SS.NewestMayBeBad(JobMachine(f, policy, events), states[j].view, read, snaps)
    ensures SS.NewestFirst(snaps, SS.SnapshotLsns(read)) && IsListing(all, SS.Segments(read).Keys)
    ensures var r, s := SS.RebuildSpec(JobMachine(f, policy, events), read, snaps, all), states[j];
            && s.books.names != [] && SS.Segment(SR.Last(s.books)) in s.view
            && (r.Rebuilt? <==>
                LogDisk.NothingValidTorn(f, s.view[SS.Segment(SR.Last(s.books))], SR.Last(s.books)))
            && (r.Rebuilt? ==>
                  && r.state.Some? && s.committed <= r.last <= |Records(events)|
                  && forall cut: nat | CutAt(events, r.last, cut) ::
                       Collect(policy.keep, r.state.value, T) ==
                       Collect(policy.keep, Run(policy.keep, EMPTY, events[..cut]), T))
  {
    hide *;
    var m, s := JobMachine(f, policy, events), states[j];
    forall n | s.committed <= n <= |s.books.recs| ensures m.Restores(s.books.recs[..n]) {
      JobsRestore(f, policy, events, s.books.recs, n, T);
    }
    SR.CrashTransparent(m, states, actions, j, read, snaps, all);
    CarriedLength(s.books.recs, Records(events));
    var r := SS.RebuildSpec(m, read, snaps, all);
    FormatOf(f, policy, events);
    if r.Rebuilt? { AgreesThere(f, policy, events, s.books.recs[..r.last], r.state, T); }
  }

  lemma FormatOf(f: Format, policy: Policy, events: seq<Event>)
    ensures JobMachine(f, policy, events).format == f
  {
  }

  lemma AgreesThere(f: Format, policy: Policy, events: seq<Event>, recs: seq<Rec>, d: Option<Durable>, T: Time)
    requires JobMachine(f, policy, events).agrees(recs, d) && EngineRun(policy, EMPTY, events, T)
    ensures d.Some?
    ensures forall cut: nat | CutAt(events, |recs|, cut) ::
              Collect(policy.keep, d.value, T) == Collect(policy.keep, Run(policy.keep, EMPTY, events[..cut]), T)
  {
    hide EngineRun, Run, Collect, Records;
    forall cut: nat | CutAt(events, |recs|, cut)
      ensures Collect(policy.keep, d.value, T) == Collect(policy.keep, Run(policy.keep, EMPTY, events[..cut]), T)
    {
      RunPrefix(policy, EMPTY, events, T, cut);
      assert AgreesAt(policy, events[..cut], d.value, T);
    }
  }

  // --- replies and compaction ---------------------------------------------------------------------------------

  /** The promise of a released ENQUEUE reply, for a server that group-commits, snapshots and
      compacts: once the reply was out, with the log committed as far as in state i, a crash
      of any later state brings the job back, unless a DLQ purge of it was logged or it had
      finished and its retention is over. */
  lemma ReleasedJobSurvives(f: Format, policy: Policy, events: seq<Event>, T: Time, states: seq<SR.System>,
                            actions: seq<SR.Action>, i: nat, j: nat, read: SS.View, snaps: seq<nat>, all: seq<nat>,
                            lsn: nat, gate: ReplyGates.ReplyGate, conn: ReplyGates.ConnId, k: nat, cut: nat)
    requires EngineRun(policy, EMPTY, events, T)
    requires SR.IsRun(JobMachine(f, policy, events), states, actions) && i <= j < |states| && states[j].Down?
    requires Carries(states[j].books.recs, Records(events))
    requires SS.NewestFirst(snaps, SS.SnapshotLsns(states[j].view)) && IsListing(all, SS.Segments(states[j].view).Keys)
    requires SS.NewestMayBeBad(JobMachine(f, policy, events), states[j].view, read, snaps)
    requires gate.Valid() && conn in gate.conns && gate.committed <= SR.Committed(states[i])
    requires k < gate.accounts[conn].released && k < |gate.accounts[conn].replies| &&
             1 <= lsn <= gate.accounts[conn].replies[k].lsn
    requires lsn <= |Records(events)| ==> Records(events)[lsn - 1].JobEnqueued?
    ensures lsn <= |Records(events)|
    ensures SS.NewestFirst(snaps, SS.SnapshotLsns(read)) && IsListing(all, SS.Segments(read).Keys)
    ensures var r := SS.RebuildSpec(JobMachine(f, policy, events), read, snaps, all);
            r.Rebuilt? && CutAt(events, r.last, cut) ==>
              && r.state.Some? && lsn <= r.last
              && var recs := Records(events[..cut]);
                 var id, full := Records(events)[lsn - 1].id, Replay(EMPTY, recs);
                 || id in Collect(policy.keep, r.state.value, T).jobs || PurgedAfter(recs, lsn - 1, id)
                 || (id in full.jobs && Past(policy.keep, full.jobs[id], T))
  {
    hide *;
    var m := JobMachine(f, policy, events);
    ReleasedIsCommitted(m, states, actions, i, j, lsn, gate, conn, k);
    CarriedLength(states[j].books.recs, Records(events));
    CrashedServerComesBack(f, policy, events, T, states, actions, j, read, snaps, all);
    var r := SS.RebuildSpec(m, read, snaps, all);
    if r.Rebuilt? && CutAt(events, r.last, cut) {
      KnownAtCut(policy, events, T, r.last, cut, lsn);
      CutIsWithin(events, r.last, cut);
    }
  }

  lemma CutIsWithin(events: seq<Event>, n: nat, cut: nat)
    requires CutAt(events, n, cut)
    ensures cut <= |events|
  {
  }

  /** What a released reply waited for stays committed. */
  lemma ReleasedIsCommitted(m: SS.Machine<Option<Durable>>, states: seq<SR.System>, actions: seq<SR.Action>, i: nat,
                            j: nat, lsn: nat, gate: ReplyGates.ReplyGate, conn: ReplyGates.ConnId, k: nat)
    requires SR.IsRun(m, states, actions) && i <= j < |states| && states[j].Down?
    requires gate.Valid() && conn in gate.conns && gate.committed <= SR.Committed(states[i])
    requires k < gate.accounts[conn].released && k < |gate.accounts[conn].replies| &&
             1 <= lsn <= gate.accounts[conn].replies[k].lsn
    ensures lsn <= states[j].committed <= |states[j].books.recs|
  {
    hide ReplyGates.ReplyGate.Valid, SR.IsRun;
    gate.NothingEarly(conn);
    SR.AcknowledgedForever(m, states, actions, i, j);
  }

  /** A job enqueued before the cut is known there. */
  lemma KnownAtCut(policy: Policy, events: seq<Event>, T: Time, n: nat, cut: nat, lsn: nat)
    requires EngineRun(policy, EMPTY, events, T) && CutAt(events, n, cut) && 1 <= lsn <= n
    requires lsn <= |Records(events)| ==> Records(events)[lsn - 1].JobEnqueued?
    ensures lsn <= |Records(events)|
    ensures var recs := Records(events[..cut]);
            var id, full := Records(events)[lsn - 1].id, Replay(EMPTY, recs);
            || id in Collect(policy.keep, Run(policy.keep, EMPTY, events[..cut]), T).jobs
            || PurgedAfter(recs, lsn - 1, id) || (id in full.jobs && Past(policy.keep, full.jobs[id], T))
  {
    hide EngineRun, Run, Records, Replay, Accepted, PurgedAfter, Past;
    CutRecords(events, n, cut);
    RunPrefix(policy, EMPTY, events, T, cut);
    EmptyIsSound();
    NothingRun(policy, events[..cut]);
    ReplayEquivalence(policy, EMPTY, events[..cut], T, 0, T);
    EnqueuedIsKnown(Records(events[..cut]), lsn - 1);
  }

  // --- the restart as it runs -----------------------------------------------------------------------------------

  lemma FinishedNext(d: Durable, r: Record, now: Time)
    requires FinishedBy(d, now) && Applies(d, r) && (!r.JobsPurged? ==> r.at <= now)
    ensures FinishedBy(Apply(d, r), now)
  {
  }

  lemma FinishedCollect(keep: Retention, d: Durable, t: Time, now: Time)
    requires FinishedBy(d, now)
    ensures FinishedBy(Collect(keep, d, t), now)
  {
  }

  lemma FinishedLater(d: Durable, now: Time, later: Time)
    requires FinishedBy(d, now) && now <= later
    ensures FinishedBy(d, later)
  {
  }

  /** No job of a run has finished in the future. */
  lemma {:induction false} RunFinished(policy: Policy, events: seq<Event>, now: Time)
    requires EngineRun(policy, EMPTY, events, now)
    ensures FinishedBy(Run(policy.keep, EMPTY, events), now)
  {
    hide FinishedBy, Applies, Apply, Collect;
    if events == [] {
      assert FinishedBy(EMPTY, now) by { NobodyFinished(now); }
    } else {
      var before, last := events[..|events| - 1], events[|events| - 1];
      var d := Run(policy.keep, EMPTY, before);
      RunFinished(policy, before, last.now);
      match last
      case Logged(r, t) =>
        LoggedAt(policy, d, r, t);
        FinishedNext(d, r, t);
        FinishedLater(Apply(d, r), t, now);
      case Collected(t) =>
        FinishedCollect(policy.keep, d, t, t);
        FinishedLater(Collect(policy.keep, d, t), t, now);
    }
  }

  lemma NobodyFinished(now: Time)
    ensures FinishedBy(EMPTY, now)
  {
  }

  lemma LoggedAt(policy: Policy, d: Durable, r: Record, t: Time)
    requires Applies(d, r) && Resolved(policy, d, r, t)
    ensures !r.JobsPurged? ==> r.at == t
  {
  }

  /** Nor has one of what is replayed from an image. */
  lemma {:induction false} ReplayFinished(policy: Policy, events: seq<Event>, now: Time, cut: nat)
    requires EngineRun(policy, EMPTY, events, now) && cut <= |events|
    ensures FinishedBy(Replay(Run(policy.keep, EMPTY, events[..cut]), Records(events[cut..])), now)
    decreases |events|
  {
    hide FinishedBy, Applies, Apply, Collect, Resolved;
    if cut == |events| {
      assert events[..cut] == events && events[cut..] == [];
      RunFinished(policy, events, now);
    } else {
      var before, last := events[..|events| - 1], events[|events| - 1];
      var image, tail := Run(policy.keep, EMPTY, events[..cut]), Records(before[cut..]);
      assert before[..cut] == events[..cut] && events[cut..] == before[cut..] + [last];
      ReplayFinished(policy, before, last.now, cut);
      RecordsNext(before[cut..], last);
      FinishedLater(Replay(image, tail), last.now, now);
      if last.Logged? {
        LoggedAt(policy, Run(policy.keep, EMPTY, before), last.record, last.now);
        ReplayNext(image, tail, last.record);
        if Applies(Replay(image, tail), last.record) { FinishedNext(Replay(image, tail), last.record, now); }
      } else {
        assert tail + [] == tail;
      }
    }
  }

  /** Restarting from a snapshot file that was taken anywhere in the history: loading it chunk
      by chunk, replaying the later records on the State and ending the replay gives a State
      with every index in place that holds what the live one would hold after collecting. */
  method RestartFromFile(f: Format, lsn: Lsn, file: Bytes, tail: seq<Record>, policy: Policy, T: Time, mono: nat,
                         grace: int,
                         ghost events: seq<Event>, ghost cut: nat, ghost l: Listing, ghost split: Split,
                         ghost created: Lsn)
    returns (state: Option<State>)
    requires EngineRun(policy, EMPTY, events, T) && cut <= |events| && tail == Records(events[cut..])
    requires var d := Run(policy.keep, EMPTY, events[..cut]); Widths(d) && Lists(d, l) && |d.jobs| + |tail| <= LIMIT
    requires var image := Capture(Run(policy.keep, EMPTY, events[..cut]), l);
             && Splits(image, split) && |AllChunks(image, split)| + 1 < U64 && AllFit(AllChunks(image, split))
             && file == Saved(f, lsn, created, image, split)
    ensures state.Some? && fresh(state.value) && state.value.Valid() && !state.value.replaying
    ensures state.value.OnTime({}) && state.value.Sharp() && state.value.Chronological()
    ensures state.value.Persistent() == Collect(policy.keep, Run(policy.keep, EMPTY, events), T)
  {
    hide EngineRun, Run, Widths, Lists, Splits, AllChunks, AllFit, Saved, LoadSnapshot, Records, Collect, Replay,
         Accepted, State.Valid, State.OnTime,
         AllSharp, Oldest, FinishedBy, Sound;
    RunPrefix(policy, EMPTY, events, T, cut);
    SnapshotIsTheState(f, lsn, created, policy, events[..cut], T, l, split);
    RestartFromSnapshot(f, lsn, created, policy, events, T, cut, l, split, T);
    ReplayFinished(policy, events, T, cut);
    var loaded := LoadFile(f, lsn, file);
    RunIsStorable(policy, events[..cut], T);
    KeysOfStorable(loaded.value);
    state := Restart(policy.keep, loaded, tail, T, mono, grace);
  }

  lemma KeysOfStorable(d: Durable)
    requires Storable(d)
    ensures Sound(d) && KeysApart(d.idem)
  {
    hide Sound;
    forall i, j | 0 <= i < j < |d.idem| ensures d.idem[i].key != d.idem[j].key { assert KeyOk(d.idem, j); }
  }
}
