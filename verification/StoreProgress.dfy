/**
 What the snapshot thread does get done: a snapshot that is wanted can be written, and a
 compaction that runs to its end leaves exactly what is to be kept.
 */
module StoreProgress {
  import opened Wrappers
  import opened LogFormat
  import opened LogRecovery
  import opened LogDisk
  import opened SimFs
  import opened SnapshotStore
  import opened StoreRuns
  import LP = LogProgress

  // --- what a compaction leaves ------------------------------------------------------------------------

  ghost predicate NoneTwice(todo: seq<Name>) { forall i, j | 0 <= i < j < |todo| :: todo[i] != todo[j] }

  /** Of the snapshots, the newest two are there and those still to be removed. */
  ghost predicate SnapshotsLeft(s: Store, snaps: seq<nat>) {
    && |snaps| >= KEEP && s.phase.Removing? && NoneTwice(s.phase.todo)
    && (s.phase.covered.Some? ==> s.phase.covered.value == snaps[KEEP - 1])
    && (forall l: nat :: Snapshot(l) in s.fs.current <==> l in snaps[..KEEP] || Snapshot(l) in s.phase.todo)
    && (forall l: nat | l in snaps[..KEEP] :: Snapshot(l) !in s.phase.todo)
    && (s.phase.any || forall l: nat | l in snaps :: Snapshot(l) in s.fs.current)
  }

  /** Of the segments that were listed, those from the k-th on are there and those still to be removed. */
  ghost predicate SegmentsLeft(s: Store, segs: seq<nat>, k: nat) {
    && s.phase.Removing? && NoneTwice(s.phase.todo) && s.phase.covered.None? && k < |segs|
    && s.books.names != [] && segs[k] <= Last(s.books)
    && (forall n: nat | n in segs :: Segment(n) in s.fs.current <==> n >= segs[k] || Segment(n) in s.phase.todo)
    && (forall n: nat | n >= segs[k] :: Segment(n) !in s.phase.todo)
    && (s.phase.any || forall n: nat | n in segs :: Segment(n) in s.fs.current)
  }

  lemma Started<S(!new)>(m: Machine<S>, s: Store, snaps: seq<nat>, s': Store)
    requires SnapNext(m, s, StartCompaction(snaps), s') && |snaps| >= KEEP
    ensures SnapshotsLeft(s', snaps)
  {
    var todo := s'.phase.todo;
    forall l: nat ensures Snapshot(l) in todo <==> l in snaps[KEEP..] {
      if l in snaps[KEEP..] {
        var i :| 0 <= i < |snaps[KEEP..]| && snaps[KEEP..][i] == l;
        assert todo[i] == Snapshot(l);
      }
    }
    assert snaps == snaps[..KEEP] + snaps[KEEP..];
    var keys := set n | n in s.fs.current && n.Snapshot? :: n.lsn;
    forall l: nat ensures Snapshot(l) in s.fs.current <==> l in snaps {
      assert l in keys <==> l in snaps;
      if Snapshot(l) in s.fs.current { assert Snapshot(l).lsn in keys; }
    }
  }

  /** The first of what is to be removed goes, and nothing else. */
  lemma RemovedOne(s: Store, s': Store)
    requires s.phase.Removing? && s.phase.todo != [] && s.phase.todo[0] in s.fs.current && NoneTwice(s.phase.todo)
    requires s' == s.(fs := s.fs.Remove(s.phase.todo[0]), phase := Removing(s.phase.todo[1..], true, s.phase.covered))
    ensures NoneTwice(s'.phase.todo)
    ensures forall n :: n in s'.phase.todo <==> n in s.phase.todo && n != s.phase.todo[0]
    ensures forall n :: n in s'.fs.current <==> n in s.fs.current && n != s.phase.todo[0]
  {
    var todo := s.phase.todo;
    assert todo == [todo[0]] + todo[1..];
  }

  lemma SnapshotsNext<S(!new)>(m: Machine<S>, s: Store, a: Action, s': Store, snaps: seq<nat>)
    requires SnapshotsLeft(s, snaps) && (LogNext(m.format, s, a, s') || SnapNext(m, s, a, s')) && s'.phase.Removing?
    requires a.ListSegments? ==> NoneTwice(s'.phase.todo)
    ensures SnapshotsLeft(s', snaps)
  {
    hide Format.EncodeAll, Format.EncodeHeader, NamesFrom, ObsoleteSegments, FirstNeeded, Newest, IsListing, Numbered;
    if a.RemoveNext? { RemovedOne(s, s'); }
  }

  lemma SegmentsNext<S(!new)>(m: Machine<S>, s: Store, a: Action, s': Store, segs: seq<nat>, k: nat)
    requires SegmentsLeft(s, segs, k) && (LogNext(m.format, s, a, s') || SnapNext(m, s, a, s')) && s'.phase.Removing?
    requires Last(s.books) <= s.books.safe + 1 && s.books.safe <= |s.books.recs| && StubOk(m.format, s)
    ensures SegmentsLeft(s', segs, k)
  {
    hide Format.EncodeAll, Format.EncodeHeader, NamesFrom, ObsoleteSegments, FirstNeeded, Newest, IsListing, Numbered;
    if a.RemoveNext? { RemovedOne(s, s'); }
  }

  /** The obsolete segments are taken down for removal. */
  lemma ListedSegments<S(!new)>(m: Machine<S>, s: Store, segs: seq<nat>, s': Store) returns (k: nat)
    requires StoreInv(m, s) && SnapNext(m, s, ListSegments(segs), s')
    ensures SegmentsLeft(s', segs, k) && Ascending(segs) && LastAtMost(segs, s.phase.covered.value + 1, k)
  {
    hide EntriesOk, FirstNeeded, ObsoleteSegments, Survivor, LastAtMost, StubOk, NamesFrom;
    CurrentSurvives(s.fs);
    var i := NeededHere(m, s, segs);
    k := FirstNeeded(segs, s.books.floor, |segs|);
    Bounds(segs, s.books.floor + 1, k);
    ObsoleteIsBeforeNeeded(segs, s.books.floor, k);
    Taken(segs, k, s'.phase.todo);
    LastOfTail(s.books.names, i, s'.books);
    EntriesFacts(m, s, s.fs.current);
    NamesAscend(m, s, i);
  }

  lemma NamesAscend<S(!new)>(m: Machine<S>, s: Store, i: nat)
    requires EntriesOk(m, s, s.fs.current) && i < |s.books.names|
    ensures s.books.names[i] <= Last(s.books)
  {
    hide Log, SnapsGood, SyncedAt, OwnFiles;
  }

  lemma LastOfTail(names: seq<nat>, i: nat, b: Books)
    requires i < |names| && b.names == names[i..]
    ensures b.names != [] && Last(b) == names[|names| - 1]
  {
  }

  lemma Bounds(segs: seq<nat>, bound: nat, k: nat)
    requires LastAtMost(segs, bound, k)
    ensures k < |segs| && segs[k] <= bound && forall j | k < j < |segs| :: segs[j] > bound
  {
  }

  lemma Taken(segs: seq<nat>, k: nat, todo: seq<Name>)
    requires Ascending(segs) && k < |segs| && todo == AsSegments(segs[..k])
    ensures NoneTwice(todo)
    ensures forall n: nat | n in segs :: n >= segs[k] || Segment(n) in todo
    ensures forall n: nat | n >= segs[k] :: Segment(n) !in todo
  {
    forall n: nat | n in segs ensures n >= segs[k] || Segment(n) in todo {
      var i :| 0 <= i < |segs| && segs[i] == n;
      if i < k { assert todo[i] == Segment(segs[..k][i]); }
    }
  }

  ghost predicate StillRemoving(states: seq<System>, i: nat, k: nat) {
    k < |states| && forall x | i < x <= k :: states[x].Up? && states[x].store.phase.Removing?
  }

  lemma StoreStepOf<S(!new)>(m: Machine<S>, states: seq<System>, actions: seq<Action>, x: nat)
    requires IsRun(m, states, actions) && x < |actions| && states[x].Up? && states[x + 1].Up?
    ensures var s, s' := states[x].store, states[x + 1].store;
            StoreInv(m, s) && (LogNext(m.format, s, actions[x], s') || SnapNext(m, s, actions[x], s'))
  {
    hide StoreInv, LogNext, SnapNext, Init;
    RunKeepsInv(m, states, actions, x);
    assert Next(m, states[x], actions[x], states[x + 1]);
  }

  lemma {:induction false} SnapshotsGo<S(!new)>(m: Machine<S>, states: seq<System>, actions: seq<Action>, i: nat,
                                                x: nat, snaps: seq<nat>)
    requires IsRun(m, states, actions) && i < x < |states| && actions[i] == StartCompaction(snaps) && |snaps| >= KEEP
    requires StillRemoving(states, i, x) && states[i].Up?
    ensures SnapshotsLeft(states[x].store, snaps)
  {
    hide IsRun, StoreInv, LogNext, SnapNext, SnapshotsLeft, NoneTwice;
    assert |states| == |actions| + 1 by { Lengths(m, states, actions); }
    StoreStepOf(m, states, actions, x - 1);
    if i == x - 1 {
      StartIsSnapStep(m, states[i].store, snaps, states[x].store);
      Started(m, states[i].store, snaps, states[x].store);
    } else {
      SnapshotsGo(m, states, actions, i, x - 1, snaps);
      var s, s', a := states[x - 1].store, states[x].store, actions[x - 1];
      if a.ListSegments? {
        ListIsSnapStep(m, s, a.segs, s');
        var k := ListedSegments(m, s, a.segs, s');
        OnceInTodo(s', a.segs, k);
      }
      SnapshotsNext(m, s, a, s', snaps);
    }
  }

  lemma Lengths<S(!new)>(m: Machine<S>, states: seq<System>, actions: seq<Action>)
    requires IsRun(m, states, actions)
    ensures |states| == |actions| + 1
  {
  }

  lemma StartIsSnapStep<S(!new)>(m: Machine<S>, s: Store, snaps: seq<nat>, s': Store)
    requires LogNext(m.format, s, StartCompaction(snaps), s') || SnapNext(m, s, StartCompaction(snaps), s')
    ensures SnapNext(m, s, StartCompaction(snaps), s')
  {
  }

  lemma ListIsSnapStep<S(!new)>(m: Machine<S>, s: Store, segs: seq<nat>, s': Store)
    requires LogNext(m.format, s, ListSegments(segs), s') || SnapNext(m, s, ListSegments(segs), s')
    ensures SnapNext(m, s, ListSegments(segs), s') && s.phase.Removing? && s.phase.covered.Some?
  {
  }

  lemma OnceInTodo(s: Store, segs: seq<nat>, k: nat)
    requires SegmentsLeft(s, segs, k)
    ensures NoneTwice(s.phase.todo)
  {
  }

  lemma {:induction false} SegmentsGo<S(!new)>(m: Machine<S>, states: seq<System>, actions: seq<Action>, j: nat, x: nat,
                                               segs: seq<nat>) returns (k: nat)
    requires IsRun(m, states, actions) && j < x < |states| && actions[j] == ListSegments(segs)
    requires StillRemoving(states, j, x) && states[j].Up?
    ensures SegmentsLeft(states[x].store, segs, k) && Ascending(segs)
    ensures var covered := if states[j].store.phase.Removing? then states[j].store.phase.covered else None;
            covered.Some? && LastAtMost(segs, covered.value + 1, k)
  {
    hide IsRun, StoreInv, LogNext, SnapNext, SegmentsLeft, LastAtMost, Ascending;
    assert |states| == |actions| + 1 by { Lengths(m, states, actions); }
    StoreStepOf(m, states, actions, x - 1);
    var s, s', a := states[x - 1].store, states[x].store, actions[x - 1];
    if j == x - 1 {
      ListIsSnapStep(m, s, segs, s');
      k := ListedSegments(m, s, segs, s');
    } else {
      k := SegmentsGo(m, states, actions, j, x - 1, segs);
      StubFacts(m, s);
      SegmentsNext(m, s, a, s', segs, k);
    }
  }

  lemma StubFacts<S(!new)>(m: Machine<S>, s: Store)
    requires StoreInv(m, s)
    ensures s.books.names != [] && Last(s.books) <= s.books.safe + 1 && s.books.safe <= |s.books.recs|
    ensures StubOk(m.format, s)
  {
    hide PhaseOk, EntriesOk, Survivor, StubOk;
  }

  lemma FinishIsSnapStep<S(!new)>(m: Machine<S>, s: Store, s': Store)
    requires LogNext(m.format, s, FinishCompaction, s') || SnapNext(m, s, FinishCompaction, s')
    ensures s.phase.Removing? && s.phase.todo == [] && s'.fs.current == s.fs.current
    ensures s.phase.any ==> s'.fs.durable == s'.fs.current
  {
  }

  /** The listed segment is of no use: a later one begins at or before what is needed first. */
  ghost predicate Useless(segs: seq<nat>, covered: nat, n: nat) {
    exists later | later in segs :: n < later <= covered + 1
  }

  /** In every run, once a compaction has finished, the snapshots are the two newest of those it found,
      and of the segments it found exactly those are gone that hold only records the older of the two
      covers, whatever the log thread did meanwhile. If anything went, it is gone for good. */
  lemma CompactionLeaves<S(!new)>(m: Machine<S>, states: seq<System>, actions: seq<Action>, i: nat, j: nat, k: nat,
                                  snaps: seq<nat>, segs: seq<nat>)
    requires IsRun(m, states, actions) && i < j < k < |actions| && states[i].Up? && StillRemoving(states, i, k)
    requires actions[i] == StartCompaction(snaps) && actions[j] == ListSegments(segs) && actions[k] == FinishCompaction
    requires |snaps| >= KEEP && states[k + 1].Up?
    ensures var current := states[k + 1].store.fs.current;
            && (forall l: nat :: Snapshot(l) in current <==> l in snaps[..KEEP])
            && (forall n: nat | n in segs :: Segment(n) in current <==> !Useless(segs, snaps[KEEP - 1], n))
            && ((exists l: nat :: l in snaps && Snapshot(l) !in current) ||
                (exists n: nat :: n in segs && Segment(n) !in current) ==>
                  states[k + 1].store.fs.durable == current)
  {
    hide IsRun, StoreInv, LogNext, SnapNext, Useless, Ascending, LastAtMost;
    assert |states| == |actions| + 1 by { Lengths(m, states, actions); }
    SnapshotsGo(m, states, actions, i, j, snaps);
    SnapshotsGo(m, states, actions, i, k, snaps);
    var first := SegmentsGo(m, states, actions, j, k, segs);
    StoreStepOf(m, states, actions, k);
    FinishIsSnapStep(m, states[k].store, states[k + 1].store);
    forall n: nat | n in segs ensures n >= segs[first] <==> !Useless(segs, snaps[KEEP - 1], n) {
      UselessIffBefore(segs, snaps[KEEP - 1], first, n);
    }
  }

  lemma UselessIffBefore(segs: seq<nat>, covered: nat, k: nat, n: nat)
    requires Ascending(segs) && LastAtMost(segs, covered + 1, k)
    ensures n < segs[k] <==> Useless(segs, covered, n)
  {
    if n < segs[k] { assert segs[k] in segs; }
    if later :| later in segs && n < later <= covered + 1 {
      var i :| 0 <= i < |segs| && segs[i] == later;
      assert i <= k;
    }
  }

  // --- a snapshot that is wanted ----------------------------------------------------------------------------

  /** Steps of the snapshot thread alone. */
  ghost predicate IsPath<S(!new)>(m: Machine<S>, states: seq<Store>, actions: seq<Action>) {
    |states| == |actions| + 1 && forall i | 0 <= i < |actions| :: SnapNext(m, states[i], actions[i], states[i + 1])
  }

  lemma PathOn<S(!new)>(m: Machine<S>, states: seq<Store>, actions: seq<Action>, a: Action, s': Store)
    requires IsPath(m, states, actions) && SnapNext(m, states[|actions|], a, s')
    ensures IsPath(m, states + [s'], actions + [a])
  {
    hide SnapNext;
    var all, acts := states + [s'], actions + [a];
    forall i | 0 <= i < |acts| ensures SnapNext(m, all[i], acts[i], all[i + 1]) {
      if i < |actions| { assert SnapNext(m, states[i], actions[i], states[i + 1]); }
    }
  }

  /** The temporary file has its name to itself. */
  lemma Begin<S(!new)>(m: Machine<S>, s: Store) returns (states: seq<Store>, actions: seq<Action>)
    requires s.phase.Idle? && s.wanted.Some? && s.wanted.value <= s.committed
    ensures IsPath(m, states, actions) && states[0] == s
    ensures var last := states[|actions|];
            && last.phase == Begun(s.wanted.value) && last.books == s.books && Temp(s.wanted.value) !in last.fs.current
  {
    hide Captures, NewestFirst, IsListing, FirstNeeded, ObsoleteSegments, NamesFrom, Newest;
    var lsn := s.wanted.value;
    var s1 := s.(phase := Begun(lsn), wanted := None);
    states, actions := [s], [];
    PathOn(m, states, actions, StartSnapshot, s1);
    states, actions := [s, s1], [StartSnapshot];
    if Temp(lsn) in s.fs.current {
      var s2 := s1.(fs := s1.fs.Remove(Temp(lsn)));
      PathOn(m, states, actions, RemoveStaleTemp, s2);
      states, actions := [s, s1, s2], [StartSnapshot, RemoveStaleTemp];
    }
  }

  /** A snapshot that is wanted and committed can be written: the snapshot thread, left alone, gets it
      into the directory for good, under its name and with what it was given to write. */
  lemma SnapshotGetsWritten<S(!new)>(m: Machine<S>, s: Store, data: Bytes)
    returns (states: seq<Store>, actions: seq<Action>)
    requires s.phase.Idle? && s.wanted.Some? && s.wanted.value <= s.committed
    requires Captures(m, s.books.recs, s.wanted.value, data)
    ensures IsPath(m, states, actions) && states[0] == s
    ensures var fs, name := states[|actions|].fs, Snapshot(s.wanted.value);
            && states[|actions|].phase.Listed? && name in fs.durable && fs.durable[name] in fs.files
            && fs.files[fs.durable[name]] == File(data, |data|) && fs.pending == []
  {
    hide Captures, SnapNext;
    var lsn := s.wanted.value;
    states, actions := Begin(m, s);
    var b := states[|actions|];
    var id := LP.Unused(b.fs.files.Keys);
    var s1 := b.(fs := b.fs.Create(Temp(lsn), id), phase := Linked(lsn, id));
    var s2 := s1.(fs := s1.fs.Append(id, data), phase := Filled(lsn, id));
    var s3 := s2.(fs := s2.fs.Sync(id), phase := Flushed(lsn, id));
    var s4 := s3.(fs := s3.fs.Move(Temp(lsn), Snapshot(lsn)), phase := Renamed);
    var s5 := s4.(fs := s4.fs.SyncDir(), phase := Listed);
    Writes(m, b, lsn, id, data, s1, s2, s3, s4, s5);
    PathOn(m, states, actions, CreateTemp(id), s1);
    states, actions := states + [s1], actions + [CreateTemp(id)];
    PathOn(m, states, actions, FillTemp(data), s2);
    states, actions := states + [s2], actions + [FillTemp(data)];
    PathOn(m, states, actions, SyncTemp, s3);
    states, actions := states + [s3], actions + [SyncTemp];
    PathOn(m, states, actions, RenameTemp, s4);
    states, actions := states + [s4], actions + [RenameTemp];
    PathOn(m, states, actions, SyncRename, s5);
    states, actions := states + [s5], actions + [SyncRename];
    assert [] + data == data;
  }

  lemma Writes<S(!new)>(m: Machine<S>, b: Store, lsn: nat, id: nat, data: Bytes, s1: Store, s2: Store, s3: Store,
                        s4: Store, s5: Store)
    requires b.phase == Begun(lsn) && Temp(lsn) !in b.fs.current && id !in b.fs.files &&
             Captures(m, b.books.recs, lsn, data)
    requires s1 == b.(fs := b.fs.Create(Temp(lsn), id), phase := Linked(lsn, id))
    requires s2 == s1.(fs := s1.fs.Append(id, data), phase := Filled(lsn, id))
    requires s3 == s2.(fs := s2.fs.Sync(id), phase := Flushed(lsn, id))
    requires s4 == s3.(fs := s3.fs.Move(Temp(lsn), Snapshot(lsn)), phase := Renamed)
    requires s5 == s4.(fs := s4.fs.SyncDir(), phase := Listed)
    ensures SnapNext(m, b, CreateTemp(id), s1) && SnapNext(m, s1, FillTemp(data), s2) && SnapNext(m, s2, SyncTemp, s3)
    ensures SnapNext(m, s3, RenameTemp, s4) && SnapNext(m, s4, SyncRename, s5)
  {
    hide Captures;
  }
}
