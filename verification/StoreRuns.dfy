/**
 The data directory of a running server: the log, snapshots and compaction, under crashes.

 One system for the log thread, which writes batches, syncs them, commits and rolls to new
 segments, and the snapshot thread, which writes snapshots and compacts. Every file-system
 operation is a step, and they interleave in any way. A snapshot is started only once the
 log is committed up to it. A crash tears what was not synced and keeps any subset of the
 directory changes that were not synced; a second crash may come after the repairs of
 recovery. The sync policy is `always`.
 */
module StoreRuns {
  import opened Wrappers
  import opened LogFormat
  import opened LogRecovery
  import opened LogDisk
  import opened SimFs
  import opened SnapshotStore
  import LW = LogWriter

  /** What the snapshot thread is about to do. */
  datatype Phase =
    | Idle
    | Begun(lsn: nat)                    // write_snapshot() entered
    | Linked(lsn: nat, id: nat)          // temporary file created
    | Filled(lsn: nat, id: nat)          // chunks appended
    | Flushed(lsn: nat, id: nat)         // temporary file synced
    | Renamed                            // renamed, directory not synced yet
    | Listed                             // directory synced; compact() comes next
    | Removing(todo: seq<Name>, any: bool, covered: Option<nat>)  // segments up to `covered` come after these
  {
    predicate Writing() { Linked? || Filled? || Flushed? }
  }

  /** The segment the log thread is creating. */
  datatype Stub =
    | NoStub
    | Headless(first: nat, id: nat)      // file created
    | Unsynced(first: nat, id: nat)      // header appended
    | Unlisted(first: nat, id: nat)      // header synced, directory not synced yet
  {
    function Number(): nat { if NoStub? then 0 else first }

    predicate Names(n: Name) { !NoStub? && n == Segment(first) }
  }

  /** `active` is the file of the newest segment, `wanted` the LSN of an image that waits for
      the log to be committed up to it. */
  datatype Store = Store(fs: Fs<Name>, books: Books, committed: nat, wanted: Option<nat>, phase: Phase, active: nat,
                         stub: Stub)

  datatype System =
    | Up(store: Store)
    | Down(view: View, books: Books, committed: nat)

  function Committed(s: System): nat { if s.Up? then s.store.committed else s.committed }

  function BooksOf(s: System): Books { if s.Up? then s.store.books else s.books }

  datatype Action =
    | WriteBatch(more: seq<Rec>) | SyncBatch | Commit                           // log thread: write_batch()
    | CreateSegment(id: nat) | WriteHeader | SyncHeader | SyncSegment           // create_segment()
    | RequestSnapshot(lsn: nat) | StartSnapshot                                 // owner: drive_snapshots()
    | RemoveStaleTemp | CreateTemp(id: nat) | FillTemp(data: Bytes) | SyncTemp | RenameTemp | SyncRename
    | StartCompaction(snaps: seq<nat>) | ListSegments(segs: seq<nat>) | RemoveNext | FinishCompaction
    | Crash(chosen: seq<bool>, image: View)
    | CrashAgain(from: nat, all: seq<nat>)                                      // during recovery, after its repairs
    | Reopen(from: nat, all: seq<nat>, ids: map<Name, nat>)

  /** Segments lying entirely at or before the covered LSN, except the newest. */
  function ObsoleteSegments(segs: seq<nat>, covered: nat): seq<nat> {
    if |segs| >= 2 && segs[1] <= covered + 1 then [segs[0]] + ObsoleteSegments(segs[1..], covered) else []
  }

  function AsSnapshots(ls: seq<nat>): (r: seq<Name>)
    ensures |r| == |ls| && forall i | 0 <= i < |ls| :: r[i] == Snapshot(ls[i])
  {
    seq(|ls|, i requires 0 <= i < |ls| => Snapshot(ls[i]))
  }

  function AsSegments(ns: seq<nat>): (r: seq<Name>)
    ensures |r| == |ns| && forall i | 0 <= i < |ns| :: r[i] == Segment(ns[i])
  {
    seq(|ns|, i requires 0 <= i < |ns| => Segment(ns[i]))
  }

  /** The obsolete segments are exactly those before the first one still needed. */
  lemma {:induction false} ObsoleteIsBeforeNeeded(segs: seq<nat>, covered: nat, k: nat)
    requires (forall i, j | 0 <= i < j < |segs| :: segs[i] < segs[j])
    requires k < |segs| && segs[k] <= covered + 1 && (forall j | k < j < |segs| :: segs[j] > covered + 1)
    ensures ObsoleteSegments(segs, covered) == segs[..k]
    decreases k
  {
    if k > 0 {
      assert segs[1] <= segs[k];
      ObsoleteIsBeforeNeeded(segs[1..], covered, k - 1);
      assert segs[..k] == [segs[0]] + segs[1..][..k - 1];
    }
  }

  /** The two newest of the listed snapshots, or all if there are fewer. */
  function Newest(snaps: seq<nat>): set<nat> {
    var two := if |snaps| < KEEP then snaps else snaps[..KEEP];
    set l | l in two
  }

  /** The names from this one on. */
  function NamesFrom(names: seq<nat>, first: nat): seq<nat> {
    if names == [] || names[0] >= first then names else NamesFrom(names[1..], first)
  }

  function Last(b: Books): nat
    requires b.names != []
  {
    b.names[|b.names| - 1]
  }

  // --- the log thread -----------------------------------------------------------------------------

  ghost predicate LogNext(f: Format, s: Store, a: Action, s': Store) {
    var b := s.books;
    match a
    case WriteBatch(more) =>
      && s.stub.NoStub? && b.safe == |b.recs| && more != [] && Numbered(b.recs + more, 1) && s.active in s.fs.files
      && s' == s.(fs := s.fs.Append(s.active, f.EncodeAll(more)), books := b.(recs := b.recs + more))
    case SyncBatch =>
      && s.stub.NoStub? && s.active in s.fs.files
      && s' == s.(fs := s.fs.Sync(s.active), books := b.(safe := |b.recs|))
    case Commit => s' == s.(committed := b.safe)
    case CreateSegment(id) =>
      var first := |b.recs| + 1;
      && s.stub.NoStub? && b.safe == |b.recs| && first < 0x1_0000_0000_0000_0000
      && b.names != [] && Last(b) < first && id !in s.fs.files && Segment(first) !in s.fs.current
      && s' == s.(fs := s.fs.Create(Segment(first), id), stub := Headless(first, id))
    case WriteHeader =>
      && s.stub.Headless? && s.stub.id in s.fs.files && s.stub.first < 0x1_0000_0000_0000_0000
      && s' == s.(fs := s.fs.Append(s.stub.id, f.EncodeHeader(s.stub.first)),
                  stub := Unsynced(s.stub.first, s.stub.id))
    case SyncHeader =>
      && s.stub.Unsynced? && s.stub.id in s.fs.files
      && s' == s.(fs := s.fs.Sync(s.stub.id), stub := Unlisted(s.stub.first, s.stub.id))
    case SyncSegment =>
      && s.stub.Unlisted?
      && s' == s.(fs := s.fs.SyncDir(), books := b.(names := b.names + [s.stub.first]), active := s.stub.id,
                  stub := NoStub)
    case _ => false
  }

  // --- the owner and the snapshot thread -------------------------------------------------------------

  ghost predicate SnapNext<S(!new)>(m: Machine<S>, s: Store, a: Action, s': Store) {
    var b := s.books;
    match a
    case RequestSnapshot(lsn) => s.wanted.None? && s' == s.(wanted := Some(lsn))
    case StartSnapshot =>
      && s.phase.Idle? && s.wanted.Some? && s.wanted.value <= s.committed
      && s' == s.(phase := Begun(s.wanted.value), wanted := None)
    case RemoveStaleTemp =>
      && s.phase.Begun? && Temp(s.phase.lsn) in s.fs.current
      && s' == s.(fs := s.fs.Remove(Temp(s.phase.lsn)))
    case CreateTemp(id) =>
      && s.phase.Begun? && Temp(s.phase.lsn) !in s.fs.current && id !in s.fs.files
      && s' == s.(fs := s.fs.Create(Temp(s.phase.lsn), id), phase := Linked(s.phase.lsn, id))
    case FillTemp(data) =>
      && s.phase.Linked? && s.phase.id in s.fs.files && Captures(m, b.recs, s.phase.lsn, data)
      && s' == s.(fs := s.fs.Append(s.phase.id, data), phase := Filled(s.phase.lsn, s.phase.id))
    case SyncTemp =>
      && s.phase.Filled? && s.phase.id in s.fs.files
      && s' == s.(fs := s.fs.Sync(s.phase.id), phase := Flushed(s.phase.lsn, s.phase.id))
    case RenameTemp =>
      && s.phase.Flushed? && Temp(s.phase.lsn) in s.fs.current
      && s' == s.(fs := s.fs.Move(Temp(s.phase.lsn), Snapshot(s.phase.lsn)), phase := Renamed)
    case SyncRename => s.phase.Renamed? && s' == s.(fs := s.fs.SyncDir(), phase := Listed)
    case StartCompaction(snaps) =>
      && s.phase.Listed? && NewestFirst(snaps, set n | n in s.fs.current && n.Snapshot? :: n.lsn)
      && var spare := if |snaps| < KEEP then [] else snaps[KEEP..];
         var covered := if |snaps| < KEEP then None else Some(snaps[KEEP - 1]);
         s' == s.(phase := Removing(AsSnapshots(spare), false, covered),
                  books := b.(kept := Newest(snaps), floor := if covered.Some? then covered.value else b.floor))
    case RemoveNext =>
      && s.phase.Removing? && s.phase.todo != [] && s.phase.todo[0] in s.fs.current
      && s' == s.(fs := s.fs.Remove(s.phase.todo[0]), phase := Removing(s.phase.todo[1..], true, s.phase.covered))
    case ListSegments(segs) =>
      && s.phase.Removing? && s.phase.todo == [] && s.phase.covered.Some? && segs != []
      && IsListing(segs, set n | n in s.fs.current && n.Segment? :: n.first)
      && var covered := s.phase.covered.value;
         s' == s.(phase := Removing(AsSegments(ObsoleteSegments(segs, covered)), s.phase.any, None),
                  books := b.(names := NamesFrom(b.names, segs[FirstNeeded(segs, covered, |segs|)])))
    case FinishCompaction =>
      && s.phase.Removing? && s.phase.todo == [] && s.phase.covered.None?
      && s' == s.(fs := if s.phase.any then s.fs.SyncDir() else s.fs, phase := Idle)
    case _ => false
  }

  // --- crashes and recovery ----------------------------------------------------------------------------

  /** Whatever parses in a surviving segment was written there. */
  ghost predicate HonestView(f: Format, fs: Fs<Name>, chosen: seq<bool>, image: View)
    requires |chosen| == |fs.pending| && fs.TornTo(chosen, image)
  {
    forall n: Name | n in image && n.Segment? ::
      Honest(f, image[n], fs.files[ApplyChosen(fs.durable, fs.pending, chosen)[n]].data)
  }

  /** A snapshot recovery may start from, or none. */
  ghost predicate MayPick(view: View, floor: nat, from: nat) {
    floor <= from && (from == 0 || Snapshot(from) in view)
  }

  /** The directory with its segments as recovery left them, and without temporary files. */
  ghost function Mended(view: View, dir: Directory): View {
    map n | n in view && !n.Temp? && (n.Segment? ==> n.first in dir) :: if n.Segment? then dir[n.first] else view[n]
  }

  /** The books after recovery has left so many records. */
  function MendedBooks(b: Books, log: Recovered): Books {
    Books(if log.last <= |b.recs| then b.recs[..log.last] else b.recs, log.last,
          if log.removed && b.names != [] then b.names[..|b.names| - 1] else b.names, b.floor, b.kept)
  }

  ghost predicate CanRecover<S(!new)>(m: Machine<S>, s: System, from: nat, all: seq<nat>)
  {
    && s.Down? && IsListing(all, Segments(s.view).Keys) && MayPick(s.view, s.books.floor, from)
    && After(m.format, from).Recover(Segments(s.view), all).result.Success?
  }

  ghost predicate Next<S(!new)>(m: Machine<S>, s: System, a: Action, s': System) {
    match a
    case Crash(chosen, image) =>
      && s.Up? && |chosen| == |s.store.fs.pending| && s.store.fs.TornTo(chosen, image)
      && HonestView(m.format, s.store.fs, chosen, image)
      && var b, stub := s.store.books, s.store.stub;
         var survived := !stub.NoStub? && Segment(stub.first) in image;
         s' == Down(image, if survived then b.(names := b.names + [stub.first]) else b, s.store.committed)
    case CrashAgain(from, all) =>
      && CanRecover(m, s, from, all)
      && var out := After(m.format, from).Recover(Segments(s.view), all);
         s' == Down(Mended(s.view, out.dir), MendedBooks(s.books, out.result.log), s.committed)
    case Reopen(from, all, ids) =>
      && CanRecover(m, s, from, all)
      && var out := After(m.format, from).Recover(Segments(s.view), all);
         var view, b := Mended(s.view, out.dir), MendedBooks(s.books, out.result.log);
         && ids.Keys == view.Keys && (forall a, b | a in ids && b in ids && a != b :: ids[a] != ids[b])
         && b.names != [] && Segment(Last(b)) in ids
         && s' == Up(Store(SettledFs(view, ids), b, b.safe, None, Idle, ids[Segment(Last(b))], NoStub))
    case _ => s.Up? && s'.Up? && (LogNext(m.format, s.store, a, s'.store) || SnapNext(m, s.store, a, s'.store))
  }

  ghost function SettledFiles(view: View, ids: map<Name, nat>): (files: map<nat, File>)
    requires ids.Keys == view.Keys && (forall a, b | a in ids && b in ids && a != b :: ids[a] != ids[b])
    ensures forall n | n in view :: ids[n] in files && files[ids[n]] == File(view[n], |view[n]|)
    ensures forall id | id in files :: files[id].synced == |files[id].data|
  {
    map n | n in view :: ids[n] := File(view[n], |view[n]|)
  }

  /** A directory with nothing volatile in it. */
  ghost function SettledFs(view: View, ids: map<Name, nat>): Fs<Name>
    requires ids.Keys == view.Keys && (forall a, b | a in ids && b in ids && a != b :: ids[a] != ids[b])
  {
    Fs(SettledFiles(view, ids), ids, ids, [])
  }

  // --- the invariant ---------------------------------------------------------------------------------

  /** Entries that could be left by a crash now. */
  ghost predicate Survivor(fs: Fs<Name>, e: map<Name, nat>) {
    exists chosen | |chosen| == |fs.pending| :: e == ApplyChosen(fs.durable, fs.pending, chosen)
  }

  ghost predicate Apart(e: map<Name, nat>, a: Name, b: Name) {
    a in e && b in e && a != b ==> e[a] != e[b]
  }

  /** Every entry refers to a file of its own. */
  ghost predicate Backed(files: map<nat, File>, e: map<Name, nat>) {
    && (forall n | n in e :: e[n] in files)
    && (forall a, b :: Apart(e, a, b))
  }

  ghost function ViewOf(files: map<nat, File>, e: map<Name, nat>): View
    requires Backed(files, e)
  {
    map n | n in e :: files[e[n]].data
  }

  /** How far the newest segment is synced at least. */
  ghost function SafeBytes(f: Format, b: Books): nat
    requires b.names != [] && b.safe <= |b.recs|
  {
    SEGMENT_HEADER + |f.EncodeAll(if 1 <= Last(b) <= b.safe + 1 then b.recs[Last(b) - 1..b.safe] else [])|
  }

  /** Every file is fully synced, but for temporary ones, the segment under construction and
      the end of the newest segment. */
  ghost predicate SyncedAt(f: Format, s: Store, e: map<Name, nat>, n: Name)
    requires s.books.names != [] && s.books.safe <= |s.books.recs|
  {
    n in e && e[n] in s.fs.files && !n.Temp? && !s.stub.Names(n) ==>
      var file := s.fs.files[e[n]];
      if n == Segment(Last(s.books)) then SafeBytes(f, s.books) <= file.synced <= |file.data|
      else file.synced == |file.data|
  }

  /** The files in the making belong to their own names only. */
  ghost predicate OwnFiles(s: Store, e: map<Name, nat>) {
    && (s.phase.Writing() ==> forall n | n in e :: e[n] == s.phase.id ==> n == Temp(s.phase.lsn))
    && (!s.stub.NoStub? ==> forall n | n in e :: e[n] == s.stub.id <==> n == Segment(s.stub.first))
  }

  ghost predicate EntriesOk<S(!new)>(m: Machine<S>, s: Store, e: map<Name, nat>) {
    && Backed(s.fs.files, e) && Good(m, ViewOf(s.fs.files, e), s.books, s.stub.Number())
    && Segment(Last(s.books)) in e && e[Segment(Last(s.books))] == s.active
    && (forall n :: SyncedAt(m.format, s, e, n)) && OwnFiles(s, e)
  }

  /** What compaction has yet to remove is not needed by anything kept. */
  ghost predicate Dispensable(s: Store, n: Name) {
    (n.Snapshot? && n.lsn !in s.books.kept) || (n.Segment? && s.books.names != [] && n.first < s.books.names[0])
  }

  ghost predicate SameSnapshots(e: map<Name, nat>, e': map<Name, nat>) {
    forall l: nat :: Snapshot(l) in e <==> Snapshot(l) in e'
  }

  ghost predicate PhaseOk<S(!new)>(m: Machine<S>, s: Store)
    requires s.books.safe <= |s.books.recs|
  {
    var durable := s.books.recs[..s.books.safe];
    && (s.phase.Begun? || s.phase.Writing() ==> s.phase.lsn <= |durable|)
    && (s.phase.Writing() ==> Temp(s.phase.lsn) in s.fs.current && s.fs.current[Temp(s.phase.lsn)] == s.phase.id &&
                              s.phase.id in s.fs.files)
    && match s.phase
       case Linked(lsn, id) => s.fs.files[id].data == []
       case Filled(lsn, id) => Captures(m, durable, lsn, s.fs.files[id].data)
       case Flushed(lsn, id) =>
         Captures(m, durable, lsn, s.fs.files[id].data) && s.fs.files[id].synced == |s.fs.files[id].data|
       case Listed => forall e | Survivor(s.fs, e) :: SameSnapshots(e, s.fs.current)
       case Removing(todo, any, covered) =>
         && (covered.Some? ==> covered.value == s.books.floor)
         && (forall i | 0 <= i < |todo| :: todo[i] in s.fs.current && Dispensable(s, todo[i]))
         && (forall i, j | 0 <= i < j < |todo| :: todo[i] != todo[j])
       case _ => true
  }

  ghost predicate StubOk(f: Format, s: Store) {
    s.stub.NoStub? ||
      var first, id := s.stub.first, s.stub.id;
      && s.books.safe == |s.books.recs| && first == |s.books.recs| + 1 < 0x1_0000_0000_0000_0000
      && Segment(first) in s.fs.current && id in s.fs.files
      && s.fs.files[id].data == (if s.stub.Headless? then [] else f.EncodeHeader(first))
      && (s.stub.Unlisted? ==> s.fs.files[id].synced == |s.fs.files[id].data|)
  }

  ghost predicate StoreInv<S(!new)>(m: Machine<S>, s: Store) {
    && s.fs.Valid() && s.committed <= s.books.safe <= |s.books.recs|
    && s.books.names != [] && Last(s.books) <= s.books.safe + 1
    && StubOk(m.format, s) && PhaseOk(m, s)
    && (forall e | Survivor(s.fs, e) :: EntriesOk(m, s, e))
  }

  ghost predicate Inv<S(!new)>(m: Machine<S>, s: System) {
    match s
    case Up(store) => StoreInv(m, store)
    case Down(view, b, committed) => TornGood(m, view, b) && committed <= b.safe
  }

  /** A fresh data directory after the first segment was created. */
  ghost predicate Init<S(!new)>(m: Machine<S>, s: System) {
    s == Down(map[Segment(1) := m.format.EncodeHeader(1)], Books([], 0, [1], 0, {}), 0)
  }

  // --- survivors -----------------------------------------------------------------------------------------

  lemma SurvivorOfMore(fs: Fs<Name>, fs': Fs<Name>, op: DirOp<Name>, e': map<Name, nat>) returns (e: map<Name, nat>)
    requires fs'.durable == fs.durable && fs'.pending == fs.pending + [op] && Survivor(fs', e')
    ensures Survivor(fs, e) && (e' == e || e' == Apply(e, op))
  {
    var chosen :| |chosen| == |fs'.pending| && e' == ApplyChosen(fs'.durable, fs'.pending, chosen);
    var k := |fs.pending|;
    assert fs'.pending[..k] == fs.pending;
    e := ApplyChosen(fs.durable, fs.pending, chosen[..k]);
  }

  lemma CurrentSurvives(fs: Fs<Name>)
    requires fs.Valid()
    ensures Survivor(fs, fs.current)
  {
    assert |All(|fs.pending|, true)| == |fs.pending|;
  }

  /** With nothing pending there is one possible outcome. */
  lemma OnlySurvivor(fs: Fs<Name>, e: map<Name, nat>)
    requires fs.pending == [] && Survivor(fs, e)
    ensures e == fs.durable
  {
  }

  lemma SameSurvivors(fs: Fs<Name>, fs': Fs<Name>, e: map<Name, nat>)
    requires fs'.durable == fs.durable && fs'.pending == fs.pending
    ensures Survivor(fs', e) <==> Survivor(fs, e)
  {
  }

  lemma BackedLess(files: map<nat, File>, e: map<Name, nat>, n: Name)
    requires Backed(files, e)
    ensures Backed(files, e - {n})
  {
    var e' := e - {n};
    forall a, b ensures Apart(e', a, b) { assert Apart(e, a, b); }
  }

  /** One entry more, for a file no other entry refers to. */
  lemma BackedMore(files: map<nat, File>, files': map<nat, File>, e: map<Name, nat>, name: Name, id: nat)
    requires Backed(files, e) && (forall n | n in e && n != name :: e[n] != id)
    requires files.Keys <= files'.Keys && id in files'
    ensures Backed(files', e[name := id])
  {
    var e' := e[name := id];
    forall a, b ensures Apart(e', a, b) { assert Apart(e, a, b); }
  }

  // --- what a good directory does not depend on -----------------------------------------------------------

  /** Temporary files do not matter, nor does a segment under construction. */
  lemma GoodExcept<S(!new)>(m: Machine<S>, view: View, view': View, b: Books, stub: nat, stub': nat)
    requires Good(m, view, b, stub) && (stub == 0 || stub == stub') && (stub' == 0 || Last(b) < stub')
    requires forall n: Name | !n.Temp? && n != Segment(stub') ::
             (n in view <==> n in view') && (n in view ==> view'[n] == view[n])
    ensures Good(m, view', b, stub')
  {
    hide Log, Numbered, TwoFrom;
    var names := b.names;
    forall n | n in names ensures n != stub' && n >= names[0] { NamesAreIn(names, n); }
    forall n: nat | n >= names[0] && n != stub' ensures Segment(n) in view' <==> n in names {
      assert Segment(n) in view <==> n in names;
    }
    LogFrame(m.format, Segments(view), Segments(view'), names, b.recs[names[0] - 1..]);
    SnapsFrame(m, view, view', b.recs[..b.safe], b.floor, b.kept);
  }

  lemma NamesAreIn(names: seq<nat>, n: nat)
    requires Ascending(names) && n in names
    ensures names[0] <= n <= names[|names| - 1]
  {
    var i :| 0 <= i < |names| && names[i] == n;
  }

  lemma SnapsFrame<S(!new)>(m: Machine<S>, view: View, view': View, durable: seq<Rec>, floor: nat, kept: set<nat>)
    requires SnapsGood(m, view, durable, floor, kept)
    requires forall l: nat :: (Snapshot(l) in view <==> Snapshot(l) in view') &&
                              (Snapshot(l) in view ==> view'[Snapshot(l)] == view[Snapshot(l)])
    ensures SnapsGood(m, view', durable, floor, kept)
  {
    hide TwoFrom;
    forall l: nat ensures SnapshotIsGood(m, view', durable, l) { assert SnapshotIsGood(m, view, durable, l); }
  }

  /** More durable records make no snapshot worse. */
  lemma SnapsMore<S(!new)>(m: Machine<S>, view: View, durable: seq<Rec>, durable': seq<Rec>, floor: nat, kept: set<nat>)
    requires SnapsGood(m, view, durable, floor, kept) && durable <= durable'
    ensures SnapsGood(m, view, durable', floor, kept)
  {
    hide TwoFrom;
    forall l: nat ensures SnapshotIsGood(m, view, durable', l) {
      assert SnapshotIsGood(m, view, durable, l);
      if Snapshot(l) in view { CapturesMore(m, durable, durable', l, view[Snapshot(l)]); }
    }
  }

  lemma CapturesMore<S(!new)>(m: Machine<S>, durable: seq<Rec>, durable': seq<Rec>, l: nat, data: Bytes)
    requires Captures(m, durable, l, data) && durable <= durable'
    ensures Captures(m, durable', l, data)
  {
    assert durable'[..l] == durable[..l];
  }

  lemma EntriesFacts<S(!new)>(m: Machine<S>, s: Store, e: map<Name, nat>)
    requires EntriesOk(m, s, e)
    ensures s.books.names != [] && s.books.safe <= |s.books.recs| && Ascending(s.books.names)
    ensures 1 <= s.books.names[0] <= Last(s.books) && s.books.names[0] <= s.books.floor + 1
    ensures !s.stub.NoStub? && s.stub.first > 0 ==> Last(s.books) < s.stub.first
  {
    hide SnapsGood, Log, SyncedAt, Ascending, OwnFiles;
    NamesAreIn(s.books.names, Last(s.books));
  }

  /** The entry of this name is the same and so is its file. */
  ghost predicate SameAt(files: map<nat, File>, files': map<nat, File>, e: map<Name, nat>, e': map<Name, nat>,
                         n: Name) {
    && (n in e <==> n in e')
    && (n in e ==> e'[n] == e[n] && e[n] in files && e[n] in files' && files'[e[n]] == files[e[n]])
  }

  /** Entries that differ only in temporary names and the segment under construction are as
      good. */
  lemma SameEntries<S(!new)>(m: Machine<S>, s: Store, s': Store, e: map<Name, nat>, e': map<Name, nat>)
    requires EntriesOk(m, s, e) && Backed(s'.fs.files, e') && OwnFiles(s', e')
    requires s'.books == s.books && s'.active == s.active
    requires s.stub.NoStub? || (!s'.stub.NoStub? && s'.stub.first == s.stub.first)
    requires s'.stub.NoStub? || Last(s.books) < s'.stub.first
    requires forall n: Name | !n.Temp? && !s'.stub.Names(n) :: SameAt(s.fs.files, s'.fs.files, e, e', n)
    ensures EntriesOk(m, s', e')
  {
    hide Good, SyncedAt, OwnFiles, SameAt;
    EntriesFacts(m, s, e);
    SameGood(m, s, s', e, e');
    SameSynced(m.format, s, s', e, e');
    LastStays(m, s, s', e, e');
  }

  lemma SameGood<S(!new)>(m: Machine<S>, s: Store, s': Store, e: map<Name, nat>, e': map<Name, nat>)
    requires Backed(s.fs.files, e) && Good(m, ViewOf(s.fs.files, e), s.books, s.stub.Number())
    requires Backed(s'.fs.files, e') && s'.books == s.books
    requires s.stub.NoStub? || (!s'.stub.NoStub? && s'.stub.first == s.stub.first)
    requires s'.stub.NoStub? || Last(s.books) < s'.stub.first
    requires forall n: Name | !n.Temp? && !s'.stub.Names(n) :: SameAt(s.fs.files, s'.fs.files, e, e', n)
    ensures Good(m, ViewOf(s'.fs.files, e'), s'.books, s'.stub.Number())
  {
    hide Good, Backed;
    var view, view' := ViewOf(s.fs.files, e), ViewOf(s'.fs.files, e');
    forall n: Name | !n.Temp? && n != Segment(s'.stub.Number())
      ensures (n in view <==> n in view') && (n in view ==> view'[n] == view[n])
    {
      assert SameAt(s.fs.files, s'.fs.files, e, e', n);
    }
    GoodExcept(m, view, view', s.books, s.stub.Number(), s'.stub.Number());
  }

  lemma SameSynced(f: Format, s: Store, s': Store, e: map<Name, nat>, e': map<Name, nat>)
    requires s.books.names != [] && s.books.safe <= |s.books.recs| && (forall n :: SyncedAt(f, s, e, n))
    requires s'.books == s.books && (s.stub.NoStub? || (!s'.stub.NoStub? && s'.stub.first == s.stub.first))
    requires forall n: Name | !n.Temp? && !s'.stub.Names(n) :: SameAt(s.fs.files, s'.fs.files, e, e', n)
    ensures forall n :: SyncedAt(f, s', e', n)
  {
    hide SafeBytes;
    forall n ensures SyncedAt(f, s', e', n) {
      assert SyncedAt(f, s, e, n);
      if !n.Temp? && !s'.stub.Names(n) { assert SameAt(s.fs.files, s'.fs.files, e, e', n); }
    }
  }

  lemma LastStays<S(!new)>(m: Machine<S>, s: Store, s': Store, e: map<Name, nat>, e': map<Name, nat>)
    requires s.books.names != [] && Segment(Last(s.books)) in e && e[Segment(Last(s.books))] == s.active
    requires s'.books == s.books && s'.active == s.active && (s'.stub.NoStub? || Last(s.books) < s'.stub.first)
    requires Last(s.books) > 0
    requires forall n: Name | !n.Temp? && !s'.stub.Names(n) :: SameAt(s.fs.files, s'.fs.files, e, e', n)
    ensures Segment(Last(s'.books)) in e' && e'[Segment(Last(s'.books))] == s'.active
  {
    assert SameAt(s.fs.files, s'.fs.files, e, e', Segment(Last(s.books)));
  }

  // --- write_snapshot() -----------------------------------------------------------------------------------

  lemma RemoveStaleStep<S(!new)>(m: Machine<S>, s: Store, s': Store)
    requires StoreInv(m, s) && SnapNext(m, s, RemoveStaleTemp, s')
    ensures StoreInv(m, s')
  {
    hide EntriesOk, Survivor, StubOk;
    s.fs.RemoveIsValid(Temp(s.phase.lsn));
    StubIsThere(m.format, s);
    forall e' | Survivor(s'.fs, e') ensures EntriesOk(m, s', e') {
      var e := SurvivorOfMore(s.fs, s'.fs, Unlink(Temp(s.phase.lsn)), e');
      UnstaledEntries(m, s, s', e, e');
    }
    SameStub(m.format, s, s');
  }

  lemma UnstaledEntries<S(!new)>(m: Machine<S>, s: Store, s': Store, e: map<Name, nat>, e': map<Name, nat>)
    requires EntriesOk(m, s, e) && s' == s.(fs := s'.fs) && s'.fs.files == s.fs.files && s.phase.Begun?
    requires (!s.stub.NoStub? ==> s.stub.first > 0) && (e' == e || e' == Apply(e, Unlink(Temp(s.phase.lsn))))
    ensures EntriesOk(m, s', e')
  {
    hide Good, SyncedAt;
    BackedLess(s.fs.files, e, Temp(s.phase.lsn));
    EntriesFacts(m, s, e);
    SameEntries(m, s, s', e, e');
  }

  lemma CreateTempStep<S(!new)>(m: Machine<S>, s: Store, id: nat, s': Store)
    requires StoreInv(m, s) && SnapNext(m, s, CreateTemp(id), s')
    ensures StoreInv(m, s')
  {
    hide Good, EntriesOk, Survivor, StubOk;
    s.fs.CreateIsValid(Temp(s.phase.lsn), id);
    StubIsThere(m.format, s);
    forall e' | Survivor(s'.fs, e') ensures EntriesOk(m, s', e') {
      var e := SurvivorOfMore(s.fs, s'.fs, Link(Temp(s.phase.lsn), id), e');
      CreatedEntries(m, s, id, s', e, e');
    }
    SameStub(m.format, s, s');
  }

  lemma StubIsThere(f: Format, s: Store)
    requires StubOk(f, s)
    ensures !s.stub.NoStub? ==> s.stub.id in s.fs.files && s.stub.first > 0
  {
    hide Format.EncodeHeader;
  }

  lemma SameStub(f: Format, s: Store, s': Store)
    requires StubOk(f, s) && s'.stub == s.stub && s'.books.recs == s.books.recs && s'.books.safe == s.books.safe
    requires !s.stub.NoStub? && s.stub.id in s.fs.files ==>
             s.stub.id in s'.fs.files && s'.fs.files[s.stub.id] == s.fs.files[s.stub.id]
    requires !s.stub.NoStub? && Segment(s.stub.first) in s.fs.current ==> Segment(s.stub.first) in s'.fs.current
    ensures StubOk(f, s')
  {
    hide Format.EncodeHeader;
  }

  lemma CreatedEntries<S(!new)>(m: Machine<S>, s: Store, id: nat, s': Store, e: map<Name, nat>, e': map<Name, nat>)
    requires EntriesOk(m, s, e) && SnapNext(m, s, CreateTemp(id), s')
    requires !s.stub.NoStub? ==> s.stub.id in s.fs.files && s.stub.first > 0
    requires e' == e || e' == Apply(e, Link(Temp(s.phase.lsn), id))
    ensures EntriesOk(m, s', e')
  {
    hide Good, SyncedAt;
    BackedMore(s.fs.files, s'.fs.files, e, Temp(s.phase.lsn), id);
    EntriesFacts(m, s, e);
    SameEntries(m, s, s', e, e');
  }

  /** The files in the making and the newest segment are three different ones. */
  lemma IdsDiffer<S(!new)>(m: Machine<S>, s: Store)
    requires StoreInv(m, s)
    ensures s.phase.Writing() && !s.stub.NoStub? ==> s.phase.id != s.stub.id
    ensures s.phase.Writing() ==> s.phase.id != s.active
    ensures !s.stub.NoStub? ==> s.stub.id != s.active && s.stub.first > 0
  {
    hide Good, SyncedAt, Survivor, Format.EncodeHeader;
    CurrentSurvives(s.fs);
    assert EntriesOk(m, s, s.fs.current);
    EntriesFacts(m, s, s.fs.current);
  }

  lemma TempFileStep<S(!new)>(m: Machine<S>, s: Store, a: Action, s': Store)
    requires StoreInv(m, s) && SnapNext(m, s, a, s') && (a.FillTemp? || a.SyncTemp?)
    ensures StoreInv(m, s')
  {
    hide EntriesOk, Survivor, StubOk;
    IdsDiffer(m, s);
    if a.FillTemp? {
      s.fs.AppendIsValid(s.phase.id, a.data);
      assert [] + a.data == a.data;
      CapturesLess(m, s.books.recs, s.books.safe, s.phase.lsn, a.data);
    } else {
      s.fs.SyncIsValid(s.phase.id);
    }
    forall e | Survivor(s'.fs, e) ensures EntriesOk(m, s', e) {
      SameSurvivors(s.fs, s'.fs, e);
      TempEntries(m, s, s', e);
    }
    SameStub(m.format, s, s');
  }

  lemma CapturesLess<S(!new)>(m: Machine<S>, recs: seq<Rec>, safe: nat, l: nat, data: Bytes)
    requires Captures(m, recs, l, data) && l <= safe <= |recs|
    ensures Captures(m, recs[..safe], l, data)
  {
    assert recs[..safe][..l] == recs[..l];
  }

  lemma TempEntries<S(!new)>(m: Machine<S>, s: Store, s': Store, e: map<Name, nat>)
    requires EntriesOk(m, s, e) && s.phase.Writing() && s'.phase.Writing()
    requires s' == s.(fs := s'.fs, phase := s'.phase) && s'.phase.id == s.phase.id && s'.phase.lsn == s.phase.lsn
    requires s.phase.id in s'.fs.files && s'.fs.files == s.fs.files[s.phase.id := s'.fs.files[s.phase.id]]
    requires !s.stub.NoStub? ==> s.stub.first > 0
    ensures EntriesOk(m, s', e)
  {
    hide Good, SyncedAt;
    EntriesFacts(m, s, e);
    SameEntries(m, s, s', e, e);
  }

  /** A complete snapshot more does no harm. */
  lemma GoodWithSnapshot<S(!new)>(m: Machine<S>, view: View, view': View, b: Books, stub: nat, lsn: nat)
    requires Good(m, view, b, stub)
    requires Snapshot(lsn) in view' && Captures(m, b.recs[..b.safe], lsn, view'[Snapshot(lsn)])
    requires forall n: Name | !n.Temp? && n != Snapshot(lsn) ::
             (n in view <==> n in view') && (n in view ==> view'[n] == view[n])
    ensures Good(m, view', b, stub)
  {
    hide Log, Numbered, TwoFrom;
    assert Segments(view') == Segments(view);
    forall l: nat ensures SnapshotIsGood(m, view', b.recs[..b.safe], l) {
      assert SnapshotIsGood(m, view, b.recs[..b.safe], l);
    }
  }

  lemma RenameStep<S(!new)>(m: Machine<S>, s: Store, s': Store)
    requires StoreInv(m, s) && SnapNext(m, s, RenameTemp, s')
    ensures StoreInv(m, s')
  {
    hide EntriesOk, Survivor, StubOk;
    var lsn, id := s.phase.lsn, s.phase.id;
    IdsDiffer(m, s);
    s.fs.MoveIsValid(Temp(lsn), Snapshot(lsn));
    forall e' | Survivor(s'.fs, e') ensures EntriesOk(m, s', e') {
      var e := SurvivorOfMore(s.fs, s'.fs, Rename(Temp(lsn), Snapshot(lsn), id), e');
      if e' == e { UnrenamedEntries(m, s, s', e); } else { RenamedEntries(m, s, s', e, e'); }
    }
    SameStub(m.format, s, s');
  }

  lemma UnrenamedEntries<S(!new)>(m: Machine<S>, s: Store, s': Store, e: map<Name, nat>)
    requires EntriesOk(m, s, e) && s' == s.(fs := s'.fs, phase := Renamed) && s'.fs.files == s.fs.files
    requires !s.stub.NoStub? ==> s.stub.first > 0
    ensures EntriesOk(m, s', e)
  {
    hide Good, SyncedAt;
    EntriesFacts(m, s, e);
    SameEntries(m, s, s', e, e);
  }

  lemma RenamedEntries<S(!new)>(m: Machine<S>, s: Store, s': Store, e: map<Name, nat>, e': map<Name, nat>)
    requires EntriesOk(m, s, e) && s.phase.Flushed? && s.books.safe <= |s.books.recs| && PhaseOk(m, s)
    requires e' == Apply(e, Rename(Temp(s.phase.lsn), Snapshot(s.phase.lsn), s.phase.id))
    requires s' == s.(fs := s'.fs, phase := Renamed) && s'.fs.files == s.fs.files
    requires !s.stub.NoStub? ==> s.stub.id != s.phase.id
    ensures EntriesOk(m, s', e')
  {
    hide Good, SafeBytes;
    var lsn, rest := s.phase.lsn, e - {Temp(s.phase.lsn)};
    EntriesFacts(m, s, e);
    BackedLess(s.fs.files, e, Temp(lsn));
    BackedMore(s.fs.files, s.fs.files, rest, Snapshot(lsn), s.phase.id);
    GoodWithSnapshot(m, ViewOf(s.fs.files, e), ViewOf(s'.fs.files, e'), s.books, s.stub.Number(), lsn);
    forall n ensures SyncedAt(m.format, s', e', n) { assert SyncedAt(m.format, s, e, n); }
  }

  /** A directory sync leaves the current entries as the only possible ones. */
  lemma SyncDirStep<S(!new)>(m: Machine<S>, s: Store, s': Store)
    requires StoreInv(m, s) && s' == s.(fs := s.fs.SyncDir(), phase := s'.phase)
    requires (s'.phase.Idle? || s'.phase.Listed?) && !s.phase.Writing()
    ensures StoreInv(m, s')
  {
    hide Good, SyncedAt, StubOk;
    s.fs.SyncDirIsValid();
    CurrentSurvives(s.fs);
    assert EntriesOk(m, s, s.fs.current);
    forall e | Survivor(s'.fs, e) ensures EntriesOk(m, s', e) {
      OnlySurvivor(s'.fs, e);
      SyncedEntries(m, s, s', e);
    }
    forall e | Survivor(s'.fs, e) ensures SameSnapshots(e, s'.fs.current) { OnlySurvivor(s'.fs, e); }
    SameStub(m.format, s, s');
  }

  lemma SyncedEntries<S(!new)>(m: Machine<S>, s: Store, s': Store, e: map<Name, nat>)
    requires EntriesOk(m, s, e) && s' == s.(fs := s'.fs, phase := s'.phase) && s'.fs.files == s.fs.files
    requires !s'.phase.Writing() && !s.phase.Writing()
    ensures EntriesOk(m, s', e)
  {
    hide Good, SafeBytes;
    EntriesFacts(m, s, e);
    forall n ensures SyncedAt(m.format, s', e, n) { assert SyncedAt(m.format, s, e, n); }
  }

  // --- compact() ------------------------------------------------------------------------------------------------

  /** Removing what is dispensable keeps a directory good. */
  lemma GoodWithout<S(!new)>(m: Machine<S>, view: View, b: Books, stub: nat, n: Name)
    requires Good(m, view, b, stub)
    requires (n.Snapshot? && n.lsn !in b.kept) || (n.Segment? && n.first < b.names[0])
    ensures Good(m, view - {n}, b, stub)
  {
    hide Numbered, TwoFrom, Log;
    var view', names := view - {n}, b.names;
    forall l: nat ensures SnapshotIsGood(m, view', b.recs[..b.safe], l) {
      assert SnapshotIsGood(m, view, b.recs[..b.safe], l);
    }
    forall k | k in names ensures k >= names[0] { NamesAreIn(names, k); }
    LogFrame(m.format, Segments(view), Segments(view'), names, b.recs[names[0] - 1..]);
  }

  lemma RemoveNextStep<S(!new)>(m: Machine<S>, s: Store, s': Store)
    requires StoreInv(m, s) && SnapNext(m, s, RemoveNext, s')
    ensures StoreInv(m, s')
  {
    hide EntriesOk, Survivor, StubOk;
    var n := s.phase.todo[0];
    s.fs.RemoveIsValid(n);
    IdsDiffer(m, s);
    forall e' | Survivor(s'.fs, e') ensures EntriesOk(m, s', e') {
      var e := SurvivorOfMore(s.fs, s'.fs, Unlink(n), e');
      RemovedEntries(m, s, s', e, n);
    }
    StubIsKept(m, s, n);
    SameStub(m.format, s, s');
  }

  lemma StubIsKept<S(!new)>(m: Machine<S>, s: Store, n: Name)
    requires StoreInv(m, s) && Dispensable(s, n)
    ensures !s.stub.Names(n)
  {
    hide EntriesOk, PhaseOk, Format.EncodeHeader;
    CurrentSurvives(s.fs);
    EntriesFacts(m, s, s.fs.current);
  }

  lemma RemovedEntries<S(!new)>(m: Machine<S>, s: Store, s': Store, e: map<Name, nat>, n: Name)
    requires EntriesOk(m, s, e) && Dispensable(s, n) && s.phase.Removing? && s'.phase.Removing?
    requires s' == s.(fs := s'.fs, phase := s'.phase) && s'.fs.files == s.fs.files
    ensures EntriesOk(m, s', e - {n}) && EntriesOk(m, s', e)
  {
    hide Good, SafeBytes, Ascending;
    EntriesFacts(m, s, e);
    GoodWithout(m, ViewOf(s.fs.files, e), s.books, s.stub.Number(), n);
    BackedLess(s.fs.files, e, n);
    assert ViewOf(s.fs.files, e - {n}) == ViewOf(s.fs.files, e) - {n};
    forall k ensures SyncedAt(m.format, s', e, k) && SyncedAt(m.format, s', e - {n}, k) {
      assert SyncedAt(m.format, s, e, k);
    }
  }

  /** compact() lists the snapshots: the older of the two newest becomes the floor, and the
      rest are dispensable. Whatever would survive a crash now has the same snapshots. */
  lemma StartCompactionStep<S(!new)>(m: Machine<S>, s: Store, snaps: seq<nat>, s': Store)
    requires StoreInv(m, s) && SnapNext(m, s, StartCompaction(snaps), s')
    ensures StoreInv(m, s')
  {
    hide EntriesOk, Newest, NewestFirst, Survivor, StubOk;
    forall e | Survivor(s'.fs, e) ensures EntriesOk(m, s', e) {
      SameListing(snaps, s.fs.current, e);
      FloorRises(m, s, s', e, snaps);
    }
    SpareAreDispensable(s', snaps);
    SameStub(m.format, s, s');
    assert PhaseOk(m, s');
  }

  lemma SameListing(snaps: seq<nat>, e: map<Name, nat>, e': map<Name, nat>)
    requires NewestFirst(snaps, set n | n in e && n.Snapshot? :: n.lsn) && SameSnapshots(e', e)
    ensures NewestFirst(snaps, set n | n in e' && n.Snapshot? :: n.lsn)
  {
    var a, b := set n | n in e && n.Snapshot? :: n.lsn, set n | n in e' && n.Snapshot? :: n.lsn;
    forall l: nat ensures l in a <==> l in b {
      assert l in a <==> Snapshot(l) in e by { if Snapshot(l) in e { assert Snapshot(l).lsn == l; } }
      assert l in b <==> Snapshot(l) in e' by { if Snapshot(l) in e' { assert Snapshot(l).lsn == l; } }
    }
    assert a == b;
  }

  lemma FloorRises<S(!new)>(m: Machine<S>, s: Store, s': Store, e: map<Name, nat>, snaps: seq<nat>)
    requires EntriesOk(m, s, e) && NewestFirst(snaps, set n | n in e && n.Snapshot? :: n.lsn)
    requires s' == s.(phase := s'.phase, books := s.books.(kept := Newest(snaps), floor :=
                        if |snaps| < KEEP then s.books.floor else snaps[KEEP - 1]))
    requires s'.phase.Removing? && !s.phase.Writing()
    ensures EntriesOk(m, s', e)
  {
    hide Good, Newest, NewestFirst, SafeBytes;
    EntriesFacts(m, s, e);
    SameKeys(s.fs.files, e);
    NewFloor(m, ViewOf(s.fs.files, e), s.books, s.stub.Number(), snaps, s'.books.floor);
    SameSafeBytes(m.format, s.books, s'.books);
    forall n ensures SyncedAt(m.format, s', e, n) { assert SyncedAt(m.format, s, e, n); }
  }

  lemma SameSafeBytes(f: Format, b: Books, b': Books)
    requires b.names != [] && b'.names != [] && Last(b') == Last(b) && b'.recs == b.recs &&
             b'.safe == b.safe <= |b.recs|
    ensures SafeBytes(f, b') == SafeBytes(f, b)
  {
  }

  lemma SpareAreDispensable(s: Store, snaps: seq<nat>)
    requires NewestFirst(snaps, set n | n in s.fs.current && n.Snapshot? :: n.lsn) && s.books.kept == Newest(snaps)
    ensures var todo := AsSnapshots(if |snaps| < KEEP then [] else snaps[KEEP..]);
            && (forall i | 0 <= i < |todo| :: todo[i] in s.fs.current && Dispensable(s, todo[i]))
            && (forall i, j | 0 <= i < j < |todo| :: todo[i] != todo[j])
  {
    hide Newest;
    if |snaps| >= KEEP {
      SpareIsOld(snaps);
      var spare := snaps[KEEP..];
      forall i | 0 <= i < |spare| ensures Snapshot(spare[i]) in s.fs.current && spare[i] !in s.books.kept {
        assert spare[i] in spare;
      }
    }
  }

  /** The floor may rise to the older of the two newest snapshots. */
  lemma NewFloor<S(!new)>(m: Machine<S>, view: View, b: Books, stub: nat, snaps: seq<nat>, floor: nat)
    requires Good(m, view, b, stub) && NewestFirst(snaps, SnapshotLsns(view))
    requires floor == if |snaps| < KEEP then b.floor else snaps[KEEP - 1]
    ensures Good(m, view, b.(floor := floor, kept := Newest(snaps)), stub)
  {
    hide Newest, TwoFrom, NewestFirst, LogGood;
    KeptAreNewest(m, view, b.recs[..b.safe], b.floor, b.kept, snaps);
  }

  lemma KeptAreNewest<S(!new)>(m: Machine<S>, view: View, durable: seq<Rec>, floor: nat, kept: set<nat>,
                               snaps: seq<nat>)
    requires SnapsGood(m, view, durable, floor, kept) && NewestFirst(snaps, SnapshotLsns(view))
    ensures forall l | l in Newest(snaps) :: Snapshot(l) in view
    ensures |snaps| < KEEP ==> floor == 0
    ensures |snaps| >= KEEP ==> floor <= snaps[KEEP - 1] < |durable| && TwoFrom(Newest(snaps), snaps[KEEP - 1])
  {
    if floor > 0 {
      var a, b :| a in kept && b in kept && floor <= a < b;
      TwoInListing(snaps, a, b, floor);
    }
    if |snaps| >= KEEP {
      var two := snaps[..KEEP];
      assert two[0] in two && two[1] in two;
      assert snaps[1] in Newest(snaps) && snaps[0] in Newest(snaps) && snaps[1] < snaps[0];
      assert snaps[0] in snaps && snaps[1] in snaps;
      assert SnapshotIsGood(m, view, durable, snaps[0]);
    }
  }

  lemma SpareIsOld(snaps: seq<nat>)
    requires |snaps| >= KEEP && (forall i, j | 0 <= i < j < |snaps| :: snaps[i] > snaps[j])
    ensures forall l | l in snaps[KEEP..] :: l in snaps && l !in Newest(snaps)
  {
    forall l | l in snaps[KEEP..] ensures l in snaps && l !in Newest(snaps) {
      var i :| 0 <= i < |snaps| - KEEP && snaps[KEEP..][i] == l;
      assert snaps[i + KEEP] == l;
    }
  }

  lemma SameKeys(files: map<nat, File>, e: map<Name, nat>)
    requires Backed(files, e)
    ensures SnapshotLsns(ViewOf(files, e)) == (set n | n in e && n.Snapshot? :: n.lsn)
    ensures Segments(ViewOf(files, e)).Keys == (set n | n in e && n.Segment? :: n.first)
  {
    var view := ViewOf(files, e);
    assert forall l: nat :: Snapshot(l) in view <==> l in (set n | n in e && n.Snapshot? :: n.lsn) by {
      forall l: nat | Snapshot(l) in view ensures l in (set n | n in e && n.Snapshot? :: n.lsn) {
        assert Snapshot(l).lsn == l;
      }
    }
    assert forall l: nat :: Segment(l) in view <==> l in (set n | n in e && n.Segment? :: n.first) by {
      forall l: nat | Segment(l) in view ensures l in (set n | n in e && n.Segment? :: n.first) {
        assert Segment(l).first == l;
      }
    }
  }

  /** The k-th is the last one at most as large as the bound. */
  ghost predicate LastAtMost(segs: seq<nat>, bound: nat, k: nat) {
    k < |segs| && segs[k] <= bound && forall j | k < j < |segs| :: segs[j] > bound
  }

  /** compact() lists the segments, after removing snapshots and whatever the log did
      meanwhile: those before the first one the floor needs are dispensable, whatever
      would survive a crash now. The listing may show a segment under construction; the
      floor never reaches it, because the newer of the two snapshots is committed. */
  lemma ListSegmentsStep<S(!new)>(m: Machine<S>, s: Store, segs: seq<nat>, s': Store)
    requires StoreInv(m, s) && SnapNext(m, s, ListSegments(segs), s')
    ensures StoreInv(m, s')
  {
    hide EntriesOk, FirstNeeded, ObsoleteSegments, Survivor, IsListing, LastAtMost, StubOk, NamesFrom;
    CurrentSurvives(s.fs);
    var i := NeededHere(m, s, segs);
    forall e | Survivor(s'.fs, e) ensures EntriesOk(m, s', e) { FewerNames(m, s, s', e, i); }
    ObsoleteAreDispensable(s, segs, s');
    SameStub(m.format, s, s');
    assert s'.phase == Removing(AsSegments(ObsoleteSegments(segs, s.books.floor)), s.phase.any, None);
    assert PhaseOk(m, s');
  }

  lemma NeededHere<S(!new)>(m: Machine<S>, s: Store, segs: seq<nat>) returns (i: nat)
    requires EntriesOk(m, s, s.fs.current) && StubOk(m.format, s)
    requires segs != [] && IsListing(segs, set n | n in s.fs.current && n.Segment? :: n.first)
    ensures var k, b := FirstNeeded(segs, s.books.floor, |segs|), s.books;
            && LastAtMost(segs, b.floor + 1, k) && i < |b.names| && b.names[i] == segs[k] <= b.floor + 1
            && NamesFrom(b.names, segs[k]) == b.names[i..]
  {
    hide FirstNeeded, Format.EncodeHeader, SafeBytes, SyncedAt, OwnFiles, Log, SnapsGood, NamesFrom;
    var b, view := s.books, ViewOf(s.fs.files, s.fs.current);
    SameKeys(s.fs.files, s.fs.current);
    EntriesFacts(m, s, s.fs.current);
    FloorIsBelow(m, view, b, s.stub.Number());
    assert b.names[0] in b.names && b.names[0] in segs;
    var w :| 0 <= w < |segs| && segs[w] == b.names[0];
    FirstNeededIsLast(segs, b.floor, |segs|, w);
    var k := FirstNeeded(segs, b.floor, |segs|);
    assert segs[k] in segs && segs[k] >= b.names[0];
    assert Segment(segs[k]) in view && segs[k] != s.stub.Number();
    assert segs[k] in b.names;
    i :| 0 <= i < |b.names| && b.names[i] == segs[k];
    NamesFromHere(b.names, i);
  }

  /** The floor stays below everything written, so a new segment is never the first needed. */
  lemma FloorIsBelow<S(!new)>(m: Machine<S>, view: View, b: Books, stub: nat)
    requires Good(m, view, b, stub) && (stub == 0 || stub == |b.recs| + 1)
    ensures stub != 0 ==> b.floor + 1 < stub
  {
    hide Log, Numbered;
    NamesAreIn(b.names, b.names[0]);
    if b.floor > 0 {
      var x, y :| x in b.kept && y in b.kept && b.floor <= x < y;
      assert SnapshotIsGood(m, view, b.recs[..b.safe], y);
    }
  }

  lemma {:induction false} NamesFromHere(names: seq<nat>, i: nat)
    requires Ascending(names) && i < |names|
    ensures NamesFrom(names, names[i]) == names[i..]
    decreases i
  {
    if i > 0 {
      NamesFromHere(names[1..], i - 1);
      assert names[1..][i - 1..] == names[i..];
    }
  }

  lemma FewerNames<S(!new)>(m: Machine<S>, s: Store, s': Store, e: map<Name, nat>, i: nat)
    requires EntriesOk(m, s, e) && s.phase.Removing? && s'.phase.Removing?
    requires i < |s.books.names| && s.books.names[i] <= s.books.floor + 1
    requires s' == s.(phase := s'.phase, books := s.books.(names := s.books.names[i..]))
    ensures EntriesOk(m, s', e)
  {
    hide Good, SafeBytes, Ascending;
    EntriesFacts(m, s, e);
    FewerGood(m, ViewOf(s.fs.files, e), s.books, s.stub.Number(), i);
    SameSafeBytes(m.format, s.books, s'.books);
    forall n ensures SyncedAt(m.format, s', e, n) { assert SyncedAt(m.format, s, e, n); }
  }

  /** Only the segments from the one that reaches the floor on are needed. */
  lemma FewerGood<S(!new)>(m: Machine<S>, view: View, b: Books, stub: nat, i: nat)
    requires Good(m, view, b, stub) && i < |b.names| && b.names[i] <= b.floor + 1
    ensures Good(m, view, b.(names := b.names[i..]), stub)
  {
    hide Log, SnapsGood, Numbered;
    var names, rest := b.names, b.names[i..];
    LogSuffix(m.format, Segments(view), names, b.recs[names[0] - 1..], i);
    assert b.recs[names[0] - 1..][names[i] - names[0]..] == b.recs[names[i] - 1..];
    forall n: nat | n >= rest[0] && n != stub ensures Segment(n) in view <==> n in rest {
      assert Segment(n) in view <==> n in names;
      if n in names {
        var j :| 0 <= j < |names| && names[j] == n;
        assert j >= i && rest[j - i] == n;
      }
    }
  }

  lemma ObsoleteAreDispensable(s: Store, segs: seq<nat>, s': Store)
    requires IsListing(segs, set n | n in s.fs.current && n.Segment? :: n.first) && s'.fs == s.fs
    requires var k := FirstNeeded(segs, s.books.floor, |segs|);
             LastAtMost(segs, s.books.floor + 1, k) && s'.books.names != [] && s'.books.names[0] == segs[k]
    ensures var todo := AsSegments(ObsoleteSegments(segs, s.books.floor));
            && (forall i | 0 <= i < |todo| :: todo[i] in s'.fs.current && Dispensable(s', todo[i]))
            && (forall i, j | 0 <= i < j < |todo| :: todo[i] != todo[j])
  {
    hide FirstNeeded, ObsoleteSegments;
    var k := FirstNeeded(segs, s.books.floor, |segs|);
    ObsoleteIsBeforeNeeded(segs, s.books.floor, k);
    var todo := AsSegments(ObsoleteSegments(segs, s.books.floor));
    forall i | 0 <= i < |todo| ensures todo[i] in s'.fs.current && Dispensable(s', todo[i]) {
      assert todo[i] == Segment(segs[i]) && segs[i] in segs;
    }
  }

  // --- the log thread ---------------------------------------------------------------------------------------------

  /** Where the newest segment ends, and how much of it is synced. */
  lemma ActiveHolds<S(!new)>(m: Machine<S>, s: Store, e: map<Name, nat>)
    requires EntriesOk(m, s, e) && Last(s.books) <= s.books.safe + 1
    ensures s.active in s.fs.files && 1 <= Last(s.books) <= |s.books.recs| + 1
    ensures Holds(m.format, s.fs.files[s.active].data, Last(s.books), s.books.recs[Last(s.books) - 1..])
    ensures SafeBytes(m.format, s.books) <= s.fs.files[s.active].synced <= |s.fs.files[s.active].data|
    ensures SafeBytes(m.format, s.books) ==
            SEGMENT_HEADER + |m.format.EncodeAll(s.books.recs[Last(s.books) - 1..s.books.safe])|
  {
    hide SnapsGood, Log, Format.EncodeAll, Holds;
    EntriesFacts(m, s, e);
    var b, view := s.books, ViewOf(s.fs.files, e);
    var last := Last(b);
    LastHolds(m.format, Segments(view), b.names, b.recs[b.names[0] - 1..]);
    assert b.recs[b.names[0] - 1..][last - b.names[0]..] == b.recs[last - 1..];
    assert view[Segment(last)] == s.fs.files[s.active].data;
    assert SyncedAt(m.format, s, e, Segment(last));
  }

  /** More records at the end of the newest segment. */
  lemma GoodExtended<S(!new)>(m: Machine<S>, view: View, b: Books, more: seq<Rec>)
    requires Good(m, view, b, 0) && Numbered(b.recs + more, 1)
    ensures Segment(Last(b)) in view
    ensures var last := Segment(Last(b));
            Good(m, view[last := view[last] + m.format.EncodeAll(more)], b.(recs := b.recs + more), 0)
  {
    hide Log, TwoFrom, Format.EncodeAll, Numbered;
    var last, base := Last(b), b.names[0];
    assert last in b.names;
    NamesAreIn(b.names, last);
    var view' := view[Segment(last) := view[Segment(last)] + m.format.EncodeAll(more)];
    assert (b.recs + more)[..b.safe] == b.recs[..b.safe];
    SnapsFrame(m, view, view', b.recs[..b.safe], b.floor, b.kept);
    LogGrows(m.format, Segments(view), b.names, b.recs[base - 1..], more);
    assert Segments(view') == Segments(view)[last := Segments(view)[last] + m.format.EncodeAll(more)];
    assert (b.recs + more)[base - 1..] == b.recs[base - 1..] + more;
  }

  lemma WriteBatchStep<S(!new)>(m: Machine<S>, s: Store, more: seq<Rec>, s': Store)
    requires StoreInv(m, s) && LogNext(m.format, s, WriteBatch(more), s')
    ensures StoreInv(m, s')
  {
    hide EntriesOk, Numbered, Survivor, Format.EncodeAll;
    s.fs.AppendIsValid(s.active, m.format.EncodeAll(more));
    IdsDiffer(m, s);
    assert (s.books.recs + more)[..s.books.safe] == s.books.recs[..s.books.safe];
    forall e | Survivor(s'.fs, e) ensures EntriesOk(m, s', e) {
      SameSurvivors(s.fs, s'.fs, e);
      ExtendedEntries(m, s, more, s', e);
    }
    PhaseAfterWrite(m, s, s');
  }

  /** Writing to the newest segment does not concern the snapshot thread. */
  lemma PhaseAfterWrite<S(!new)>(m: Machine<S>, s: Store, s': Store)
    requires s.books.safe <= |s.books.recs| && PhaseOk(m, s) && (s.phase.Writing() ==> s.phase.id != s.active)
    requires s' == s.(fs := s.fs.(files := s'.fs.files), books :=
                      s.books.(recs := s'.books.recs, safe := s'.books.safe))
    requires s'.books.safe <= |s'.books.recs| && s.books.recs[..s.books.safe] <= s'.books.recs[..s'.books.safe]
    requires forall i | i in s.fs.files && i != s.active :: i in s'.fs.files && s'.fs.files[i] == s.fs.files[i]
    ensures PhaseOk(m, s')
  {
    var old', new' := s.books.recs[..s.books.safe], s'.books.recs[..s'.books.safe];
    if s.phase.Filled? || s.phase.Flushed? {
      CapturesMore(m, old', new', s.phase.lsn, s.fs.files[s.phase.id].data);
    }
    if s.phase.Listed? {
      forall e | Survivor(s'.fs, e) ensures SameSnapshots(e, s'.fs.current) { SameSurvivors(s.fs, s'.fs, e); }
    }
  }

  lemma ExtendedEntries<S(!new)>(m: Machine<S>, s: Store, more: seq<Rec>, s': Store, e: map<Name, nat>)
    requires EntriesOk(m, s, e) && Last(s.books) <= s.books.safe + 1 && LogNext(m.format, s, WriteBatch(more), s')
    requires s.phase.Writing() ==> s.phase.id != s.active
    ensures EntriesOk(m, s', e)
  {
    hide Good, Format.EncodeAll, Numbered, Ascending;
    EntriesFacts(m, s, e);
    var last := Segment(Last(s.books));
    forall n | n in e && n != last ensures e[n] != s.active { assert Apart(e, n, last); }
    GoodExtended(m, ViewOf(s.fs.files, e), s.books, more);
    assert ViewOf(s'.fs.files, e) ==
           ViewOf(s.fs.files, e)[last := ViewOf(s.fs.files, e)[last] + m.format.EncodeAll(more)];
    SameSafe(m.format, s.books, s'.books);
    forall n ensures SyncedAt(m.format, s', e, n) { assert SyncedAt(m.format, s, e, n); }
  }

  lemma SameSafe(f: Format, b: Books, b': Books)
    requires b.names != [] && b'.names == b.names && b.safe <= |b.recs| && b'.safe == b.safe && b.recs <= b'.recs
    ensures SafeBytes(f, b') == SafeBytes(f, b)
  {
    if 1 <= Last(b) <= b.safe + 1 { assert b'.recs[Last(b) - 1..b.safe] == b.recs[Last(b) - 1..b.safe]; }
  }

  lemma SyncBatchStep<S(!new)>(m: Machine<S>, s: Store, s': Store)
    requires StoreInv(m, s) && LogNext(m.format, s, SyncBatch, s')
    ensures StoreInv(m, s')
  {
    hide EntriesOk, Survivor;
    s.fs.SyncIsValid(s.active);
    IdsDiffer(m, s);
    forall e | Survivor(s'.fs, e) ensures EntriesOk(m, s', e) {
      SameSurvivors(s.fs, s'.fs, e);
      FlushedEntries(m, s, s', e);
    }
    assert s'.books.recs[..s'.books.safe] == s.books.recs;
    PhaseAfterWrite(m, s, s');
  }

  lemma FlushedEntries<S(!new)>(m: Machine<S>, s: Store, s': Store, e: map<Name, nat>)
    requires EntriesOk(m, s, e) && Last(s.books) <= s.books.safe + 1 && LogNext(m.format, s, SyncBatch, s')
    requires s.phase.Writing() ==> s.phase.id != s.active
    ensures EntriesOk(m, s', e)
  {
    hide Good, Format.EncodeAll, Ascending;
    EntriesFacts(m, s, e);
    ActiveHolds(m, s, e);
    assert ViewOf(s'.fs.files, e) == ViewOf(s.fs.files, e);
    GoodFlushed(m, ViewOf(s.fs.files, e), s.books);
    var b, b' := s.books, s'.books;
    assert b'.recs[Last(b') - 1..b'.safe] == b.recs[Last(b) - 1..];
    forall n ensures SyncedAt(m.format, s', e, n) {
      assert SyncedAt(m.format, s, e, n);
      if n in e && n != Segment(Last(b)) { assert Apart(e, n, Segment(Last(b))); }
    }
  }

  lemma GoodFlushed<S(!new)>(m: Machine<S>, view: View, b: Books)
    requires Good(m, view, b, 0)
    ensures Good(m, view, b.(safe := |b.recs|), 0)
  {
    hide LogGood;
    SnapsMore(m, view, b.recs[..b.safe], b.recs, b.floor, b.kept);
    assert b.recs[..|b.recs|] == b.recs;
  }

  lemma QuietStep<S(!new)>(m: Machine<S>, s: Store, s': Store)
    requires StoreInv(m, s) && (LogNext(m.format, s, Commit, s') || SnapNext(m, s, StartSnapshot, s') ||
                                exists lsn :: SnapNext(m, s, RequestSnapshot(lsn), s'))
    ensures StoreInv(m, s')
  {
    hide Good, Survivor, Format.EncodeHeader;
    forall e | Survivor(s'.fs, e) ensures EntriesOk(m, s', e) {
      assert EntriesOk(m, s, e);
      hide SafeBytes;
      forall n ensures SyncedAt(m.format, s', e, n) { assert SyncedAt(m.format, s, e, n); }
    }
  }

  lemma CreateSegmentStep<S(!new)>(m: Machine<S>, s: Store, id: nat, s': Store)
    requires StoreInv(m, s) && LogNext(m.format, s, CreateSegment(id), s')
    ensures StoreInv(m, s')
  {
    hide EntriesOk, Survivor;
    var first := s'.stub.first;
    s.fs.CreateIsValid(Segment(first), id);
    forall e' | Survivor(s'.fs, e') ensures EntriesOk(m, s', e') {
      var e := SurvivorOfMore(s.fs, s'.fs, Link(Segment(first), id), e');
      StubbedEntries(m, s, id, s', e, e');
    }
    if s.phase.Listed? {
      forall e' | Survivor(s'.fs, e') ensures SameSnapshots(e', s'.fs.current) {
        var e := SurvivorOfMore(s.fs, s'.fs, Link(Segment(first), id), e');
        assert SameSnapshots(e, s.fs.current);
      }
    }
  }

  lemma StubbedEntries<S(!new)>(m: Machine<S>, s: Store, id: nat, s': Store, e: map<Name, nat>, e': map<Name, nat>)
    requires EntriesOk(m, s, e) && LogNext(m.format, s, CreateSegment(id), s') && s.books.safe <= |s.books.recs|
    requires PhaseOk(m, s) && (e' == e || e' == Apply(e, Link(Segment(s'.stub.first), id)))
    ensures EntriesOk(m, s', e')
  {
    hide Good, SyncedAt;
    BackedMore(s.fs.files, s'.fs.files, e, Segment(s'.stub.first), id);
    EntriesFacts(m, s, e);
    NotThereYet(m, s, e, s'.stub.first);
    SameEntries(m, s, s', e, e');
  }

  /** No segment beyond the newest has survived anything. */
  lemma NotThereYet<S(!new)>(m: Machine<S>, s: Store, e: map<Name, nat>, first: nat)
    requires EntriesOk(m, s, e) && s.stub.NoStub? && Last(s.books) < first
    ensures Segment(first) !in e
  {
    hide SnapsGood, Log, SyncedAt;
    EntriesFacts(m, s, e);
    if Segment(first) in ViewOf(s.fs.files, e) {
      assert first in s.books.names;
      NamesAreIn(s.books.names, first);
    }
  }

  lemma HeaderStep<S(!new)>(m: Machine<S>, s: Store, a: Action, s': Store)
    requires StoreInv(m, s) && LogNext(m.format, s, a, s') && (a.WriteHeader? || a.SyncHeader?)
    ensures StoreInv(m, s')
  {
    hide EntriesOk, Survivor, Format.EncodeHeader;
    IdsDiffer(m, s);
    if a.WriteHeader? {
      s.fs.AppendIsValid(s.stub.id, m.format.EncodeHeader(s.stub.first));
      assert [] + m.format.EncodeHeader(s.stub.first) == m.format.EncodeHeader(s.stub.first);
    } else {
      s.fs.SyncIsValid(s.stub.id);
    }
    forall e | Survivor(s'.fs, e) ensures EntriesOk(m, s', e) {
      SameSurvivors(s.fs, s'.fs, e);
      HeadedEntries(m, s, s', e);
    }
    if s.phase.Listed? {
      forall e | Survivor(s'.fs, e) ensures SameSnapshots(e, s'.fs.current) { SameSurvivors(s.fs, s'.fs, e); }
    }
  }

  lemma HeadedEntries<S(!new)>(m: Machine<S>, s: Store, s': Store, e: map<Name, nat>)
    requires EntriesOk(m, s, e) && !s.stub.NoStub? && !s'.stub.NoStub? && s.stub.first > 0
    requires s' == s.(fs := s'.fs, stub := s'.stub) && s'.stub.first == s.stub.first && s'.stub.id == s.stub.id
    requires s.stub.id in s'.fs.files && s'.fs.files == s.fs.files[s.stub.id := s'.fs.files[s.stub.id]]
    ensures EntriesOk(m, s', e)
  {
    hide Good, SyncedAt;
    EntriesFacts(m, s, e);
    SameEntries(m, s, s', e, e);
  }

  /** The directory sync makes the new segment part of the log. */
  lemma SyncSegmentStep<S(!new)>(m: Machine<S>, s: Store, s': Store)
    requires StoreInv(m, s) && LogNext(m.format, s, SyncSegment, s')
    ensures StoreInv(m, s')
  {
    hide EntriesOk, Format.EncodeHeader, PhaseOk;
    s.fs.SyncDirIsValid();
    CurrentSurvives(s.fs);
    IdsDiffer(m, s);
    JoinedEntries(m, s, s', s.fs.current);
    forall e | Survivor(s'.fs, e) ensures EntriesOk(m, s', e) { OnlySurvivor(s'.fs, e); }
    JoinedPhase(m, s, s');
  }

  lemma JoinedPhase<S(!new)>(m: Machine<S>, s: Store, s': Store)
    requires s.books.safe <= |s.books.recs| && s.books.names != [] && PhaseOk(m, s) && s.fs.Valid()
    requires s' == s.(fs := s.fs.SyncDir(), books := s.books.(names := s'.books.names), active := s'.active,
                      stub := s'.stub)
    requires s'.books.names != [] && s'.books.names[0] == s.books.names[0]
    ensures PhaseOk(m, s')
  {
    hide Captures;
    if s.phase.Listed? {
      forall e | Survivor(s'.fs, e) ensures SameSnapshots(e, s'.fs.current) { OnlySurvivor(s'.fs, e); }
    }
  }

  lemma JoinedEntries<S(!new)>(m: Machine<S>, s: Store, s': Store, e: map<Name, nat>)
    requires EntriesOk(m, s, e) && StubOk(m.format, s) && LogNext(m.format, s, SyncSegment, s')
    requires Segment(s.stub.first) in e && (s.phase.Writing() ==> s.phase.id != s.stub.id)
    requires Last(s.books) <= s.books.safe + 1
    ensures EntriesOk(m, s', e)
  {
    hide Good, Format.EncodeHeader, Ascending;
    EntriesFacts(m, s, e);
    ActiveHolds(m, s, e);
    GoodJoined(m, ViewOf(s.fs.files, e), s.books, s.stub.first);
    assert s'.books.recs[s.stub.first - 1..s.books.safe] == [];
    HeaderLength(m.format, s.stub.first);
    var b := s.books;
    assert b.recs[Last(b) - 1..b.safe] == b.recs[Last(b) - 1..];
    forall n ensures SyncedAt(m.format, s', e, n) { assert SyncedAt(m.format, s, e, n); }
  }

  lemma HeaderLength(f: Format, first: nat)
    requires 1 <= first < 0x1_0000_0000_0000_0000
    ensures |f.EncodeHeader(first)| == SEGMENT_HEADER && f.EncodeAll([]) == []
  {
  }

  lemma GoodJoined<S(!new)>(m: Machine<S>, view: View, b: Books, first: nat)
    requires Good(m, view, b, first) && first == |b.recs| + 1 < 0x1_0000_0000_0000_0000
    requires Segment(first) in view && view[Segment(first)] == m.format.EncodeHeader(first)
    ensures Good(m, view, b.(names := b.names + [first]), 0)
  {
    hide Log, SnapsGood, Format.EncodeHeader, Format.ParseHeader, Numbered;
    var header, names := m.format.EncodeHeader(first), b.names;
    m.format.HeaderRoundTrip(first, []);
    assert header + [] == header && header[SEGMENT_HEADER..] == [];
    forall n | n in names ensures n < first { NamesAreIn(names, n); }
    LogRolls(m.format, Segments(view), names, b.recs[names[0] - 1..], first, header);
    assert Segments(view)[first := header] == Segments(view);
    assert (names + [first])[0] == names[0];
    forall n: nat | n >= names[0] && n != 0 ensures Segment(n) in view <==> n in names + [first] {
      if n != first { assert Segment(n) in view <==> n in names; }
    }
  }

  // --- crashes
  // --------------------------------------------------------------------------------------------------------

  /** The surviving entries with files as a crash may leave them. */
  ghost predicate Torn(f: Format, s: Store, e: map<Name, nat>, image: View) {
    && image.Keys == e.Keys
    && (forall n | n in e :: e[n] in s.fs.files && TornFile(s.fs.files[e[n]], image[n]))
    && (forall n: Name | n in e && n.Segment? :: Honest(f, image[n], s.fs.files[e[n]].data))
  }

  lemma CrashStep<S(!new)>(m: Machine<S>, s: System, a: Action, s': System)
    requires Inv(m, s) && a.Crash? && Next(m, s, a, s')
    ensures Inv(m, s') && Committed(s') == Committed(s) && BooksOf(s').recs == BooksOf(s).recs
  {
    hide EntriesOk, TornFile, Honest, PhaseOk, TornLogGood, SnapsGood, StubOk;
    var store := s.store;
    var e := ApplyChosen(store.fs.durable, store.fs.pending, a.chosen);
    assert Survivor(store.fs, e);
    assert Torn(m.format, store, e, a.image);
    EntriesFacts(m, store, e);
    SnapsSurvive(m, store, e, a.image);
    LogSurvives(m, store, e, a.image);
    assert s'.books.names[0] == store.books.names[0];
  }

  /** A file that was fully synced survives as it was. */
  lemma SyncedSurvives<S(!new)>(m: Machine<S>, s: Store, e: map<Name, nat>, image: View, n: Name)
    requires EntriesOk(m, s, e) && Torn(m.format, s, e, image) && n in e && !n.Temp? && !s.stub.Names(n)
    requires n != Segment(Last(s.books))
    ensures image[n] == ViewOf(s.fs.files, e)[n]
  {
    hide Good, TornFile, Honest, SafeBytes;
    EntriesFacts(m, s, e);
    assert SyncedAt(m.format, s, e, n);
    LW.SyncedSurvives(s.fs.files[e[n]], image[n]);
  }

  lemma SnapsSurvive<S(!new)>(m: Machine<S>, s: Store, e: map<Name, nat>, image: View)
    requires EntriesOk(m, s, e) && Torn(m.format, s, e, image)
    ensures SnapsGood(m, image, s.books.recs[..s.books.safe], s.books.floor, s.books.kept)
  {
    hide SnapsGood, LogGood, TornFile, Honest, SyncedAt;
    var view := ViewOf(s.fs.files, e);
    forall l: nat ensures (Snapshot(l) in view <==> Snapshot(l) in image) &&
                          (Snapshot(l) in view ==> image[Snapshot(l)] == view[Snapshot(l)]) {
      if Snapshot(l) in e { SyncedSurvives(m, s, e, image, Snapshot(l)); }
    }
    SnapsFrame(m, view, image, s.books.recs[..s.books.safe], s.books.floor, s.books.kept);
  }

  /** The segments in the log, and the one under construction if it survived. */
  function SurvivingNames(s: Store, image: View): seq<nat> {
    if !s.stub.NoStub? && Segment(s.stub.first) in image then s.books.names + [s.stub.first] else s.books.names
  }

  lemma LogSurvives<S(!new)>(m: Machine<S>, s: Store, e: map<Name, nat>, image: View)
    requires EntriesOk(m, s, e) && Torn(m.format, s, e, image) && StubOk(m.format, s) &&
             Last(s.books) <= s.books.safe + 1
    ensures TornLogGood(m.format, image, s.books.recs, s.books.safe, SurvivingNames(s, image))
  {
    hide SnapsGood, Log, TornLog, TornFile, Honest, SyncedAt, Numbered, HasHeader, Torn, OwnFiles, StubOk, Ascending,
         Backed, TornSegment, Segments;
    EntriesFacts(m, s, e);
    assert SurvivingNames(s, image)[0] == s.books.names[0];
    SurvivingIsListed(m, s, e, image);
    ActiveSurvives(m, s, e, image);
    FirstIsHeaded(m, s, e, image);
    TearWhole(m, s, e, image);
  }

  lemma SurvivingIsListed<S(!new)>(m: Machine<S>, s: Store, e: map<Name, nat>, image: View)
    requires EntriesOk(m, s, e) && Torn(m.format, s, e, image) && StubOk(m.format, s)
    ensures var names := SurvivingNames(s, image);
            Ascending(names) && forall n: nat | n >= names[0] :: Segment(n) in image <==> n in names
  {
    hide SnapsGood, Log, SyncedAt, Numbered, Format.EncodeHeader, OwnFiles, TornFile, Honest;
    EntriesFacts(m, s, e);
    var b, names, view := s.books, SurvivingNames(s, image), ViewOf(s.fs.files, e);
    forall n | n in b.names ensures n <= Last(b) { NamesAreIn(b.names, n); }
    forall n: nat | n >= b.names[0] ensures Segment(n) in image <==> n in names {
      if !s.stub.Names(Segment(n)) { assert Segment(n) in view <==> n in b.names; }
    }
  }

  /** All segments but the newest are as they were. */
  lemma OlderSurvive<S(!new)>(m: Machine<S>, s: Store, e: map<Name, nat>, image: View)
    requires EntriesOk(m, s, e) && Torn(m.format, s, e, image) && StubOk(m.format, s)
    ensures var names, view := s.books.names, ViewOf(s.fs.files, e);
            && (forall n | n in names :: Segment(n) in view && Segment(n) in image)
            && (forall i | 0 <= i < |names| - 1 :: image[Segment(names[i])] == view[Segment(names[i])])
  {
    hide SnapsGood, Log, TornFile, Honest, SyncedAt, Format.EncodeHeader, OwnFiles;
    EntriesFacts(m, s, e);
    var names, view := s.books.names, ViewOf(s.fs.files, e);
    forall n | n in names ensures Segment(n) in view && Segment(n) in image {
      NamesAreIn(names, n);
      assert Segment(n) in view <==> n in names;
    }
    forall i | 0 <= i < |names| - 1 ensures image[Segment(names[i])] == view[Segment(names[i])] {
      assert names[i] in names && names[i] < Last(s.books);
      SyncedSurvives(m, s, e, image, Segment(names[i]));
    }
  }

  /** The newest segment is torn beyond what is safe, or not at all if all of it is. */
  lemma ActiveSurvives<S(!new)>(m: Machine<S>, s: Store, e: map<Name, nat>, image: View)
    requires EntriesOk(m, s, e) && Torn(m.format, s, e, image) && Last(s.books) <= s.books.safe + 1
    requires Numbered(s.books.recs, 1)
    ensures var b, f := s.books, m.format;
            var last := Last(b);
            && 1 <= last <= b.safe + 1 && Segment(last) in image
            && TornSegment(f, image[Segment(last)], last, b.recs[last - 1..], b.safe - (last - 1))
            && HasHeader(f, image[Segment(last)], last)
            && (b.safe == |b.recs| ==> image[Segment(last)] == s.fs.files[s.active].data)
  {
    hide Good, TornFile, Honest, SafeBytes, TornSegment, Format.ParseHeader, Format.EncodeAll, Numbered, SyncedAt;
    EntriesFacts(m, s, e);
    ActiveHolds(m, s, e);
    var b, file := s.books, s.fs.files[s.active];
    var last := Last(b);
    var recs, data := b.recs[last - 1..], image[Segment(last)];
    assert recs[..|recs|] == recs && recs[..b.safe - (last - 1)] == b.recs[last - 1..b.safe];
    NumberedTail(b.recs, last);
    LW.TearFile(m.format, file, data, last, recs, |recs|, b.safe - (last - 1));
    HeaderSurvives(m.format, file, data, last);
    if b.safe == |b.recs| {
      assert b.recs[last - 1..b.safe] == recs;
      LW.SyncedSurvives(file, data);
    }
  }

  lemma NumberedTail(recs: seq<Rec>, first: nat)
    requires Numbered(recs, 1) && 1 <= first <= |recs| + 1
    ensures Numbered(recs[first - 1..], first)
  {
  }

  lemma HeaderSurvives(f: Format, file: File, data: Bytes, first: nat)
    requires TornFile(file, data) && SEGMENT_HEADER <= file.synced <= |file.data| && HasHeader(f, file.data, first)
    ensures HasHeader(f, data, first)
  {
    hide Format.ParseHeader;
    var good :| file.synced <= good <= |data| <= good + 64 && data[..good] == file.data[..good];
    assert data[..SEGMENT_HEADER] == data[..good][..SEGMENT_HEADER];
    assert file.data[..SEGMENT_HEADER] == file.data[..good][..SEGMENT_HEADER];
    f.HeaderIsLocal(file.data, data);
  }

  lemma FirstIsHeaded<S(!new)>(m: Machine<S>, s: Store, e: map<Name, nat>, image: View)
    requires EntriesOk(m, s, e) && Torn(m.format, s, e, image) && StubOk(m.format, s)
    requires Segment(Last(s.books)) in image && HasHeader(m.format, image[Segment(Last(s.books))], Last(s.books))
    ensures var first := s.books.names[0];
            Segment(first) in image && HasHeader(m.format, image[Segment(first)], first)
  {
    hide SnapsGood, TornFile, Honest, SyncedAt, Format.EncodeHeader, OwnFiles, HasHeader, Torn;
    EntriesFacts(m, s, e);
    OlderSurvive(m, s, e, image);
    var names := s.books.names;
    assert names[0] in names;
    if |names| > 1 { LogIsHeaded(m.format, Segments(ViewOf(s.fs.files, e)), names, s.books.recs[names[0] - 1..]); }
  }

  lemma LogIsHeaded(f: Format, dir: Directory, names: seq<nat>, recs: seq<Rec>)
    requires Log(f, dir, names, recs) && names != []
    ensures names[0] in dir && HasHeader(f, dir[names[0]], names[0])
  {
  }

  lemma TearWhole<S(!new)>(m: Machine<S>, s: Store, e: map<Name, nat>, image: View)
    requires EntriesOk(m, s, e) && Torn(m.format, s, e, image) && StubOk(m.format, s)
    requires Last(s.books) <= s.books.safe + 1
    ensures var b, names := s.books, SurvivingNames(s, image);
            1 <= b.names[0] <= b.safe + 1 &&
            TornLog(m.format, Segments(image), names, b.recs[b.names[0] - 1..], b.safe - (b.names[0] - 1))
  {
    hide SnapsGood, Log, TornLog, TornSegment, TornFile, Honest, SyncedAt, Format.EncodeHeader, HasHeader, Torn,
         OwnFiles,
         Ascending, Segments;
    EntriesFacts(m, s, e);
    OlderSurvive(m, s, e, image);
    ActiveSurvives(m, s, e, image);
    var b, view := s.books, ViewOf(s.fs.files, e);
    if SurvivingNames(s, image) != b.names {
      StubIsShort(m, s, e, image);
      forall n | n in b.names ensures image[Segment(n)] == view[Segment(n)] { WhichName(b.names, n); }
      TearBeforeStub(m.format, view, image, b, s.stub.first);
    } else {
      TearPlain(m.format, view, image, b);
    }
  }

  lemma TearPlain(f: Format, view: View, image: View, b: Books)
    requires b.names != [] && 1 <= b.names[0] <= Last(b) <= b.safe + 1 && b.safe <= |b.recs| && Ascending(b.names)
    requires Log(f, Segments(view), b.names, b.recs[b.names[0] - 1..])
    requires forall n | n in b.names :: Segment(n) in view && Segment(n) in image
    requires forall i | 0 <= i < |b.names| - 1 :: image[Segment(b.names[i])] == view[Segment(b.names[i])]
    requires Segment(Last(b)) in image &&
             TornSegment(f, image[Segment(Last(b))], Last(b), b.recs[Last(b) - 1..], b.safe - (Last(b) - 1))
    ensures TornLog(f, Segments(image), b.names, b.recs[b.names[0] - 1..], b.safe - (b.names[0] - 1))
  {
    hide Log, TornLog, TornSegment, Segments;
    var base, last, recs := b.names[0], Last(b), b.recs[b.names[0] - 1..];
    assert recs[last - base..] == b.recs[last - 1..] && recs[..|recs|] == recs;
    TearLast(f, Segments(view), Segments(image), b.names, |recs|, recs, b.safe - (base - 1));
  }

  lemma TearBeforeStub(f: Format, view: View, image: View, b: Books, first: nat)
    requires b.names != [] && 1 <= b.names[0] <= Last(b) < first && b.safe == |b.recs| && first == |b.recs| + 1
    requires Log(f, Segments(view), b.names, b.recs[b.names[0] - 1..])
    requires forall n | n in b.names ::
             Segment(n) in view && Segment(n) in image && image[Segment(n)] == view[Segment(n)]
    requires Segment(first) in image && |image[Segment(first)]| <= SEGMENT_HEADER
    ensures TornLog(f, Segments(image), b.names + [first], b.recs[b.names[0] - 1..], b.safe - (b.names[0] - 1))
  {
    hide Log, TornLog;
    var base, recs := b.names[0], b.recs[b.names[0] - 1..];
    assert recs[..|recs|] == recs;
    AddStub(f, Segments(view), Segments(image), b.names, |recs|, recs, b.safe - (base - 1), first);
  }

  lemma WhichName(names: seq<nat>, n: nat)
    requires n in names
    ensures n == names[|names| - 1] || exists i :: 0 <= i < |names| - 1 && names[i] == n
  {
    var i :| 0 <= i < |names| && names[i] == n;
  }

  lemma StubIsShort<S(!new)>(m: Machine<S>, s: Store, e: map<Name, nat>, image: View)
    requires EntriesOk(m, s, e) && Torn(m.format, s, e, image) && StubOk(m.format, s)
    requires !s.stub.NoStub? && Segment(s.stub.first) in image
    ensures |image[Segment(s.stub.first)]| <= SEGMENT_HEADER
    ensures s.books.safe == |s.books.recs| && s.stub.first == |s.books.recs| + 1
  {
    hide Good, Honest, SyncedAt;
  }

  // --- recovery ------------------------------------------------------------------------------------------

  /** Recovery leaves an intact log that reaches everything safe, under the same snapshots. */
  lemma Mending<S(!new)>(m: Machine<S>, s: System, from: nat, all: seq<nat>)
    requires Inv(m, s) && CanRecover(m, s, from, all)
    ensures var out := After(m.format, from).Recover(Segments(s.view), all);
            var b := MendedBooks(s.books, out.result.log);
            && s.books.safe <= b.safe == |b.recs| && b.recs <= s.books.recs
            && Good(m, Mended(s.view, out.dir), b, 0) && Last(b) <= b.safe + 1
  {
    hide Recovery.Recover, SnapsGood, TornLogGood, Log, Good, Mends, Mended;
    var b := s.books;
    PickIsSafe(m, s.view, b.recs[..b.safe], b.floor, b.kept, from);
    TornNames(m.format, s.view, b.recs, b.safe, b.names);
    var k := TailOfTorn(m.format, s.view, all, b.names, b.recs, b.safe, from);
    var out := After(m.format, from).Recover(Segments(s.view), all);
    MendedIsGood(m, s.view, b, from, out, k);
  }

  lemma TornNames(f: Format, view: View, recs: seq<Rec>, safe: nat, names: seq<nat>)
    requires TornLogGood(f, view, recs, safe, names)
    ensures names != [] && names[0] >= 1
  {
  }

  lemma PickIsSafe<S(!new)>(m: Machine<S>, view: View, durable: seq<Rec>, floor: nat, kept: set<nat>, from: nat)
    requires SnapsGood(m, view, durable, floor, kept) && MayPick(view, floor, from)
    ensures floor <= from <= |durable|
  {
    if from != 0 { assert SnapshotIsGood(m, view, durable, from); }
  }

  lemma MendedIsGood<S(!new)>(m: Machine<S>, view: View, b: Books, from: nat, out: Outcome, k: nat)
    requires TornGood(m, view, b) && out.result.Success?
    requires Mends(m.format, from, Segments(view), b.recs, b.safe, b.names, out, k)
    ensures var b' := MendedBooks(b, out.result.log);
            && b.safe <= b'.safe == |b'.recs| && b'.recs <= b.recs
            && Good(m, Mended(view, out.dir), b', 0) && Last(b') <= b'.safe + 1
  {
    hide SnapsGood, Log, TornLog, Numbered, Ascending, HasHeader, Segments;
    var b', view' := MendedBooks(b, out.result.log), Mended(view, out.dir);
    assert b'.recs[..b'.safe] == b'.recs && b.recs[..b.safe] <= b'.recs;
    MendedSnaps(m, view, view', b.recs[..b.safe], b'.recs, b.floor, b.kept);
    hide Mended;
    MendedLogIsGood(m.format, view, b.recs, b.safe, b.names, out.dir, k, out.result.log.removed);
  }

  lemma MendedSnaps<S(!new)>(m: Machine<S>, view: View, view': View, durable: seq<Rec>, durable': seq<Rec>, floor: nat,
                             kept: set<nat>)
    requires SnapsGood(m, view, durable, floor, kept) && durable <= durable'
    requires forall l: nat :: (Snapshot(l) in view <==> Snapshot(l) in view') &&
                              (Snapshot(l) in view ==> view'[Snapshot(l)] == view[Snapshot(l)])
    ensures SnapsGood(m, view', durable', floor, kept)
  {
    hide SnapsGood;
    SnapsFrame(m, view, view', durable, floor, kept);
    SnapsMore(m, view', durable, durable', floor, kept);
  }

  lemma MendedLogIsGood(f: Format, view: View, recs: seq<Rec>, safe: nat, names: seq<nat>, dir: Directory, k: nat,
                        removed: bool)
    requires TornLogGood(f, view, recs, safe, names) && safe <= k <= |recs| && (removed ==> |names| > 1)
    requires dir.Keys == (if removed then Segments(view).Keys - {names[|names| - 1]} else Segments(view).Keys)
    requires var names' := if removed then names[..|names| - 1] else names; Log(f, dir, names', recs[names[0] - 1..k])
    ensures var names' := if removed then names[..|names| - 1] else names;
            LogGood(f, Mended(view, dir), recs[..k], names', 0) && names'[|names'| - 1] <= k + 1
  {
    hide Log, TornLog, HasHeader, Mended, Segments;
    var names', view' := if removed then names[..|names| - 1] else names, Mended(view, dir);
    MendedSegments(view, dir);
    assert recs[..k][names[0] - 1..] == recs[names[0] - 1..k] && names'[0] == names[0];
    LastHolds(f, dir, names', recs[names[0] - 1..k]);
    forall n: nat | n >= names[0] && n != 0 ensures Segment(n) in view' <==> n in names' {
      assert Segment(n) in view <==> n in names;
      if removed { AllButLast(names, n); }
    }
  }

  lemma MendedSegments(view: View, dir: Directory)
    requires dir.Keys <= Segments(view).Keys
    ensures Segments(Mended(view, dir)) == dir
    ensures forall n: nat :: Segment(n) in Mended(view, dir) <==> n in dir
  {
    forall n: nat ensures Segment(n) in Mended(view, dir) <==> n in dir {
      assert n in dir ==> n in Segments(view).Keys;
    }
  }

  lemma AllButLast(names: seq<nat>, n: nat)
    requires names != [] && Ascending(names)
    ensures n in names[..|names| - 1] <==> n in names && n != names[|names| - 1]
  {
    if n in names {
      var i :| 0 <= i < |names| && names[i] == n;
      if i < |names| - 1 { assert names[..|names| - 1][i] == n; }
    }
  }

  /** An intact directory is a torn one that lost nothing. */
  lemma GoodIsTorn<S(!new)>(m: Machine<S>, view: View, b: Books)
    requires Good(m, view, b, 0) && b.safe == |b.recs|
    ensures TornGood(m, view, b)
  {
    hide SnapsGood, Log, TornLog, HasHeader;
    var names, recs := b.names, b.recs[b.names[0] - 1..];
    LogIsHeaded(m.format, Segments(view), names, recs);
    NumberedTail(b.recs, names[0]);
    LogIsTorn(m.format, Segments(view), names, recs, b.safe - (names[0] - 1));
  }

  lemma CrashAgainStep<S(!new)>(m: Machine<S>, s: System, from: nat, all: seq<nat>, s': System)
    requires Inv(m, s) && Next(m, s, CrashAgain(from, all), s')
    ensures Inv(m, s') && Committed(s') == Committed(s) <= |BooksOf(s').recs| && BooksOf(s').recs <= BooksOf(s).recs
  {
    hide Recovery.Recover, Good, TornGood, Mended, MendedBooks;
    Mending(m, s, from, all);
    GoodIsTorn(m, s'.view, s'.books);
  }

  lemma ReopenStep<S(!new)>(m: Machine<S>, s: System, from: nat, all: seq<nat>, ids: map<Name, nat>, s': System)
    requires Inv(m, s) && Next(m, s, Reopen(from, all, ids), s')
    ensures Inv(m, s') && Committed(s) <= Committed(s') && BooksOf(s').recs <= BooksOf(s).recs
  {
    hide Recovery.Recover, Good, TornGood, Mended, MendedBooks, SettledFs, StoreInv;
    Mending(m, s, from, all);
    var view := Mended(s.view, After(m.format, from).Recover(Segments(s.view), all).dir);
    OpenedIsRight(m, s'.store, view, ids);
  }

  /** A store opened on an intact directory starts out right. */
  lemma OpenedIsRight<S(!new)>(m: Machine<S>, s: Store, view: View, ids: map<Name, nat>)
    requires ids.Keys == view.Keys && (forall a, b | a in ids && b in ids && a != b :: ids[a] != ids[b])
    requires s.fs == SettledFs(view, ids) && Good(m, view, s.books, 0) && s.stub.NoStub? && s.phase.Idle?
    requires s.committed == s.books.safe == |s.books.recs| && s.books.names != [] && Last(s.books) <= s.books.safe + 1
    requires Segment(Last(s.books)) in ids && s.active == ids[Segment(Last(s.books))]
    ensures StoreInv(m, s)
  {
    hide EntriesOk, SettledFiles, Good, Fs.Valid, Backed, ViewOf;
    SettledIsBacked(view, ids);
    SettledEntries(m, s, view, ids);
    forall e | Survivor(s.fs, e) ensures EntriesOk(m, s, e) { OnlySurvivor(s.fs, e); }
  }

  lemma SettledEntries<S(!new)>(m: Machine<S>, s: Store, view: View, ids: map<Name, nat>)
    requires ids.Keys == view.Keys && (forall a, b | a in ids && b in ids && a != b :: ids[a] != ids[b])
    requires s.fs == SettledFs(view, ids) && Good(m, view, s.books, 0) && s.stub.NoStub? && s.phase.Idle?
    requires s.books.safe == |s.books.recs| && s.books.names != [] && Last(s.books) <= s.books.safe + 1
    requires Segment(Last(s.books)) in ids && s.active == ids[Segment(Last(s.books))]
    ensures EntriesOk(m, s, ids)
  {
    hide Good, SettledFiles, SafeBytes;
    SettledIsBacked(view, ids);
    WholeIsSafe(m, view, s.books);
    forall n ensures SyncedAt(m.format, s, ids, n) { }
  }

  lemma WholeIsSafe<S(!new)>(m: Machine<S>, view: View, b: Books)
    requires Good(m, view, b, 0) && b.safe == |b.recs| && b.names != [] && Last(b) <= b.safe + 1
    requires Segment(Last(b)) in view
    ensures SafeBytes(m.format, b) <= |view[Segment(Last(b))]|
  {
    hide SnapsGood, Log, Format.EncodeAll, Format.ParseHeader;
    LastHolds(m.format, Segments(view), b.names, b.recs[b.names[0] - 1..]);
    NamesAreIn(b.names, b.names[0]);
    assert b.recs[b.names[0] - 1..][Last(b) - b.names[0]..] == b.recs[Last(b) - 1..b.safe];
  }

  lemma SettledIsBacked(view: View, ids: map<Name, nat>)
    requires ids.Keys == view.Keys && (forall a, b | a in ids && b in ids && a != b :: ids[a] != ids[b])
    ensures var fs := SettledFs(view, ids);
            fs.Valid() && Backed(fs.files, ids) && ViewOf(fs.files, ids) == view
  {
    hide SettledFiles;
    var fs := SettledFs(view, ids);
    assert fs.Valid();
    assert Backed(fs.files, ids);
    hide Backed, Fs.Valid;
    assert ViewOf(fs.files, ids) == view;
  }

  // --- the theorem --------------------------------------------------------------------------------------------------

  /** The records reported durable. */
  ghost function Acknowledged(s: System): seq<Rec>
    requires Committed(s) <= |BooksOf(s).recs|
  {
    BooksOf(s).recs[..Committed(s)]
  }

  lemma CommittedIsWritten<S(!new)>(m: Machine<S>, s: System)
    requires Inv(m, s)
    ensures Committed(s) <= BooksOf(s).safe <= |BooksOf(s).recs|
  {
    hide TornLogGood, SnapsGood, PhaseOk, StubOk, EntriesOk;
  }

  lemma StoreStep<S(!new)>(m: Machine<S>, s: Store, a: Action, s': Store)
    requires StoreInv(m, s) && (LogNext(m.format, s, a, s') || SnapNext(m, s, a, s'))
    ensures StoreInv(m, s')
  {
    hide StoreInv;
    match a
    case WriteBatch(more) => WriteBatchStep(m, s, more, s');
    case SyncBatch => SyncBatchStep(m, s, s');
    case Commit => QuietStep(m, s, s');
    case CreateSegment(id) => CreateSegmentStep(m, s, id, s');
    case WriteHeader => HeaderStep(m, s, a, s');
    case SyncHeader => HeaderStep(m, s, a, s');
    case SyncSegment => SyncSegmentStep(m, s, s');
    case RequestSnapshot(_) => QuietStep(m, s, s');
    case StartSnapshot => QuietStep(m, s, s');
    case RemoveStaleTemp => RemoveStaleStep(m, s, s');
    case CreateTemp(id) => CreateTempStep(m, s, id, s');
    case FillTemp(_) => TempFileStep(m, s, a, s');
    case SyncTemp => TempFileStep(m, s, a, s');
    case RenameTemp => RenameStep(m, s, s');
    case SyncRename => SyncDirStep(m, s, s');
    case StartCompaction(snaps) => StartCompactionStep(m, s, snaps, s');
    case ListSegments(segs) => ListSegmentsStep(m, s, segs, s');
    case RemoveNext => RemoveNextStep(m, s, s');
    case FinishCompaction =>
      if s.phase.any { SyncDirStep(m, s, s'); } else { IdleStep(m, s, s'); }
  }

  lemma IdleStep<S(!new)>(m: Machine<S>, s: Store, s': Store)
    requires StoreInv(m, s) && s' == s.(phase := Idle) && !s.phase.Writing()
    ensures StoreInv(m, s')
  {
    hide EntriesOk, Survivor, StubOk;
    forall e | Survivor(s'.fs, e) ensures EntriesOk(m, s', e) { SyncedEntries(m, s, s', e); }
    SameStub(m.format, s, s');
  }

  /** Every step keeps the invariant, and nothing that was reported durable is ever lost or
      replaced. */
  lemma StepIsSafe<S(!new)>(m: Machine<S>, s: System, a: Action, s': System)
    requires Inv(m, s) && Next(m, s, a, s')
    ensures Inv(m, s')
    ensures Committed(s) <= |BooksOf(s).recs| && Committed(s') <= |BooksOf(s').recs|
    ensures Acknowledged(s) <= Acknowledged(s')
  {
    hide Inv, Next, Committed, BooksOf;
    match a {
      case Crash(_, _) => CrashStep(m, s, a, s');
      case CrashAgain(from, all) => CrashAgainStep(m, s, from, all, s');
      case Reopen(from, all, ids) => ReopenStep(m, s, from, all, ids, s');
      case _ => RunningStep(m, s, a, s');
    }
    CommittedIsWritten(m, s);
    CommittedIsWritten(m, s');
  }

  lemma RunningStep<S(!new)>(m: Machine<S>, s: System, a: Action, s': System)
    requires Inv(m, s) && Next(m, s, a, s') && !a.Crash? && !a.CrashAgain? && !a.Reopen?
    ensures Inv(m, s') && Committed(s) <= Committed(s') && BooksOf(s).recs <= BooksOf(s').recs
  {
    hide StoreInv;
    StoreStep(m, s.store, a, s'.store);
    assert s.store.committed <= s.store.books.safe by { CommittedIsWritten(m, s); }
  }

  ghost predicate IsRun<S(!new)>(m: Machine<S>, states: seq<System>, actions: seq<Action>) {
    && |states| == |actions| + 1
    && Init(m, states[0])
    && forall i | 0 <= i < |actions| :: Next(m, states[i], actions[i], states[i + 1])
  }

  lemma InitHolds<S(!new)>(m: Machine<S>, s: System)
    requires Init(m, s)
    ensures Inv(m, s)
  {
    hide Format.EncodeHeader, Log, TornLog, TwoFrom, Segments;
    var view := s.view;
    FirstSegment(m.format, view);
    forall n: nat | n >= 1 ensures Segment(n) in view <==> n in [1] { }
    forall l: nat ensures SnapshotIsGood(m, view, [], l) { }
    assert Good(m, view, s.books, 0);
    GoodIsTorn(m, view, s.books);
  }

  lemma FirstSegment(f: Format, view: View)
    requires view == map[Segment(1) := f.EncodeHeader(1)]
    ensures Log(f, Segments(view), [1], [])
  {
    hide Format.EncodeHeader, Format.ParseHeader;
    f.HeaderRoundTrip(1, []);
    var header := f.EncodeHeader(1);
    assert header + [] == header && header[SEGMENT_HEADER..] == [];
    assert Segments(view)[1] == header;
  }

  lemma {:induction false} RunKeepsInv<S(!new)>(m: Machine<S>, states: seq<System>, actions: seq<Action>, j: nat)
    requires IsRun(m, states, actions) && j < |states|
    ensures Inv(m, states[j])
  {
    hide Inv, Next, Init;
    if j == 0 {
      InitHolds(m, states[0]);
    } else {
      RunKeepsInv(m, states, actions, j - 1);
      assert Next(m, states[j - 1], actions[j - 1], states[j - 1 + 1]);
      StepIsSafe(m, states[j - 1], actions[j - 1], states[j]);
    }
  }

  /** Over any run with any number of crashes, snapshots and compactions, what has been
      acknowledged stays, as a prefix, in everything acknowledged later. */
  lemma {:induction false} AcknowledgedForever<S(!new)>(m: Machine<S>, states: seq<System>, actions: seq<Action>,
                                                        i: nat, j: nat)
    requires IsRun(m, states, actions) && i <= j < |states|
    ensures Committed(states[i]) <= |BooksOf(states[i]).recs| && Committed(states[j]) <= |BooksOf(states[j]).recs|
    ensures Acknowledged(states[i]) <= Acknowledged(states[j])
    decreases j
  {
    hide Inv, Next, Init;
    RunKeepsInv(m, states, actions, i);
    RunKeepsInv(m, states, actions, j);
    CommittedIsWritten(m, states[i]);
    CommittedIsWritten(m, states[j]);
    if i < j {
      AcknowledgedForever(m, states, actions, i, j - 1);
      RunKeepsInv(m, states, actions, j - 1);
      assert Next(m, states[j - 1], actions[j - 1], states[j - 1 + 1]);
      StepIsSafe(m, states[j - 1], actions[j - 1], states[j]);
    }
  }

  /** Crash transparency: after any run of log growth, snapshots and compactions, with crashes
      anywhere, recovery succeeds unless the torn end of the newest segment holds a plausible
      record, and then rebuilds a right state of a prefix of the records that includes
      everything acknowledged, even if the newest snapshot is unreadable. */
  lemma CrashTransparent<S(!new)>(m: Machine<S>, states: seq<System>, actions: seq<Action>, j: nat, read: View,
                                  snaps: seq<nat>, all: seq<nat>)
    requires IsRun(m, states, actions) && j < |states| && states[j].Down?
    requires forall k | states[j].committed <= k <= |states[j].books.recs| :: m.Restores(states[j].books.recs[..k])
    requires NewestFirst(snaps, SnapshotLsns(states[j].view)) && IsListing(all, Segments(states[j].view).Keys)
    requires NewestMayBeBad(m, states[j].view, read, snaps)
    ensures NewestFirst(snaps, SnapshotLsns(read)) && IsListing(all, Segments(read).Keys)
    ensures var r, s := RebuildSpec(m, read, snaps, all), states[j];
            && s.books.names != [] && Segment(Last(s.books)) in s.view
            && (r.Rebuilt? <==> NothingValidTorn(m.format, s.view[Segment(Last(s.books))], Last(s.books)))
            && (r.Rebuilt? ==> s.committed <= r.last <= |s.books.recs| && m.agrees(s.books.recs[..r.last], r.state))
  {
    hide Recovery.Recover, NewestFirst, IsListing, NewestMayBeBad, NothingValidTorn, IsRun, SnapsGood, RebuildSpec,
         Machine.Restores, TornLogGood;
    RunKeepsInv(m, states, actions, j);
    var s := states[j];
    TornNames(m.format, s.view, s.books.recs, s.books.safe, s.books.names);
    RebuildsEverything(m, s.view, read, s.books, snaps, all);
  }

  /** What recover_state() picks is what a restart may start from. */
  lemma RecoveryIsAStep<S(!new)>(m: Machine<S>, states: seq<System>, actions: seq<Action>, j: nat, read: View,
                                 snaps: seq<nat>, all: seq<nat>)
    requires IsRun(m, states, actions) && j < |states| && states[j].Down?
    requires m.Restores(states[j].books.recs[..if states[j].books.safe <= |states[j].books.recs|
                                               then states[j].books.safe else 0])
    requires NewestFirst(snaps, SnapshotLsns(states[j].view)) && IsListing(all, Segments(states[j].view).Keys)
    requires NewestMayBeBad(m, states[j].view, read, snaps)
    ensures NewestFirst(snaps, SnapshotLsns(read)) && IsListing(all, Segments(read).Keys)
    ensures var r := RebuildSpec(m, read, snaps, all);
            r.Rebuilt? ==> CanRecover(m, states[j], r.from, all) &&
                           After(m.format, r.from).Recover(Segments(states[j].view), all).result.log.last == r.last
  {
    hide Recovery.Recover, NewestFirst, IsListing, NewestMayBeBad, IsRun, SnapsGood, Machine.Restores, TornLogGood,
         Segments, SnapshotLsns, Machine.Replay;
    RunKeepsInv(m, states, actions, j);
    var s := states[j];
    SameListings(m, s.view, read, snaps, all);
    PickedIsHighEnough(m, s.view, read, s.books.recs[..s.books.safe], s.books.floor, s.books.kept, snaps);
    var k := Skipped(m, read, snaps);
    if k < |snaps| { PickedIsThere(m, s.view, snaps, k); }
  }

  lemma PickedIsThere<S(!new)>(m: Machine<S>, view: View, snaps: seq<nat>, k: nat)
    requires NewestFirst(snaps, SnapshotLsns(view)) && k < |snaps|
    ensures Snapshot(snaps[k]) in view
  {
    assert snaps[k] in snaps;
  }
}
