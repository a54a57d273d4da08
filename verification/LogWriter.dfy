/**
 The two-thread log writer as a step system, with crashes and recovery.

 The owner thread appends and flushes; the log thread takes a batch, rolls to a new
 segment if the active one is full, writes, syncs and then advances committed_lsn.
 Every file-system operation is a step of its own, so a crash can come after any of
 them and leave anything the crash model allows. The sync policy is `always`.
 */
module LogWriter {
  import opened LogFormat
  import opened LogRecovery
  import opened LogDisk
  import opened SimFs

  /** What the log thread is about to do. */
  datatype Phase =
    | Idle
    | Taken(batch: seq<Rec>)                               // write_batch() entered
    | Opening(first: nat, batch: seq<Rec>)                 // create_segment() entered
    | Headless(first: nat, id: nat, batch: seq<Rec>)       // file created
    | Unsynced(first: nat, id: nat, batch: seq<Rec>)       // header appended
    | Unlisted(first: nat, id: nat, batch: seq<Rec>)       // header synced
    | Ready(batch: seq<Rec>)                               // the batch goes to the active segment
    | Written(batch: seq<Rec>)                             // appended, not synced
    | Durable(batch: seq<Rec>)                             // synced, not yet committed
  {
    predicate Creating() { Headless? || Unsynced? || Unlisted? }
    predicate InFile() { Written? || Durable? }
    function InFlight(): seq<Rec> { if Idle? || InFile() then [] else batch }
  }

  /** `names` are the segments made durable so far, oldest first; `active` is the file
      of the newest one. */
  datatype Writer = Writer(fs: Fs<nat>, phase: Phase, names: seq<nat>, active: nat,
                           pending: seq<Rec>, inbox: seq<Rec>, next: nat, committed: nat)

  /** The server process is up with a writer, or down with a directory as a crash left
      it. `appended` is every record appended so far; of these the first `committed`
      have been reported durable. */
  datatype System =
    | Up(w: Writer, appended: seq<Rec>)
    | Down(dir: Directory, names: seq<nat>, appended: seq<Rec>, committed: nat)

  function Committed(s: System): nat { if s.Up? then s.w.committed else s.committed }

  /** The records reported durable. */
  ghost function Acknowledged(s: System): seq<Rec>
    requires Committed(s) <= |s.appended|
  {
    s.appended[..Committed(s)]
  }

  function Contents(fs: Fs<nat>): Directory
    requires fs.Valid()
  {
    map n | n in fs.durable :: fs.files[fs.durable[n]].data
  }

  // --- steps ---------------------------------------------------------------------------

  datatype Action =
    | AppendRecord(kind: Byte, payload: Bytes)   // owner: append()
    | Flush                                      // owner: flush()
    | TakeBatch | StartWrite                     // log thread: run(), write_batch()
    | CreateFile(id: nat) | WriteHeader | SyncHeader | SyncDirectory   // create_segment()
    | WriteBatch | SyncBatch | Commit            // the rest of write_batch()
    | Crash(chosen: seq<bool>, image: Directory) // power loss or process death
    | CrashAgain                                 // during recovery, after its repairs
    | Reopen                                     // recover_log(), then LogWriter::open()

  const MIN_SEGMENT_SIZE: nat := SEGMENT_HEADER + RECORD_HEADER

  /** A directory with nothing volatile in it; each file is identified by its name. */
  function Settled(dir: Directory): Fs<nat> {
    Fs(map n | n in dir :: File(dir[n], |dir[n]|), map n | n in dir :: n, map n | n in dir :: n, [])
  }

  /** A writer opened on a directory that recovery has just read: everything on disk is
      durable, and the newest segment is continued or the first one created. */
  function OpenOn(dir: Directory, names: seq<nat>, last: nat): Writer {
    Writer(Settled(dir), if names == [] then Opening(last + 1, []) else Idle, names,
           if names == [] then 0 else names[|names| - 1], [], [], last + 1, last)
  }

  /** The steps of a running writer. */
  ghost predicate WriterNext(f: Format, segmentSize: nat, w: Writer, appended: seq<Rec>, a: Action, w': Writer,
                             appended': seq<Rec>)
  {
    match a
    case AppendRecord(kind, payload) =>
      && |payload| <= MAX_PAYLOAD && w.next < 0x1_0000_0000_0000_0000
      && appended' == appended + [Rec(w.next, kind, payload)]
      && w' == w.(pending := w.pending + [Rec(w.next, kind, payload)], next := w.next + 1)
    case Flush =>
      appended' == appended && w' == w.(inbox := w.inbox + w.pending, pending := [])
    case TakeBatch =>
      && w.phase.Idle? && w.inbox != []
      && appended' == appended && w' == w.(phase := Taken(w.inbox), inbox := [])
    case StartWrite =>
      && w.phase.Taken? && w.phase.batch != [] && w.active in w.fs.files
      && appended' == appended
      && var full := |w.fs.files[w.active].data| >= segmentSize;
         w' == w.(phase := if full then Opening(w.phase.batch[0].lsn, w.phase.batch) else Ready(w.phase.batch))
    case CreateFile(id) =>
      && w.phase.Opening? && id !in w.fs.files && w.phase.first !in w.fs.current
      && appended' == appended
      && w' == w.(fs := w.fs.Create(w.phase.first, id), phase := Headless(w.phase.first, id, w.phase.batch))
    case WriteHeader =>
      && w.phase.Headless? && w.phase.id in w.fs.files && w.phase.first < 0x1_0000_0000_0000_0000
      && appended' == appended
      && w' == w.(fs := w.fs.Append(w.phase.id, f.EncodeHeader(w.phase.first)),
                  phase := Unsynced(w.phase.first, w.phase.id, w.phase.batch))
    case SyncHeader =>
      && w.phase.Unsynced? && w.phase.id in w.fs.files
      && appended' == appended
      && w' == w.(fs := w.fs.Sync(w.phase.id), phase := Unlisted(w.phase.first, w.phase.id, w.phase.batch))
    case SyncDirectory =>
      && w.phase.Unlisted?
      && appended' == appended
      && w' == w.(fs := w.fs.SyncDir(), names := w.names + [w.phase.first], active := w.phase.id,
                  phase := if w.phase.batch == [] then Idle else Ready(w.phase.batch))
    case WriteBatch =>
      && w.phase.Ready? && w.active in w.fs.files
      && appended' == appended
      && w' == w.(fs := w.fs.Append(w.active, f.EncodeAll(w.phase.batch)), phase := Written(w.phase.batch))
    case SyncBatch =>
      && w.phase.Written? && w.active in w.fs.files
      && appended' == appended
      && w' == w.(fs := w.fs.Sync(w.active), phase := Durable(w.phase.batch))
    case Commit =>
      && w.phase.Durable? && w.phase.batch != []
      && appended' == appended
      && w' == w.(phase := Idle, committed := w.phase.batch[|w.phase.batch| - 1].lsn)
    case _ => false
  }

  /** Whatever parses in the image was written there. */
  ghost predicate HonestImage(f: Format, fs: Fs<nat>, chosen: seq<bool>, image: Directory)
    requires |chosen| == |fs.pending| && fs.TornTo(chosen, image)
  {
    forall n | n in image :: Honest(f, image[n], fs.files[ApplyChosen(fs.durable, fs.pending, chosen)[n]].data)
  }

  function AfterRepair(s: System, out: Outcome): System
    requires s.Down? && out.result.Success?
  {
    Down(out.dir, if out.result.log.removed && s.names != [] then s.names[..|s.names| - 1]
         else s.names, out.delivered, s.committed)
  }

  ghost predicate Next(f: Format, segmentSize: nat, s: System, a: Action, s': System) {
    match a
    case Crash(chosen, image) =>
      && s.Up?
      && |chosen| == |s.w.fs.pending| && s.w.fs.TornTo(chosen, image) && HonestImage(f, s.w.fs, chosen, image)
      && var names := if s.w.phase.Creating() && chosen == [true] then s.w.names + [s.w.phase.first] else s.w.names;
         s' == Down(image, names, s.appended, s.w.committed)
    case CrashAgain =>
      && s.Down? && IsListing(s.names, s.dir.Keys)
      && var out := Plain(f).Recover(s.dir, s.names);
         out.result.Success? && s' == AfterRepair(s, out)
    case Reopen =>
      && s.Down? && IsListing(s.names, s.dir.Keys)
      && var out := Plain(f).Recover(s.dir, s.names);
         && out.result.Success?
         && s' == Up(OpenOn(out.dir, AfterRepair(s, out).names, out.result.log.last), out.delivered)
    case _ =>
      s.Up? && s'.Up? && WriterNext(f, segmentSize, s.w, s.appended, a, s'.w, s'.appended)
  }

  // --- the invariant -----------------------------------------------------------------------

  /** How many records are in the segment files. */
  function InFiles(w: Writer): nat {
    w.committed + if w.phase.InFile() then |w.phase.batch| else 0
  }

  /** The records have been handed on without loss, duplication or reordering. */
  ghost predicate HandedOn(w: Writer, appended: seq<Rec>) {
    && Numbered(appended, 1) && w.next == |appended| + 1
    && InFiles(w) <= |appended|
    && appended[InFiles(w)..] == w.phase.InFlight() + w.inbox + w.pending
    && (w.phase.InFile() ==> w.phase.batch == appended[w.committed..InFiles(w)])
    && (w.phase.Taken? || w.phase.Ready? || w.phase.InFile() ==> w.phase.batch != [])
  }

  /** Where the sync has got to in each durable segment. */
  ghost predicate SyncedFile(f: Format, w: Writer, appended: seq<Rec>, n: nat)
    requires w.fs.Valid() && InFiles(w) <= |appended|
  {
    n in w.fs.durable ==>
      var file := w.fs.files[w.fs.durable[n]];
      if w.phase.Written? && w.names != [] && n == w.names[|w.names| - 1] then
        && 1 <= n <= w.committed + 1
        && file.synced == SEGMENT_HEADER + |f.EncodeAll(appended[n - 1..w.committed])|
      else file.synced == |file.data|
  }

  ghost predicate Distinct(entries: map<nat, nat>) {
    forall a, b | a in entries && b in entries && a != b :: entries[a] != entries[b]
  }

  /** The segment under construction is not part of the log yet. */
  ghost predicate NewSegment(f: Format, w: Writer)
    requires w.phase.Creating() && w.phase.first < 0x1_0000_0000_0000_0000
  {
    var first, id := w.phase.first, w.phase.id;
    && w.fs.pending == [Link(first, id)]
    && (forall n | n in w.fs.durable :: w.fs.durable[n] != id)
    && id in w.fs.files
    && w.fs.files[id] == (if w.phase.Headless? then File([], 0)
                          else File(f.EncodeHeader(first), if w.phase.Unsynced? then 0 else SEGMENT_HEADER))
  }

  ghost predicate OnDisk(f: Format, w: Writer, appended: seq<Rec>)
    requires InFiles(w) <= |appended|
  {
    && w.fs.Valid() && Distinct(w.fs.durable)
    && IsListing(w.names, w.fs.durable.Keys)
    && Log(f, Contents(w.fs), w.names, appended[..InFiles(w)])
    && (w.names != [] ==>
        w.names[0] == 1 && w.names[|w.names| - 1] <= w.committed + 1 &&
        w.active == w.fs.durable[w.names[|w.names| - 1]])
    && (w.names == [] ==> InFiles(w) == 0 && (w.phase.Opening? || w.phase.Creating()))
    && (forall n: nat :: SyncedFile(f, w, appended, n))
    && (w.phase.Opening? || w.phase.Creating() ==>
          && w.phase.first == InFiles(w) + 1 < 0x1_0000_0000_0000_0000
          && (w.names != [] ==> w.names[|w.names| - 1] < w.phase.first)
          && (w.names == [] ==> w.phase.batch == []))
    && (if w.phase.Creating() then NewSegment(f, w) else w.fs.pending == [])
  }

  ghost predicate Inv(f: Format, s: System) {
    match s
    case Up(w, appended) => HandedOn(w, appended) && OnDisk(f, w, appended)
    case Down(dir, names, appended, committed) =>
      && Numbered(appended, 1) && committed <= |appended|
      && IsListing(names, dir.Keys) && (names != [] ==> names[0] == 1)
      && TornLog(f, dir, names, appended, committed)
  }

  ghost predicate Init(s: System) {
    s == Down(map[], [], [], 0)
  }

  // --- every step keeps the invariant --------------------------------------------------------

  lemma SyncedSame(f: Format, w: Writer, appended: seq<Rec>, w': Writer, appended': seq<Rec>, n: nat)
    requires w.fs.Valid() && InFiles(w) <= |appended| && appended <= appended' && SyncedFile(f, w, appended, n)
    requires w'.fs == w.fs && w'.names == w.names && InFiles(w') == InFiles(w)
    requires w'.committed == w.committed || !w.phase.Written?
    requires w.phase.Written? <==> w'.phase.Written?
    ensures SyncedFile(f, w', appended', n)
  {
    hide Fs.Valid, Format.EncodeAll;
    if w.phase.Written? && 1 <= n <= w.committed + 1 {
      assert appended'[n - 1..w.committed] == appended[n - 1..w.committed];
    }
  }

  /** A step that touches no file keeps the files right. */
  lemma FilesUntouched(f: Format, w: Writer, appended: seq<Rec>, w': Writer, appended': seq<Rec>)
    requires InFiles(w) <= |appended| && OnDisk(f, w, appended) && appended <= appended'
    requires w'.fs == w.fs && w'.names == w.names && w'.active == w.active && InFiles(w') == InFiles(w)
    requires w.committed <= w'.committed && (w'.committed == w.committed || !w.phase.Written?)
    requires w.phase.Written? <==> w'.phase.Written?
    requires w'.phase == w.phase || (w.names != [] && !w.phase.Creating() && !w'.phase.Creating() && !w'.phase.Opening?)
    ensures OnDisk(f, w', appended')
  {
    hide Log, NewSegment, SyncedFile, Distinct, IsListing, Fs.Valid, Contents;
    assert appended'[..InFiles(w')] == appended[..InFiles(w)];
    forall n: nat ensures SyncedFile(f, w', appended', n) { SyncedSame(f, w, appended, w', appended', n); }
    if w.phase.Creating() { assert NewSegment(f, w) ==> NewSegment(f, w') by { NewSegmentSame(f, w, w'); } }
  }

  lemma NewSegmentSame(f: Format, w: Writer, w': Writer)
    requires w'.fs == w.fs && w'.phase == w.phase && w.phase.Creating() && w.phase.first < 0x1_0000_0000_0000_0000
    ensures NewSegment(f, w) <==> NewSegment(f, w')
  {
    hide Format.EncodeHeader;
  }

  /** append() and flush() */
  lemma OwnerStep(f: Format, segmentSize: nat, w: Writer, appended: seq<Rec>, a: Action, w': Writer,
                  appended': seq<Rec>)
    requires Inv(f, Up(w, appended)) && WriterNext(f, segmentSize, w, appended, a, w', appended')
    requires a.AppendRecord? || a.Flush?
    ensures Inv(f, Up(w', appended'))
  {
    hide OnDisk;
    assert appended'[InFiles(w)..] == w.phase.InFlight() + w'.inbox + w'.pending;
    if w.phase.InFile() { assert appended'[w.committed..InFiles(w)] == appended[w.committed..InFiles(w)]; }
    FilesUntouched(f, w, appended, w', appended');
  }

  /** run() takes the batch. */
  lemma TakeStep(f: Format, segmentSize: nat, w: Writer, appended: seq<Rec>, w': Writer, appended': seq<Rec>)
    requires Inv(f, Up(w, appended)) && WriterNext(f, segmentSize, w, appended, TakeBatch, w', appended')
    ensures Inv(f, Up(w', appended'))
  {
    hide Log;
    assert w.phase.InFlight() + w.inbox + w.pending == w'.phase.InFlight() + w'.inbox + w'.pending;
    FilesUntouched(f, w, appended, w', appended');
  }

  /** committed_lsn is stored. */
  lemma CommitStep(f: Format, segmentSize: nat, w: Writer, appended: seq<Rec>, w': Writer, appended': seq<Rec>)
    requires Inv(f, Up(w, appended)) && WriterNext(f, segmentSize, w, appended, Commit, w', appended')
    ensures Inv(f, Up(w', appended')) && w.committed <= w'.committed
  {
    hide Log;
    assert w'.committed == InFiles(w);
    FilesUntouched(f, w, appended, w', appended');
  }

  /** write_batch() decides whether to roll. A full segment holds at least one record,
      so the new segment gets a new name. */
  lemma StartStep(f: Format, segmentSize: nat, w: Writer, appended: seq<Rec>, w': Writer, appended': seq<Rec>)
    requires segmentSize >= MIN_SEGMENT_SIZE
    requires Inv(f, Up(w, appended)) && WriterNext(f, segmentSize, w, appended, StartWrite, w', appended')
    ensures Inv(f, Up(w', appended'))
  {
    hide Log, Format.Encode, Format.ParseHeader;
    if w'.phase.Opening? {
      var last := w.names[|w.names| - 1];
      assert w.phase.batch[0] == appended[InFiles(w)..][0] == appended[InFiles(w)];
      LastHolds(f, Contents(w.fs), w.names, appended[..InFiles(w)]);
      assert last in w.names;
      assert last > InFiles(w) ==> |appended[..InFiles(w)][last - 1..]| == 0;
      forall n: nat ensures SyncedFile(f, w', appended', n) { assert SyncedFile(f, w, appended, n); }
    } else {
      FilesUntouched(f, w, appended, w', appended');
    }
  }

  /** Changing a file that no durable entry names changes no durable contents. */
  lemma OtherFile(f: Format, w: Writer, w': Writer, appended: seq<Rec>, id: nat)
    requires w.fs.Valid() && w'.fs.Valid() && w'.fs.durable == w.fs.durable
    requires forall i | i in w.fs.files && i != id :: i in w'.fs.files && w'.fs.files[i] == w.fs.files[i]
    requires forall n | n in w.fs.durable :: w.fs.durable[n] != id
    requires !w.phase.Written? && !w'.phase.Written? && InFiles(w) == InFiles(w') <= |appended|
    requires forall n: nat :: SyncedFile(f, w, appended, n)
    ensures Contents(w'.fs) == Contents(w.fs)
    ensures forall n: nat :: SyncedFile(f, w', appended, n)
  {
    forall n: nat ensures SyncedFile(f, w', appended, n) { assert SyncedFile(f, w, appended, n); }
  }

  lemma HandedSame(w: Writer, w': Writer, appended: seq<Rec>)
    requires HandedOn(w, appended)
    requires w'.pending == w.pending && w'.inbox == w.inbox && w'.next == w.next && w'.committed == w.committed
    requires w'.phase.InFlight() == w.phase.InFlight()
    requires !w.phase.InFile() && !w'.phase.InFile() && (w'.phase.Taken? || w'.phase.Ready? ==> w'.phase.batch != [])
    ensures HandedOn(w', appended) && InFiles(w') == InFiles(w)
  {
  }

  /** create_segment(), up to the directory sync: the log itself does not change. */
  lemma CreateStep(f: Format, segmentSize: nat, w: Writer, appended: seq<Rec>, a: Action, w': Writer,
                   appended': seq<Rec>)
    requires Inv(f, Up(w, appended)) && WriterNext(f, segmentSize, w, appended, a, w', appended')
    requires a.CreateFile? || a.WriteHeader? || a.SyncHeader?
    ensures Inv(f, Up(w', appended'))
  {
    hide Log, Format.EncodeHeader, Distinct, IsListing, HandedOn, SyncedFile, Contents, Fs.Valid, NewSegment;
    HandedSame(w, w', appended);
    if a.CreateFile? {
      CreateFileStep(f, w, appended, a.id, w');
    } else {
      HeaderStep(f, w, appended, a, w');
    }
    OtherFile(f, w, w', appended, w'.phase.id);
  }

  lemma CreateFileStep(f: Format, w: Writer, appended: seq<Rec>, id: nat, w': Writer)
    requires InFiles(w) <= |appended| && OnDisk(f, w, appended) && w.phase.Opening? && id !in w.fs.files &&
             w.phase.first !in w.fs.current
    requires w' == w.(fs := w.fs.Create(w.phase.first, id), phase := Headless(w.phase.first, id, w.phase.batch))
    ensures w'.fs.Valid() && NewSegment(f, w')
    ensures (forall i | i in w.fs.files && i != id :: i in w'.fs.files && w'.fs.files[i] == w.fs.files[i])
    ensures forall n | n in w.fs.durable :: w.fs.durable[n] != id
  {
    hide Log, Format.EncodeHeader, Distinct, IsListing, SyncedFile, Contents;
    w.fs.CreateIsValid(w.phase.first, id);
    assert w.fs.pending + [Link(w.phase.first, id)] == [Link(w.phase.first, id)];
  }

  lemma HeaderStep(f: Format, w: Writer, appended: seq<Rec>, a: Action, w': Writer)
    requires InFiles(w) <= |appended| && OnDisk(f, w, appended) && (a.WriteHeader? || a.SyncHeader?)
    requires WriterNext(f, 0, w, appended, a, w', appended)
    ensures w'.fs.Valid() && NewSegment(f, w')
    ensures (forall i | i in w.fs.files && i != w'.phase.id :: i in w'.fs.files && w'.fs.files[i] == w.fs.files[i])
    ensures forall n | n in w.fs.durable :: w.fs.durable[n] != w'.phase.id
  {
    hide Log, Format.EncodeHeader, Distinct, IsListing, SyncedFile, Contents, Fs.Valid;
    if a.WriteHeader? {
      w.fs.AppendIsValid(w.phase.id, f.EncodeHeader(w.phase.first));
      assert [] + f.EncodeHeader(w.phase.first) == f.EncodeHeader(w.phase.first);
    } else {
      w.fs.SyncIsValid(w.phase.id);
    }
  }

  /** The directory sync makes the new segment part of the log. */
  lemma ListStep(f: Format, segmentSize: nat, w: Writer, appended: seq<Rec>, w': Writer, appended': seq<Rec>)
    requires Inv(f, Up(w, appended)) && WriterNext(f, segmentSize, w, appended, SyncDirectory, w', appended')
    ensures Inv(f, Up(w', appended'))
  {
    hide Log, Format.EncodeHeader, Format.ParseHeader, Contents, SyncedFile, Distinct, IsListing, Numbered, Fs.Valid;
    w.fs.SyncDirIsValid();
    ListEntries(f, w, appended);
    ListLog(f, w, appended);
    ListSynced(f, w, appended, w');
    if w.names != [] { assert w'.names[0] == w.names[0]; }
  }

  lemma ListEntries(f: Format, w: Writer, appended: seq<Rec>)
    requires InFiles(w) <= |appended| && OnDisk(f, w, appended) && w.phase.Unlisted?
    ensures var current := w.fs.current;
            && current == w.fs.durable[w.phase.first := w.phase.id]
            && Distinct(current) && IsListing(w.names + [w.phase.first], current.Keys) && w.phase.first !in w.names
  {
    hide Log, Format.EncodeHeader, Format.ParseHeader, SyncedFile, Contents;
    OneLink(w.fs.durable, w.fs.pending[0]);
    ListingGrows(w.names, w.fs.durable.Keys, w.phase.first);
    assert w.fs.current.Keys == w.fs.durable.Keys + {w.phase.first};
  }

  lemma ListSynced(f: Format, w: Writer, appended: seq<Rec>, w': Writer)
    requires InFiles(w) <= |appended| && OnDisk(f, w, appended) && w.phase.Unlisted?
    requires w'.fs.Valid() && w'.fs.files == w.fs.files && w'.fs.durable == w.fs.durable[w.phase.first := w.phase.id]
    requires !w'.phase.Written? && InFiles(w') == InFiles(w)
    ensures forall n: nat :: SyncedFile(f, w', appended, n)
  {
    hide Log, Format.EncodeHeader, Format.ParseHeader, IsListing, Distinct;
    forall n: nat ensures SyncedFile(f, w', appended, n) { assert SyncedFile(f, w, appended, n); }
  }

  lemma ListingGrows(names: seq<nat>, keys: set<nat>, first: nat)
    requires IsListing(names, keys) && (names != [] ==> names[|names| - 1] < first)
    ensures IsListing(names + [first], keys + {first}) && first !in names
  {
    forall n | n in names ensures n < first { var i :| 0 <= i < |names| && names[i] == n; }
  }

  lemma ListLog(f: Format, w: Writer, appended: seq<Rec>)
    requires InFiles(w) <= |appended| && OnDisk(f, w, appended) && w.phase.Unlisted?
    requires w.phase.first !in w.names && w.fs.SyncDir().Valid() &&
             w.fs.current == w.fs.durable[w.phase.first := w.phase.id]
    ensures Log(f, Contents(w.fs.SyncDir()), w.names + [w.phase.first], appended[..InFiles(w)])
  {
    hide Log, Format.EncodeHeader, Format.ParseHeader, Distinct, IsListing, SyncedFile;
    var first, header := w.phase.first, f.EncodeHeader(w.phase.first);
    assert Contents(w.fs.SyncDir()) == Contents(w.fs)[first := header];
    f.HeaderRoundTrip(first, []);
    assert header + [] == header && header[SEGMENT_HEADER..] == [];
    assert Holds(f, header, first, []);
    LogRolls(f, Contents(w.fs), w.names, appended[..InFiles(w)], first, header);
  }

  lemma OneLink(entries: map<nat, nat>, op: DirOp<nat>)
    ensures ApplyChosen(entries, [op], All(1, true)) == Apply(entries, op)
    ensures ApplyChosen(entries, [op], [true]) == Apply(entries, op)
    ensures ApplyChosen(entries, [op], [false]) == entries
  {
  }

  /** The batch reaches the active segment. */
  lemma WriteStep(f: Format, segmentSize: nat, w: Writer, appended: seq<Rec>, w': Writer, appended': seq<Rec>)
    requires Inv(f, Up(w, appended)) && WriterNext(f, segmentSize, w, appended, WriteBatch, w', appended')
    ensures Inv(f, Up(w', appended'))
  {
    hide Log, Format.Encode, Format.ParseHeader, Distinct, IsListing;
    var batch := w.phase.batch;
    assert batch == appended[InFiles(w)..][..|batch|] == appended[w.committed..InFiles(w')];
    assert appended[InFiles(w')..] == w.inbox + w.pending;
    w.fs.AppendIsValid(w.active, f.EncodeAll(batch));
    WriteLog(f, w, appended, w');
  }

  /** Appending to a file changes the contents of its one durable entry. */
  lemma ContentsGrow(fs: Fs<nat>, n: nat, bytes: Bytes)
    requires fs.Valid() && Distinct(fs.durable) && n in fs.durable && fs.Append(fs.durable[n], bytes).Valid()
    ensures Contents(fs.Append(fs.durable[n], bytes)) == Contents(fs)[n := Contents(fs)[n] + bytes]
  {
  }

  lemma WriteLog(f: Format, w: Writer, appended: seq<Rec>, w': Writer)
    requires InFiles(w) <= InFiles(w') <= |appended| && OnDisk(f, w, appended) && w.phase.Ready? &&
             w.active in w.fs.files
    requires w.phase.batch == appended[InFiles(w)..InFiles(w')]
    requires w' == w.(fs := w.fs.Append(w.active, f.EncodeAll(w.phase.batch)), phase := Written(w.phase.batch)) &&
             w'.fs.Valid()
    ensures Log(f, Contents(w'.fs), w.names, appended[..InFiles(w')])
    ensures forall n: nat :: SyncedFile(f, w', appended, n)
  {
    hide Log, Format.Encode, Format.ParseHeader, Format.EncodeAll, Contents, Distinct, Fs.Valid, SyncedFile, Holds;
    var last, batch := w.names[|w.names| - 1], w.phase.batch;
    assert last in w.names;
    assert appended[..InFiles(w')] == appended[..InFiles(w)] + batch;
    LogGrows(f, Contents(w.fs), w.names, appended[..InFiles(w)], batch);
    ContentsGrow(w.fs, last, f.EncodeAll(batch));
    WriteSynced(f, w, appended, w');
  }

  lemma WriteSynced(f: Format, w: Writer, appended: seq<Rec>, w': Writer)
    requires InFiles(w) <= InFiles(w') <= |appended| && OnDisk(f, w, appended) && w.phase.Ready? &&
             w.active in w.fs.files
    requires w' == w.(fs := w.fs.Append(w.active, f.EncodeAll(w.phase.batch)), phase := Written(w.phase.batch)) &&
             w'.fs.Valid()
    ensures forall n: nat :: SyncedFile(f, w', appended, n)
  {
    hide Log, Format.Encode, Format.ParseHeader, Format.EncodeAll, IsListing;
    var last, before := w.names[|w.names| - 1], appended[..InFiles(w)];
    LastHolds(f, Contents(w.fs), w.names, before);
    assert before[last - 1..] == appended[last - 1..w.committed];
    forall n: nat ensures SyncedFile(f, w', appended, n) {
      assert SyncedFile(f, w, appended, n);
      if n == last { assert |w.fs.files[w.active].data| == SEGMENT_HEADER + |f.EncodeAll(before[last - 1..])|; }
    }
  }

  /** fdatasync returns. */
  lemma SyncStep(f: Format, segmentSize: nat, w: Writer, appended: seq<Rec>, w': Writer, appended': seq<Rec>)
    requires Inv(f, Up(w, appended)) && WriterNext(f, segmentSize, w, appended, SyncBatch, w', appended')
    ensures Inv(f, Up(w', appended'))
  {
    hide Log, IsListing;
    w.fs.SyncIsValid(w.active);
    assert Contents(w'.fs) == Contents(w.fs);
    forall n: nat ensures SyncedFile(f, w', appended', n) { assert SyncedFile(f, w, appended, n); }
  }

  // --- crashes ------------------------------------------------------------------------------

  /** What the newest segment still holds after its file was torn. */
  lemma TearFile(f: Format, file: File, image: Bytes, last: nat, recs: seq<Rec>, w: nat, safe: nat)
    requires safe <= w <= |recs| && Numbered(recs, last) && Holds(f, file.data, last, recs[..w])
    requires SEGMENT_HEADER + |f.EncodeAll(recs[..safe])| <= file.synced <= |file.data|
    requires TornFile(file, image) && Honest(f, image, file.data)
    ensures TornSegment(f, image, last, recs, safe)
  {
    hide Format.Parse, Format.ParseHeader, Format.EncodeAll, TornRecords, Honest;
    var data := file.data;
    assert image[..file.synced] == data[..file.synced] by {
      var good :| file.synced <= good <= |image| <= good + 64 && image[..good] == data[..good];
      assert image[..file.synced] == image[..good][..file.synced];
      assert data[..file.synced] == data[..good][..file.synced];
    }
    assert image[..SEGMENT_HEADER] == image[..file.synced][..SEGMENT_HEADER];
    assert data[..SEGMENT_HEADER] == data[..file.synced][..SEGMENT_HEADER];
    f.HeaderIsLocal(data, image);
    SafePrefix(f, data, image, recs, w, safe, file.synced);
    TornTail(f, image, data, recs, SEGMENT_HEADER, w, safe, last);
  }

  lemma SafePrefix(f: Format, data: Bytes, image: Bytes, recs: seq<Rec>, w: nat, safe: nat, synced: nat)
    requires safe <= w <= |recs| && SEGMENT_HEADER <= |data| && data[SEGMENT_HEADER..] == f.EncodeAll(recs[..w])
    requires SEGMENT_HEADER + |f.EncodeAll(recs[..safe])| <= synced <= |image| && synced <= |data| &&
             image[..synced] == data[..synced]
    ensures f.EncodeAll(recs[..safe]) <= image[SEGMENT_HEADER..]
  {
    hide Format.EncodeAll;
    f.EncodeAllAppend(recs[..safe], recs[safe..w]);
    assert recs[..safe] + recs[safe..w] == recs[..w];
    var n := |f.EncodeAll(recs[..safe])|;
    assert image[SEGMENT_HEADER..][..n] == image[..synced][SEGMENT_HEADER..SEGMENT_HEADER + n];
    assert data[SEGMENT_HEADER..][..n] == data[..synced][SEGMENT_HEADER..SEGMENT_HEADER + n];
  }

  /** A fully synced file survives a crash unchanged. */
  lemma SyncedSurvives(file: File, image: Bytes)
    requires file.synced == |file.data| && TornFile(file, image)
    ensures image == file.data
  {
    var good :| file.synced <= good <= |image| <= good + 64 && image[..good] == file.data[..good];
    assert image[..good] == image && file.data[..good] == file.data;
  }

  /** The part of the crash that concerns the segments already in the log. */
  lemma TearDurable(f: Format, w: Writer, appended: seq<Rec>, image: Directory)
    requires HandedOn(w, appended) && OnDisk(f, w, appended) && w.names != []
    requires forall n | n in w.names :: n in image && TornFile(w.fs.files[w.fs.durable[n]], image[n])
                                        && Honest(f, image[n], w.fs.files[w.fs.durable[n]].data)
    ensures TornLog(f, image, w.names, appended, w.committed)
    ensures !w.phase.Written? ==> forall n | n in w.names :: image[n] == Contents(w.fs)[n]
  {
    hide Format.Parse, Format.ParseHeader, Format.Encode, Log, TornFile, Honest, TornSegment, Holds, NewSegment;
    var names, last := w.names, w.names[|w.names| - 1];
    var total := InFiles(w);
    forall i | 0 <= i < |names| && (i < |names| - 1 || !w.phase.Written?)
      ensures names[i] in w.fs.durable && image[names[i]] == Contents(w.fs)[names[i]]
    {
      assert names[i] in names;
      assert SyncedFile(f, w, appended, names[i]);
      SyncedSurvives(w.fs.files[w.fs.durable[names[i]]], image[names[i]]);
    }
    TearActive(f, w, appended, image[last]);
    TearLast(f, Contents(w.fs), image, names, total, appended, w.committed);
  }

  lemma TearActive(f: Format, w: Writer, appended: seq<Rec>, image: Bytes)
    requires HandedOn(w, appended) && OnDisk(f, w, appended) && w.names != []
    requires w.active in w.fs.files && TornFile(w.fs.files[w.active], image) &&
             Honest(f, image, w.fs.files[w.active].data)
    ensures var last := w.names[|w.names| - 1];
            last - 1 <= w.committed && TornSegment(f, image, last, appended[last - 1..], w.committed - (last - 1))
  {
    hide Format.ParseHeader, Format.EncodeAll, Log, TornFile, Honest, TornSegment, NewSegment, Distinct, Numbered,
         IsListing;
    var last, file := w.names[|w.names| - 1], w.fs.files[w.active];
    assert last in w.names;
    LastHolds(f, Contents(w.fs), w.names, appended[..InFiles(w)]);
    assert SyncedFile(f, w, appended, last);
    var recs, count, safe := appended[last - 1..], InFiles(w) - (last - 1), w.committed - (last - 1);
    TailOfAppended(appended, last, w.committed, InFiles(w));
    PartIsShorter(f, recs, safe, count);
    hide Contents, SyncedFile, Numbered, Fs.Valid, OnDisk, HandedOn;
    TearFile(f, file, image, last, recs, count, safe);
  }

  lemma TailOfAppended(appended: seq<Rec>, last: nat, committed: nat, written: nat)
    requires Numbered(appended, 1) && 1 <= last <= committed + 1 && committed <= written <= |appended|
    ensures var recs := appended[last - 1..];
            && appended[..written][last - 1..] == recs[..written - (last - 1)]
            && appended[last - 1..committed] == recs[..committed - (last - 1)] && Numbered(recs, last)
  {
  }

  lemma PartIsShorter(f: Format, recs: seq<Rec>, a: nat, b: nat)
    requires a <= b <= |recs|
    ensures |f.EncodeAll(recs[..a])| <= |f.EncodeAll(recs[..b])|
  {
    hide Format.EncodeAll;
    f.EncodeAllAppend(recs[..a], recs[a..b]);
    assert recs[..a] + recs[a..b] == recs[..b];
  }

  /** The assumption about garbage is empty for every crash that leaves none: when each
      surviving file is a part of what was written, the image is honest. */
  lemma NoGarbageIsHonest(f: Format, fs: Fs<nat>, chosen: seq<bool>, image: Directory)
    requires |chosen| == |fs.pending| && fs.TornTo(chosen, image)
    requires forall n | n in image :: image[n] <= fs.files[ApplyChosen(fs.durable, fs.pending, chosen)[n]].data
    ensures HonestImage(f, fs, chosen, image)
  {
    forall n | n in image ensures Honest(f, image[n], fs.files[ApplyChosen(fs.durable, fs.pending, chosen)[n]].data) {
      PrefixIsHonest(f, image[n], fs.files[ApplyChosen(fs.durable, fs.pending, chosen)[n]].data);
    }
  }

  /** A crash at any point leaves a torn log that still holds everything committed. */
  lemma CrashStep(f: Format, segmentSize: nat, s: System, a: Action, s': System)
    requires Inv(f, s) && a.Crash? && Next(f, segmentSize, s, a, s')
    ensures Inv(f, s')
  {
    hide Log, TornLog, Honest, TornFile, Distinct, NewSegment, Fs.Valid, SyncedFile, Contents;
    var w := s.w;
    SurvivingEntries(f, w, s.appended, a.chosen);
    CrashTears(f, w, s.appended, a.chosen, a.image);
  }

  /** Only the link of a segment under construction can be lost or kept. */
  lemma SurvivingEntries(f: Format, w: Writer, appended: seq<Rec>, chosen: seq<bool>)
    requires InFiles(w) <= |appended| && OnDisk(f, w, appended) && |chosen| == |w.fs.pending|
    ensures var entries := ApplyChosen(w.fs.durable, w.fs.pending, chosen);
            if w.phase.Creating() && chosen == [true] then
              && entries == w.fs.durable[w.phase.first := w.phase.id]
              && IsListing(w.names + [w.phase.first], entries.Keys) && w.phase.first !in w.names
            else entries == w.fs.durable
  {
    hide Log, Distinct, Fs.Valid, SyncedFile, Contents;
    if w.phase.Creating() {
      OneLink(w.fs.durable, w.fs.pending[0]);
      assert chosen == [chosen[0]];
      ListingGrows(w.names, w.fs.durable.Keys, w.phase.first);
      assert w.fs.durable[w.phase.first := w.phase.id].Keys == w.fs.durable.Keys + {w.phase.first};
    }
  }

  lemma CrashTears(f: Format, w: Writer, appended: seq<Rec>, chosen: seq<bool>, image: Directory)
    requires HandedOn(w, appended) && OnDisk(f, w, appended)
    requires |chosen| == |w.fs.pending| && w.fs.TornTo(chosen, image) && HonestImage(f, w.fs, chosen, image)
    ensures TornLog(f, image, if w.phase.Creating() && chosen == [true] then w.names + [w.phase.first]
                    else w.names, appended, w.committed)
  {
    hide Log, TornLog, Honest, TornFile, Distinct, SyncedFile, NewSegment;
    SurvivingEntries(f, w, appended, chosen);
    assert forall n | n in w.names :: n in w.fs.durable && n in image;
    if w.names != [] { TearDurable(f, w, appended, image); } else { EmptyTorn(f, image, appended); }
    if w.phase.Creating() && chosen == [true] {
      StubIsShort(f, w, image[w.phase.first]);
      AddStub(f, Contents(w.fs), image, w.names, InFiles(w), appended, w.committed, w.phase.first);
    }
  }

  lemma StubIsShort(f: Format, w: Writer, image: Bytes)
    requires w.phase.Creating() && w.phase.first < 0x1_0000_0000_0000_0000 && NewSegment(f, w)
    requires TornFile(w.fs.files[w.phase.id], image)
    ensures |image| <= SEGMENT_HEADER
  {
  }

  lemma EmptyTorn(f: Format, image: Directory, recs: seq<Rec>)
    ensures TornLog(f, image, [], recs, 0)
  {
  }

  // --- recovery -------------------------------------------------------------------------------

  /** What recovery hands to the next writer: a prefix of what was appended, with
      everything committed, in an intact log. */
  lemma Repair(f: Format, s: System) returns (m: nat)
    requires Inv(f, s) && s.Down?
    ensures var out := Plain(f).Recover(s.dir, s.names);
            out.result.Success? ==>
              && s.committed <= m <= |s.appended|
              && out.delivered == s.appended[..m] && out.result.log.last == m
              && var t := AfterRepair(s, out);
                 && IsListing(t.names, t.dir.Keys) && (t.names != [] ==> t.names[0] == 1)
                 && Log(f, t.dir, t.names, t.appended)
  {
    hide Log, TornLog, Recovery.RecoverFrom, Recovery.Recover;
    m := RecoverTorn(f, s.dir, s.names, s.appended, s.committed);
    var out := Plain(f).Recover(s.dir, s.names);
    if out.result.Success? {
      assert [] + s.appended[..m] == s.appended[..m];
      if out.result.log.removed { ListingInit(s.names, s.dir.Keys); }
    }
  }

  /** A second crash, after recovery made its repairs. */
  lemma CrashAgainStep(f: Format, segmentSize: nat, s: System, s': System)
    requires Inv(f, s) && Next(f, segmentSize, s, CrashAgain, s')
    ensures Inv(f, s')
    ensures s'.appended <= s.appended && s.committed <= |s'.appended|
  {
    hide Log, TornLog, Recovery.Recover;
    var m := Repair(f, s);
    LogIsTorn(f, s'.dir, s'.names, s'.appended, s.committed);
  }

  /** recover_log() followed by LogWriter::open(). */
  lemma ReopenStep(f: Format, segmentSize: nat, s: System, s': System)
    requires Inv(f, s) && Next(f, segmentSize, s, Reopen, s')
    ensures Inv(f, s')
    ensures s'.appended <= s.appended && s.committed <= s'.w.committed == |s'.appended|
  {
    hide Log, Recovery.Recover, TornLog, IsListing, OnDisk, Numbered, OpenOn;
    var m := Repair(f, s);
    var t := AfterRepair(s, Plain(f).Recover(s.dir, s.names));
    NumberedPrefix(s.appended, 1, m);
    Opened(f, t.dir, t.names, t.appended);
  }

  lemma NumberedPrefix(rs: seq<Rec>, first: nat, m: nat)
    requires Numbered(rs, first) && m <= |rs|
    ensures Numbered(rs[..m], first)
  {
  }

  lemma SettledFacts(dir: Directory)
    ensures Settled(dir).Valid() && Distinct(Settled(dir).durable)
    ensures Settled(dir).durable.Keys == dir.Keys && Contents(Settled(dir)) == dir
    ensures forall n | n in dir :: Settled(dir).durable[n] == n && Settled(dir).files[n] == File(dir[n], |dir[n]|)
  {
  }

  /** A writer opened on an intact log starts out right. */
  lemma Opened(f: Format, dir: Directory, names: seq<nat>, recs: seq<Rec>)
    requires IsListing(names, dir.Keys) && (names != [] ==> names[0] == 1) && Log(f, dir, names, recs) &&
             Numbered(recs, 1)
    ensures Inv(f, Up(OpenOn(dir, names, |recs|), recs))
    ensures OpenOn(dir, names, |recs|).committed == |recs|
  {
    hide Log, Holds, Settled, Fs.Valid, Distinct, Contents, Numbered;
    var w := OpenOn(dir, names, |recs|);
    SettledFacts(dir);
    NothingPending(dir);
    assert HandedOn(w, recs) by { assert recs[InFiles(w)..] == []; }
    assert forall n: nat :: SyncedFile(f, w, recs, n);
    assert recs[..InFiles(w)] == recs;
    hide IsListing, HandedOn, SyncedFile;
    if names != [] {
      LastHolds(f, dir, names, recs);
    } else {
      NoSegments(f, dir, recs);
    }
  }

  lemma NothingPending(dir: Directory)
    ensures Settled(dir).pending == []
  {
  }

  lemma NoSegments(f: Format, dir: Directory, recs: seq<Rec>)
    requires Log(f, dir, [], recs)
    ensures recs == []
  {
  }

  // --- the theorem -------------------------------------------------------------------------------

  /** Every step keeps the invariant, and nothing that was reported durable is ever lost
      or replaced, whatever crashes. */
  lemma StepIsSafe(f: Format, segmentSize: nat, s: System, a: Action, s': System)
    requires segmentSize >= MIN_SEGMENT_SIZE && Inv(f, s) && Next(f, segmentSize, s, a, s')
    ensures Inv(f, s')
    ensures Committed(s) <= |s.appended| && Committed(s') <= |s'.appended|
    ensures Acknowledged(s) <= Acknowledged(s')
  {
    hide OnDisk, TornLog, Recovery.Recover, IsListing;
    match a
    case AppendRecord(_, _) => OwnerStep(f, segmentSize, s.w, s.appended, a, s'.w, s'.appended);
    case Flush => OwnerStep(f, segmentSize, s.w, s.appended, a, s'.w, s'.appended);
    case TakeBatch => TakeStep(f, segmentSize, s.w, s.appended, s'.w, s'.appended);
    case StartWrite => StartStep(f, segmentSize, s.w, s.appended, s'.w, s'.appended);
    case CreateFile(_) => CreateStep(f, segmentSize, s.w, s.appended, a, s'.w, s'.appended);
    case WriteHeader => CreateStep(f, segmentSize, s.w, s.appended, a, s'.w, s'.appended);
    case SyncHeader => CreateStep(f, segmentSize, s.w, s.appended, a, s'.w, s'.appended);
    case SyncDirectory => ListStep(f, segmentSize, s.w, s.appended, s'.w, s'.appended);
    case WriteBatch => WriteStep(f, segmentSize, s.w, s.appended, s'.w, s'.appended);
    case SyncBatch => SyncStep(f, segmentSize, s.w, s.appended, s'.w, s'.appended);
    case Commit => CommitStep(f, segmentSize, s.w, s.appended, s'.w, s'.appended);
    case Crash(_, _) => CrashStep(f, segmentSize, s, a, s');
    case CrashAgain => CrashAgainStep(f, segmentSize, s, s');
    case Reopen => ReopenStep(f, segmentSize, s, s');
  }

  /** A run: states linked by steps. */
  ghost predicate IsRun(f: Format, segmentSize: nat, states: seq<System>, actions: seq<Action>) {
    && |states| == |actions| + 1
    && Init(states[0])
    && forall i | 0 <= i < |actions| :: Next(f, segmentSize, states[i], actions[i], states[i + 1])
  }

  lemma InitHolds(f: Format, s: System)
    requires Init(s)
    ensures Inv(f, s)
  {
  }

  lemma {:induction false} RunKeepsInv(f: Format, segmentSize: nat, states: seq<System>, actions: seq<Action>, j: nat)
    requires segmentSize >= MIN_SEGMENT_SIZE && IsRun(f, segmentSize, states, actions) && j < |states|
    ensures Inv(f, states[j])
  {
    hide Inv, Next, Init;
    if j == 0 {
      InitHolds(f, states[0]);
    } else {
      RunKeepsInv(f, segmentSize, states, actions, j - 1);
      assert Next(f, segmentSize, states[j - 1], actions[j - 1], states[j - 1 + 1]);
      StepIsSafe(f, segmentSize, states[j - 1], actions[j - 1], states[j]);
    }
  }

  /** Crash safety of the log: over any run with any number of crashes, what has been
      acknowledged stays, as a prefix, in everything acknowledged later. */
  lemma {:induction false} AcknowledgedForever(f: Format, segmentSize: nat, states: seq<System>, actions: seq<Action>,
                                               i: nat, j: nat)
    requires segmentSize >= MIN_SEGMENT_SIZE && IsRun(f, segmentSize, states, actions) && i <= j < |states|
    ensures Inv(f, states[i]) && Inv(f, states[j])
    ensures Committed(states[i]) <= |states[i].appended| && Committed(states[j]) <= |states[j].appended|
    ensures Acknowledged(states[i]) <= Acknowledged(states[j])
    decreases j
  {
    hide Inv, Next, Init;
    RunKeepsInv(f, segmentSize, states, actions, i);
    RunKeepsInv(f, segmentSize, states, actions, j);
    CommittedIsAppended(f, states[i]);
    CommittedIsAppended(f, states[j]);
    if i < j {
      AcknowledgedForever(f, segmentSize, states, actions, i, j - 1);
      assert Next(f, segmentSize, states[j - 1], actions[j - 1], states[j - 1 + 1]);
      StepIsSafe(f, segmentSize, states[j - 1], actions[j - 1], states[j]);
    }
  }

  lemma CommittedIsAppended(f: Format, s: System)
    requires Inv(f, s)
    ensures Committed(s) <= |s.appended|
  {
    hide OnDisk, TornLog;
  }

  /** Recovery at any point of any run delivers an exact prefix of the records appended
      before the crash that includes every committed one; and it succeeds unless the
      torn end of the newest segment holds a plausible record. */
  lemma RecoveryIsExact(f: Format, segmentSize: nat, states: seq<System>, actions: seq<Action>, j: nat)
    requires segmentSize >= MIN_SEGMENT_SIZE && IsRun(f, segmentSize, states, actions) && j < |states| &&
             states[j].Down?
    ensures var s := states[j];
            && IsListing(s.names, s.dir.Keys)
            && var out := Plain(f).Recover(s.dir, s.names);
               && (out.result.Success? ==>
                   out.delivered <= s.appended && s.committed <= |out.delivered| == out.result.log.last)
               && (out.result.Success? <==>
                   s.names == [] || NothingValidTorn(f, s.dir[s.names[|s.names| - 1]], s.names[|s.names| - 1]))
  {
    RunKeepsInv(f, segmentSize, states, actions, j);
    hide TornLog, Recovery.Recover, NothingValidTorn, IsRun;
    var s := states[j];
    var m := Repair(f, s);
    TornSucceeds(f, s.dir, s.names, s.appended, s.committed);
  }
}
