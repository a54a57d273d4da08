/**
 What the log thread does get done: it is never stuck before everything appended is committed,
 and it goes to a new segment exactly when the newest one is full.
 */
module LogProgress {
  import opened LogFormat
  import opened LogRecovery
  import opened LogDisk
  import opened SimFs
  import opened LogWriter

  // --- new segments ----------------------------------------------------------------------------------

  /** A batch is on its way to a segment that is not full; a new segment is on its way only if there is
      none yet or the newest is full. */
  ghost predicate Rolls(segmentSize: nat, w: Writer) {
    && (w.phase.Ready? ==> w.active in w.fs.files && |w.fs.files[w.active].data| < segmentSize)
    && ((w.phase.Opening? || w.phase.Creating()) && w.names != [] ==>
          w.phase.batch != [] && w.active in w.fs.files && |w.fs.files[w.active].data| >= segmentSize)
  }

  ghost predicate AllRolls(segmentSize: nat, s: System) { s.Up? ==> Rolls(segmentSize, s.w) }

  lemma StepRolls(f: Format, segmentSize: nat, s: System, a: Action, s': System)
    requires segmentSize >= MIN_SEGMENT_SIZE && Inv(f, s) && AllRolls(segmentSize, s) && Next(f, segmentSize, s, a, s')
    ensures AllRolls(segmentSize, s')
  {
    hide OnDisk, TornLog, Recovery.Recover, IsListing, Rolls, WriterNext, HandedOn;
    if s'.Up? {
      if a.Reopen? {
        assert Rolls(segmentSize, s'.w) by { OpenedRolls(segmentSize, s'.w); }
      } else if a.CreateFile? || a.WriteHeader? || a.SyncHeader? {
        CreateRolls(f, segmentSize, s.w, s.appended, a, s'.w, s'.appended);
      } else if a.SyncDirectory? {
        ListRolls(f, segmentSize, s.w, s.appended, s'.w, s'.appended);
      } else {
        BatchRolls(f, segmentSize, s.w, s.appended, a, s'.w, s'.appended);
      }
    }
  }

  lemma OpenedRolls(segmentSize: nat, w: Writer)
    requires w.phase.Idle? || (w.phase.Opening? && w.names == [])
    ensures Rolls(segmentSize, w)
  {
  }

  lemma BatchRolls(f: Format, segmentSize: nat, w: Writer, appended: seq<Rec>, a: Action, w': Writer,
                   appended': seq<Rec>)
    requires Rolls(segmentSize, w) && WriterNext(f, segmentSize, w, appended, a, w', appended')
    requires !a.CreateFile? && !a.WriteHeader? && !a.SyncHeader? && !a.SyncDirectory?
    ensures Rolls(segmentSize, w')
  {
    hide Format.EncodeAll;
  }

  lemma CreateRolls(f: Format, segmentSize: nat, w: Writer, appended: seq<Rec>, a: Action, w': Writer,
                    appended': seq<Rec>)
    requires Inv(f, Up(w, appended)) && Rolls(segmentSize, w)
    requires WriterNext(f, segmentSize, w, appended, a, w', appended')
    requires a.CreateFile? || a.WriteHeader? || a.SyncHeader?
    ensures Rolls(segmentSize, w')
  {
    hide OnDisk, HandedOn, Format.EncodeHeader;
    if !a.CreateFile? { ActiveIsOther(f, w, appended); }
  }

  lemma ListRolls(f: Format, segmentSize: nat, w: Writer, appended: seq<Rec>, w': Writer, appended': seq<Rec>)
    requires segmentSize >= MIN_SEGMENT_SIZE && Inv(f, Up(w, appended)) && Rolls(segmentSize, w)
    requires WriterNext(f, segmentSize, w, appended, SyncDirectory, w', appended')
    ensures Rolls(segmentSize, w')
  {
    hide Log, SyncedFile, HandedOn, IsListing, Fs.Valid, Distinct, Contents;
    HeaderOnly(f, w);
  }

  lemma ActiveIsOther(f: Format, w: Writer, appended: seq<Rec>)
    requires Inv(f, Up(w, appended)) && w.phase.Creating()
    ensures w.names != [] ==> w.active != w.phase.id
  {
    hide Log, SyncedFile;
    if w.names != [] { assert w.names[|w.names| - 1] in w.fs.durable; }
  }

  lemma HeaderOnly(f: Format, w: Writer)
    requires w.phase.Unlisted? && w.phase.first < 0x1_0000_0000_0000_0000 && NewSegment(f, w)
    ensures w.phase.id in w.fs.files && |w.fs.files[w.phase.id].data| == SEGMENT_HEADER
  {
  }

  lemma {:induction false} RunRolls(f: Format, segmentSize: nat, states: seq<System>, actions: seq<Action>, j: nat)
    requires segmentSize >= MIN_SEGMENT_SIZE && IsRun(f, segmentSize, states, actions) && j < |states|
    ensures AllRolls(segmentSize, states[j])
  {
    hide Inv, Next, AllRolls, Init;
    if j == 0 {
      NotUpYet(segmentSize, states[0]);
    } else {
      RunRolls(f, segmentSize, states, actions, j - 1);
      RunKeepsInv(f, segmentSize, states, actions, j - 1);
      assert Next(f, segmentSize, states[j - 1], actions[j - 1], states[j - 1 + 1]);
      StepRolls(f, segmentSize, states[j - 1], actions[j - 1], states[j]);
    }
  }

  lemma NotUpYet(segmentSize: nat, s: System)
    requires Init(s)
    ensures AllRolls(segmentSize, s)
  {
  }

  /** In every run a segment that has reached the segment size is never written to again, and the
      directory gets another segment only if it has none or the newest has reached the segment size. */
  lemma RollsExactly(f: Format, segmentSize: nat, states: seq<System>, actions: seq<Action>, j: nat)
    requires segmentSize >= MIN_SEGMENT_SIZE && IsRun(f, segmentSize, states, actions) && j < |actions|
    requires states[j].Up? && states[j + 1].Up?
    ensures var w, w' := states[j].w, states[j + 1].w;
            && (forall id | id in w.fs.files && |w.fs.files[id].data| >= segmentSize ::
                  id in w'.fs.files && w'.fs.files[id].data == w.fs.files[id].data)
            && (w'.names != w.names && w.names != [] ==>
                  w.active in w.fs.files && |w.fs.files[w.active].data| >= segmentSize)
  {
    hide Inv, Format.EncodeHeader, Format.EncodeAll;
    RunRolls(f, segmentSize, states, actions, j);
    RunKeepsInv(f, segmentSize, states, actions, j);
    assert Next(f, segmentSize, states[j], actions[j], states[j + 1]);
    if actions[j].WriteHeader? { EmptyYet(f, states[j]); }
  }

  lemma EmptyYet(f: Format, s: System)
    requires s.Up? && s.w.phase.Headless? && Inv(f, s)
    ensures s.w.phase.id in s.w.fs.files && s.w.fs.files[s.w.phase.id].data == []
  {
    hide Log, SyncedFile, HandedOn;
  }

  // --- everything gets committed -----------------------------------------------------------------------

  /** How far the log thread is from its next commit. */
  function Stage(p: Phase): nat {
    match p
    case Idle => 9
    case Taken(_) => 8
    case Opening(_, _) => 7
    case Headless(_, _, _) => 6
    case Unsynced(_, _, _) => 5
    case Unlisted(_, _, _) => 4
    case Ready(_) => 3
    case Written(_) => 2
    case Durable(_) => 1
  }

  lemma {:induction false} Unused(ids: set<nat>) returns (id: nat)
    ensures id !in ids
  {
    if ids == {} {
      id := 0;
    } else {
      var all := ids;
      var top: nat :| top in ids;
      while all != {}
        invariant all <= ids
        invariant forall i | i in ids && i !in all :: i <= top
        decreases all
      {
        var i :| i in all;
        all := all - {i};
        if i > top { top := i; }
      }
      id := top + 1;
    }
  }

  /** The owner flushes what it holds back, otherwise the log thread goes on. */
  predicate Working(a: Action) {
    !a.AppendRecord? && !a.Crash? && !a.CrashAgain? && !a.Reopen?
  }

  /** More is committed, or else less is held back, or else the first segment is there now, or else the
      log thread is nearer to its next commit. */
  ghost predicate Closer(w: Writer, w': Writer) {
    w'.committed > w.committed ||
    (w'.committed == w.committed &&
     (|w'.pending| < |w.pending| ||
      (w'.pending == w.pending &&
       ((w.names == [] && w'.names != []) ||
        ((w.names == [] <==> w'.names == []) && Stage(w'.phase) < Stage(w.phase))))))
  }

  /** Unless everything is committed there is something to do, and it brings the commit closer. */
  lemma NeverStuck(f: Format, segmentSize: nat, w: Writer, appended: seq<Rec>) returns (a: Action, w': Writer)
    requires Inv(f, Up(w, appended)) && Rolls(segmentSize, w) && w.committed < |appended|
    ensures Working(a) && WriterNext(f, segmentSize, w, appended, a, w', appended) && Closer(w, w')
  {
    hide OnDisk, WriterNext;
    if w.pending != [] {
      a, w' := Flush, w.(inbox := w.inbox + w.pending, pending := []);
      FlushWorks(f, segmentSize, w, appended, w');
    } else if w.phase.Opening? || w.phase.Creating() {
      a, w' := NextOfSegment(f, segmentSize, w, appended);
    } else {
      a, w' := NextOfBatch(f, segmentSize, w, appended);
    }
  }

  lemma FlushWorks(f: Format, segmentSize: nat, w: Writer, appended: seq<Rec>, w': Writer)
    requires w.pending != [] && w' == w.(inbox := w.inbox + w.pending, pending := [])
    ensures WriterNext(f, segmentSize, w, appended, Flush, w', appended) && Closer(w, w')
  {
  }

  lemma NextOfBatch(f: Format, segmentSize: nat, w: Writer, appended: seq<Rec>) returns (a: Action, w': Writer)
    requires HandedOn(w, appended) && OnDisk(f, w, appended) && w.committed < |appended| && w.pending == []
    requires !w.phase.Opening? && !w.phase.Creating()
    ensures Working(a) && WriterNext(f, segmentSize, w, appended, a, w', appended) && Closer(w, w')
  {
    hide OnDisk, Format.EncodeAll;
    ActiveIsThere(f, w, appended);
    match w.phase
    case Idle =>
      assert w.phase.InFlight() + w.inbox + w.pending == w.inbox;
      assert appended[InFiles(w)..] != [];
      a, w' := TakeBatch, w.(phase := Taken(w.inbox), inbox := []);
    case Taken(batch) =>
      var full := |w.fs.files[w.active].data| >= segmentSize;
      a, w' := StartWrite, w.(phase := if full then Opening(batch[0].lsn, batch) else Ready(batch));
    case Ready(batch) =>
      a, w' := WriteBatch, w.(fs := w.fs.Append(w.active, f.EncodeAll(batch)), phase := Written(batch));
    case Written(batch) =>
      a, w' := SyncBatch, w.(fs := w.fs.Sync(w.active), phase := Durable(batch));
    case Durable(batch) =>
      a, w' := Commit, w.(phase := Idle, committed := batch[|batch| - 1].lsn);
      assert batch[|batch| - 1] == appended[InFiles(w) - 1];
  }

  lemma NextOfSegment(f: Format, segmentSize: nat, w: Writer, appended: seq<Rec>) returns (a: Action, w': Writer)
    requires InFiles(w) <= |appended| && OnDisk(f, w, appended) && Rolls(segmentSize, w)
    requires w.phase.Opening? || w.phase.Creating()
    ensures Working(a) && WriterNext(f, segmentSize, w, appended, a, w', appended) && Closer(w, w')
  {
    hide Log, SyncedFile, Contents, Distinct, IsListing, Fs.Valid, Format.EncodeHeader;
    match w.phase
    case Opening(first, batch) =>
      var id := Unused(w.fs.files.Keys);
      NameIsFree(f, w, appended);
      a, w' := CreateFile(id), w.(fs := w.fs.Create(first, id), phase := Headless(first, id, batch));
    case Headless(first, id, batch) =>
      a, w' := WriteHeader, w.(fs := w.fs.Append(id, f.EncodeHeader(first)), phase := Unsynced(first, id, batch));
    case Unsynced(first, id, batch) =>
      a, w' := SyncHeader, w.(fs := w.fs.Sync(id), phase := Unlisted(first, id, batch));
    case Unlisted(first, id, batch) =>
      a, w' := SyncDirectory, w.(fs := w.fs.SyncDir(), names := w.names + [first], active := id,
                                 phase := if batch == [] then Idle else Ready(batch));
  }

  lemma ActiveIsThere(f: Format, w: Writer, appended: seq<Rec>)
    requires InFiles(w) <= |appended| && OnDisk(f, w, appended) && !w.phase.Opening? && !w.phase.Creating()
    ensures w.active in w.fs.files
  {
    hide Log, SyncedFile;
    assert w.names[|w.names| - 1] in w.fs.durable;
  }

  lemma NameIsFree(f: Format, w: Writer, appended: seq<Rec>)
    requires InFiles(w) <= |appended| && OnDisk(f, w, appended) && w.phase.Opening?
    ensures w.phase.first !in w.fs.current
  {
    hide Log, SyncedFile;
    assert w.fs.current == w.fs.durable;
  }

  /** Steps of one process, without new records and without a crash. */
  ghost predicate IsPath(f: Format, segmentSize: nat, states: seq<System>, actions: seq<Action>) {
    && |states| == |actions| + 1 && states[0].Up?
    && forall i | 0 <= i < |actions| ::
       Working(actions[i]) && Next(f, segmentSize, states[i], actions[i], states[i + 1])
  }

  lemma PathFrom(f: Format, segmentSize: nat, s: System, a: Action, states: seq<System>, actions: seq<Action>)
    requires IsPath(f, segmentSize, states, actions) && s.Up? && Working(a) && Next(f, segmentSize, s, a, states[0])
    ensures IsPath(f, segmentSize, [s] + states, [a] + actions)
  {
    hide Next;
    var all, acts := [s] + states, [a] + actions;
    forall i | 0 <= i < |acts| ensures Working(acts[i]) && Next(f, segmentSize, all[i], acts[i], all[i + 1]) {
      if i > 0 { assert Next(f, segmentSize, states[i - 1], actions[i - 1], states[i - 1 + 1]); }
    }
  }

  lemma {:induction false} GetsCommitted(f: Format, segmentSize: nat, s: System)
    returns (states: seq<System>, actions: seq<Action>)
    requires segmentSize >= MIN_SEGMENT_SIZE && Inv(f, s) && s.Up? && Rolls(segmentSize, s.w)
    ensures IsPath(f, segmentSize, states, actions) && states[0] == s
    ensures var last := states[|states| - 1];
            last.Up? && last.appended == s.appended && last.w.committed == |s.appended|
    decreases |s.appended| - s.w.committed, |s.w.pending|, s.w.names == [], Stage(s.w.phase)
  {
    hide OnDisk, WriterNext, Stage, Rolls;
    if s.w.committed == |s.appended| {
      states, actions := [s], [];
    } else {
      var a, w' := NeverStuck(f, segmentSize, s.w, s.appended);
      var s' := Up(w', s.appended);
      StepIsSafe(f, segmentSize, s, a, s');
      StepRolls(f, segmentSize, s, a, s');
      var rest, acts := GetsCommitted(f, segmentSize, s');
      PathFrom(f, segmentSize, s, a, rest, acts);
      states, actions := [s] + rest, [a] + acts;
    }
  }

  /** From every state of every run in which the server is up, the two threads can go on, without
      anything new being appended, so that everything appended is committed. */
  lemma EverythingGetsCommitted(f: Format, segmentSize: nat, states: seq<System>, actions: seq<Action>, j: nat)
    returns (more: seq<System>, acts: seq<Action>)
    requires segmentSize >= MIN_SEGMENT_SIZE && IsRun(f, segmentSize, states, actions) && j < |states| && states[j].Up?
    ensures IsPath(f, segmentSize, more, acts) && more[0] == states[j]
    ensures var last := more[|more| - 1];
            last.Up? && last.appended == states[j].appended && last.w.committed == |states[j].appended|
  {
    hide Inv, Rolls, IsRun;
    RunKeepsInv(f, segmentSize, states, actions, j);
    RunRolls(f, segmentSize, states, actions, j);
    more, acts := GetsCommitted(f, segmentSize, states[j]);
  }
}
