/**
 The data directory: snapshots beside a log whose newest segment may be torn, and
 recover_state(), which rebuilds from them a right state of everything that was safe.
 Module StoreRuns is about how the directory comes about, module JobStore makes it the
 job state.
 */
module SnapshotStore {
  import opened Wrappers
  import opened LogFormat
  import opened LogRecovery
  import opened LogDisk
  import opened SimFs

  datatype Name = Segment(first: nat) | Snapshot(lsn: nat) | Temp(lsn: nat)
  type View = map<Name, Bytes>

  const KEEP: nat := 2

  /** What the store is used with: the log format, the state machine that records drive,
      and snapshot files. `holds` says which bytes may have been written as the snapshot
      after some records, and `agrees` which states are right after some records. */
  datatype Machine<!S(!new)> = Machine(format: Format, init: S, apply: (S, Rec) -> S, load: (nat, Bytes) -> Option<S>,
                                       holds: (seq<Rec>, Bytes) -> bool, agrees: (seq<Rec>, S) -> bool) {

    function Replay(s: S, recs: seq<Rec>): S {
      if recs == [] then s else apply(Replay(s, recs[..|recs| - 1]), recs[|recs| - 1])
    }

    /** The snapshot loads under its own name, and the records after it lead to a right state. */
    ghost predicate RestoresFrom(recs: seq<Rec>, l: nat, data: Bytes) {
      l <= |recs| && holds(recs[..l], data) ==>
        load(l, data).Some? && agrees(recs, Replay(load(l, data).value, recs[l..]))
    }

    /** Replaying is right from the start and from every snapshot. */
    ghost predicate Restores(recs: seq<Rec>) {
      agrees(recs, Replay(init, recs)) && forall l, data :: RestoresFrom(recs, l, data)
    }
  }

  /** The segment files of a directory. */
  ghost function Segments(view: View): (dir: Directory)
    ensures forall n: nat :: n in dir <==> Segment(n) in view
    ensures forall n: nat | n in dir :: dir[n] == view[Segment(n)]
  {
    map name | name in view && name.Segment? :: name.first := view[name]
  }

  ghost function SnapshotLsns(view: View): (r: set<nat>)
    ensures forall l: nat :: l in r <==> Snapshot(l) in view
  {
    set name | name in view && name.Snapshot? :: name.lsn
  }

  // --- recover_state() ----------------------------------------------------------------------

  datatype Rebuilt<+S> = Failed | Rebuilt(state: S, from: nat, last: nat)

  /** Newest first: what list_snapshots() returns. */
  ghost predicate NewestFirst(snaps: seq<nat>, keys: set<nat>) {
    && (forall i, j | 0 <= i < j < |snaps| :: snaps[i] > snaps[j])
    && (forall l :: l in snaps <==> l in keys)
  }

  /** How many unreadable snapshots are skipped. */
  function Skipped<S(!new)>(m: Machine<S>, view: View, snaps: seq<nat>): (k: nat)
    requires forall l | l in snaps :: Snapshot(l) in view
    ensures k <= |snaps|
    ensures k < |snaps| ==> m.load(snaps[k], view[Snapshot(snaps[k])]).Some?
    ensures forall i | 0 <= i < k :: m.load(snaps[i], view[Snapshot(snaps[i])]).None?
  {
    if snaps == [] || m.load(snaps[0], view[Snapshot(snaps[0])]).Some? then 0
    else 1 + Skipped(m, view, snaps[1..])
  }

  /** The newest readable snapshot (or the empty state), then the log after it. */
  ghost function RebuildSpec<S(!new)>(m: Machine<S>, view: View, snaps: seq<nat>, names: seq<nat>): Rebuilt<S>
    requires NewestFirst(snaps, SnapshotLsns(view)) && IsListing(names, Segments(view).Keys)
  {
    var k := Skipped(m, view, snaps);
    var from := if k < |snaps| then snaps[k] else 0;
    var start := if k < |snaps| then m.load(from, view[Snapshot(from)]).value else m.init;
    var out := After(m.format, from).Recover(Segments(view), names);
    if out.result.Refused? then Failed else Rebuilt(m.Replay(start, out.delivered), from, out.result.log.last)
  }

  /** The loop over the snapshots: the newest that can be read, with its state. */
  method PickSnapshot<S(!new)>(m: Machine<S>, view: View, snaps: seq<nat>) returns (from: nat, state: S)
    requires forall l | l in snaps :: Snapshot(l) in view
    ensures var k := Skipped(m, view, snaps);
            if k < |snaps| then from == snaps[k] && Some(state) == m.load(from, view[Snapshot(from)])
              else from == 0 && state == m.init
  {
    for i := 0 to |snaps|
      invariant Skipped(m, view, snaps) == i + Skipped(m, view, snaps[i..])
    {
      assert snaps[i] in snaps && snaps[i..][1..] == snaps[i + 1..];
      var loaded := m.load(snaps[i], view[Snapshot(snaps[i])]);
      if loaded.Some? { return snaps[i], loaded.value; }
    }
    return 0, m.init;
  }

  /** The replay callback, record by record. */
  method ReplayAll<S(!new)>(m: Machine<S>, start: S, recs: seq<Rec>) returns (state: S)
    ensures state == m.Replay(start, recs)
  {
    state := start;
    for j := 0 to |recs|
      invariant state == m.Replay(start, recs[..j])
    {
      assert recs[..j + 1][..j] == recs[..j];
      state := m.apply(state, recs[j]);
    }
    assert recs[..|recs|] == recs;
  }

  /** recover_state(), after temporary files have been removed. */
  method RecoverState<S(!new)>(m: Machine<S>, view: View, snaps: seq<nat>, dir: Directory, names: seq<nat>)
    returns (r: Rebuilt<S>)
    requires NewestFirst(snaps, SnapshotLsns(view)) && IsListing(names, Segments(view).Keys) && dir == Segments(view)
    ensures r == RebuildSpec(m, view, snaps, names)
  {
    hide Recovery.Recover;
    var from, start := PickSnapshot(m, view, snaps);
    var out := After(m.format, from).RecoverLog(dir, names);
    if out.result.Refused? { return Failed; }
    var state := ReplayAll(m, start, out.delivered);
    return Rebuilt(state, from, out.result.log.last);
  }

  // --- what makes a directory good -------------------------------------------------------------

  /** The records in the segment files, of which the first `safe` are synced; the segments from
      the one that holds the record after `floor` on, older ones may or may not be there;
      segments were deleted only up to `floor`, and only with two snapshots kept. */
  datatype Books = Books(recs: seq<Rec>, safe: nat, names: seq<nat>, floor: nat, kept: set<nat>)

  ghost predicate Ascending(names: seq<nat>) { forall i, j | 0 <= i < j < |names| :: names[i] < names[j] }

  /** Two different snapshots at or after the floor. */
  ghost predicate TwoFrom(kept: set<nat>, floor: nat) {
    exists a, b :: a in kept && b in kept && floor <= a < b
  }

  /** The data is a snapshot of the state at this LSN. */
  ghost predicate Captures<S(!new)>(m: Machine<S>, recs: seq<Rec>, l: nat, data: Bytes) {
    l <= |recs| && m.holds(recs[..l], data)
  }

  ghost predicate SnapshotIsGood<S(!new)>(m: Machine<S>, view: View, durable: seq<Rec>, l: nat) {
    Snapshot(l) in view ==> Captures(m, durable, l, view[Snapshot(l)])
  }

  /** Every snapshot is of a state the durable log reaches, and those kept are there. */
  ghost predicate SnapsGood<S(!new)>(m: Machine<S>, view: View, durable: seq<Rec>, floor: nat, kept: set<nat>) {
    && floor <= |durable| && (forall l: nat :: SnapshotIsGood(m, view, durable, l))
    && (forall l: nat | l in kept :: Snapshot(l) in view)
    && (floor == 0 || TwoFrom(kept, floor))
  }

  /** The segments hold the records. A segment under construction, if there is one, comes after
      them and does not belong to them yet. */
  ghost predicate LogGood(f: Format, view: View, recs: seq<Rec>, names: seq<nat>, stub: nat) {
    && Numbered(recs, 1) && names != [] && 1 <= names[0] <= |recs| + 1 && Ascending(names)
    && (stub == 0 || names[|names| - 1] < stub)
    && (forall n: nat | n >= names[0] && n != stub :: Segment(n) in view <==> n in names)
    && Log(f, Segments(view), names, recs[names[0] - 1..])
  }

  /** The same after a crash: the end of the newest segment may be torn, beyond what is safe. */
  ghost predicate TornLogGood(f: Format, view: View, recs: seq<Rec>, safe: nat, names: seq<nat>) {
    && Numbered(recs, 1) && safe <= |recs| && names != [] && 1 <= names[0] <= safe + 1 && Ascending(names)
    && (forall n: nat | n >= names[0] :: Segment(n) in view <==> n in names)
    && Segment(names[0]) in view && HasHeader(f, view[Segment(names[0])], names[0])
    && TornLog(f, Segments(view), names, recs[names[0] - 1..], safe - (names[0] - 1))
  }

  /** A directory in which everything is there. */
  ghost predicate Good<S(!new)>(m: Machine<S>, view: View, b: Books, stub: nat) {
    && b.safe <= |b.recs| && LogGood(m.format, view, b.recs, b.names, stub) && b.names[0] <= b.floor + 1
    && SnapsGood(m, view, b.recs[..b.safe], b.floor, b.kept)
  }

  /** A directory from which everything safe can be rebuilt. */
  ghost predicate TornGood<S(!new)>(m: Machine<S>, view: View, b: Books) {
    && b.safe <= |b.recs| && TornLogGood(m.format, view, b.recs, b.safe, b.names) && b.names[0] <= b.floor + 1
    && SnapsGood(m, view, b.recs[..b.safe], b.floor, b.kept)
  }

  /** The view with the contents of its newest snapshot possibly unreadable. */
  ghost predicate NewestMayBeBad<S(!new)>(m: Machine<S>, view: View, read: View, snaps: seq<nat>) {
    && read.Keys == view.Keys
    && (forall n | n in view && (snaps == [] || n != Snapshot(snaps[0])) :: read[n] == view[n])
    && (snaps != [] && Snapshot(snaps[0]) in view ==>
          read[Snapshot(snaps[0])] == view[Snapshot(snaps[0])] || m.load(snaps[0], read[Snapshot(snaps[0])]).None?)
  }

  /** The snapshot recovery picks lies at or after the floor. */
  lemma PickedIsHighEnough<S(!new)>(m: Machine<S>, view: View, read: View, durable: seq<Rec>, floor: nat,
                                    kept: set<nat>, snaps: seq<nat>)
    requires SnapsGood(m, view, durable, floor, kept) && m.Restores(durable)
    requires NewestFirst(snaps, SnapshotLsns(view)) && NewestMayBeBad(m, view, read, snaps)
    ensures var k := Skipped(m, read, snaps);
            if k < |snaps| then
              floor <= snaps[k] && Captures(m, durable, snaps[k], read[Snapshot(snaps[k])])
            else floor == 0
  {
    var k := Skipped(m, read, snaps);
    forall i | 0 <= i < |snaps|
      ensures Snapshot(snaps[i]) in view && Captures(m, durable, snaps[i], view[Snapshot(snaps[i])]) &&
              m.load(snaps[i], view[Snapshot(snaps[i])]).Some? {
      assert snaps[i] in snaps;
      assert SnapshotIsGood(m, view, durable, snaps[i]);
      assert m.RestoresFrom(durable, snaps[i], view[Snapshot(snaps[i])]);
    }
    if |snaps| > 1 { assert read[Snapshot(snaps[1])] == view[Snapshot(snaps[1])]; }
    assert k <= 1;
    if floor > 0 {
      var a, b :| a in kept && b in kept && floor <= a < b;
      TwoInListing(snaps, a, b, floor);
    }
  }

  /** Two snapshots at or after the floor: then so is the second newest. */
  lemma TwoInListing(snaps: seq<nat>, a: nat, b: nat, floor: nat)
    requires (forall i, j | 0 <= i < j < |snaps| :: snaps[i] > snaps[j]) && a in snaps && b in snaps && floor <= a < b
    ensures |snaps| >= 2 && floor <= snaps[1] && floor <= snaps[0]
  {
    var i :| 0 <= i < |snaps| && snaps[i] == a;
    var j :| 0 <= j < |snaps| && snaps[j] == b;
    assert j < i;
  }

  /** From the picked snapshot on, the scan sees exactly the needed segments. */
  lemma NeededSegments(all: seq<nat>, keys: set<nat>, names: seq<nat>, from: nat) returns (i: nat)
    requires IsListing(all, keys) && names != [] && names[0] <= from + 1 && Ascending(names)
    requires forall n | n >= names[0] :: n in keys <==> n in names
    ensures i < |names| && names[i] <= from + 1
    ensures all[FirstNeeded(all, from, |all|)..] == names[i..]
  {
    assert names[0] in names && names[0] in all;
    var w :| 0 <= w < |all| && all[w] == names[0];
    FirstNeededIsLast(all, from, |all|, w);
    var k := FirstNeeded(all, from, |all|);
    assert all[k] >= names[0] && all[k] in all;
    assert all[k] in names;
    i :| 0 <= i < |names| && names[i] == all[k];
    var tail := set n | n in keys && n >= all[k];
    TailListing(all, keys, k);
    NamesTail(names, keys, i);
    ListingIsUnique(all[k..], names[i..], tail);
  }

  lemma TailListing(all: seq<nat>, keys: set<nat>, k: nat)
    requires IsListing(all, keys) && k < |all|
    ensures IsListing(all[k..], set n | n in keys && n >= all[k])
  {
    forall n | n in keys && n >= all[k] ensures n in all[k..] {
      var j :| 0 <= j < |all| && all[j] == n;
      assert j >= k;
      assert all[k..][j - k] == n;
    }
  }

  lemma NamesTail(names: seq<nat>, keys: set<nat>, i: nat)
    requires i < |names| && Ascending(names)
    requires forall n | n >= names[0] :: n in keys <==> n in names
    ensures IsListing(names[i..], set n | n in keys && n >= names[i])
  {
    forall n | n in keys && n >= names[i] ensures n in names[i..] {
      assert n in names;
      var j :| 0 <= j < |names| && names[j] == n;
      assert names[i..][j - i] == n;
    }
    forall n | n in names[i..] ensures n in keys && n >= names[i] {
      var j :| 0 <= j < |names[i..]| && names[i..][j] == n;
      assert names[i + j] in names;
    }
  }

  /** What recovery from LSN `from` on does to a torn log: if it succeeds, k records are left. */
  ghost predicate Mends(f: Format, from: nat, dir: Directory, recs: seq<Rec>, safe: nat, names: seq<nat>,
                        out: Outcome, k: nat)
    requires names != [] && names[0] >= 1
  {
    out.result.Success? ==>
      && safe <= k <= |recs| && from <= k && out.delivered == recs[from..k] && out.result.log.last == k
      && var last, removed := names[|names| - 1], out.result.log.removed;
         && (removed ==> |names| > 1)
         && out.dir.Keys == (if removed then dir.Keys - {last} else dir.Keys)
         && (forall n | n in out.dir && n != last :: out.dir[n] == dir[n])
         && names[0] <= k + 1
         && Log(f, out.dir, if removed then names[..|names| - 1] else names, recs[names[0] - 1..k])
  }

  lemma TailOfTorn(f: Format, view: View, all: seq<nat>, names: seq<nat>, recs: seq<Rec>, safe: nat, from: nat)
    returns (k: nat)
    requires TornLogGood(f, view, recs, safe, names) && IsListing(all, Segments(view).Keys)
    requires names[0] <= from + 1 && from <= safe
    ensures var out, last := After(f, from).Recover(Segments(view), all), names[|names| - 1];
            && Segment(last) in view
            && (out.result.Success? <==> NothingValidTorn(f, view[Segment(last)], last))
            && Mends(f, from, Segments(view), recs, safe, names, out, k)
  {
    hide Recovery.RecoverFrom, NothingValidTorn, TornLog, Log, IsListing, FirstNeeded, RecoversAfter, Mends, HasHeader;
    var dir := Segments(view);
    forall n | n in names ensures n in dir { NameIsThere(names, n); }
    var i := NeededSegments(all, dir.Keys, names, from);
    var rest, tail := names[i..], recs[names[i] - 1..];
    TornEnd(f, dir, names, recs, safe, i);
    assert rest[|rest| - 1] == names[|names| - 1] && names[|names| - 1] in names;
    hide Numbered, Ascending;
    var j := RecoverTornAfter(f, from, dir, rest, tail, safe + 1 - names[i]);
    k := names[i] - 1 + j;
    var out := After(f, from).Recover(dir, all);
    if out.result.Success? {
      MendsWhole(f, from, dir, names, recs, safe, i, out, j);
    } else {
      NothingMended(f, from, dir, recs, safe, names, out, k);
    }
  }

  lemma NothingMended(f: Format, from: nat, dir: Directory, recs: seq<Rec>, safe: nat, names: seq<nat>, out: Outcome,
                      k: nat)
    requires names != [] && names[0] >= 1 && out.result.Refused?
    ensures Mends(f, from, dir, recs, safe, names, out, k)
  {
  }

  /** The end of a torn log, from its i-th segment on. */
  lemma TornEnd(f: Format, dir: Directory, names: seq<nat>, recs: seq<Rec>, safe: nat, i: nat)
    requires names != [] && 1 <= names[0] <= safe + 1 && safe <= |recs| && Ascending(names) && Numbered(recs, 1)
    requires i < |names| && names[i] <= safe + 1 && (forall n | n in names :: n in dir)
    requires TornLog(f, dir, names, recs[names[0] - 1..], safe - (names[0] - 1))
    ensures var rest, tail := names[i..], recs[names[i] - 1..];
            && names[0] <= names[i] && (forall i, j | 0 <= i < j < |rest| :: rest[i] < rest[j])
            && (forall n | n in rest :: n in dir) && Numbered(tail, rest[0])
            && TornLog(f, dir, rest, tail, safe + 1 - names[i])
  {
    hide TornLog;
    var base, rest := names[0], names[i..];
    TornSuffix(f, dir, names, recs[base - 1..], safe - (base - 1), i);
    assert recs[base - 1..][names[i] - base..] == recs[names[i] - 1..];
    forall n | n in rest ensures n in dir { assert n in names; }
  }

  lemma NameIsThere(names: seq<nat>, n: nat)
    requires Ascending(names) && n in names
    ensures n >= names[0]
  {
    var i :| 0 <= i < |names| && names[i] == n;
  }

  /** What is left of the end and the segments before it. */
  lemma MendsWhole(f: Format, from: nat, dir: Directory, names: seq<nat>, recs: seq<Rec>, safe: nat, i: nat,
                   out: Outcome, j: nat)
    requires names != [] && 1 <= names[0] <= safe + 1 && safe <= |recs| && Ascending(names) && i < |names|
    requires names[0] <= names[i] <= from + 1 && from <= safe
    requires (forall n | n in names :: n in dir) && HasHeader(f, dir[names[0]], names[0])
    requires TornLog(f, dir, names, recs[names[0] - 1..], safe - (names[0] - 1))
    requires out == After(f, from).RecoverFrom(dir, names[i..], 0, [], []) && out.result.Success?
    requires RecoversAfter(f, from, dir, names[i..], recs[names[i] - 1..], safe + 1 - names[i], out, j)
    ensures Mends(f, from, dir, recs, safe, names, out, names[i] - 1 + j)
  {
    hide Recovery.RecoverFrom, TornLog, Log, Ascending, HasHeader, Uncovered;
    var rest, k, removed := names[i..], names[i] - 1 + j, out.result.log.removed;
    assert rest[|rest| - 1] == names[|names| - 1];
    TailIsUncovered(recs, names[i], from, j);
    if removed && |rest| == 1 && i == 0 { HeadedStays(f, from, dir, names); }
    var rest' := if removed then rest[..|rest| - 1] else rest;
    forall q | 0 <= q < i && names[q] in dir ensures names[q] in out.dir && out.dir[names[q]] == dir[names[q]] {
      NotTheLast(names, q);
    }
    MendedLog(f, dir, out.dir, names, recs, safe, i, rest', k);
    assert names[..i] + rest' == if removed then names[..|names| - 1] else names;
  }

  lemma TailIsUncovered(recs: seq<Rec>, first: nat, from: nat, j: nat)
    requires 1 <= first <= from + 1 && first - 1 + j <= |recs| && from <= first - 1 + j
    ensures recs[first - 1..][..j] == recs[first - 1..first - 1 + j]
    ensures Uncovered(recs[first - 1..][..j], first, from) == recs[from..first - 1 + j]
  {
  }

  lemma NotTheLast(names: seq<nat>, q: nat)
    requires Ascending(names) && q < |names| - 1
    ensures names[q] != names[|names| - 1]
  {
  }

  lemma MendedLog(f: Format, dir: Directory, dir': Directory, names: seq<nat>, recs: seq<Rec>, safe: nat, i: nat,
                  rest: seq<nat>, k: nat)
    requires names != [] && 1 <= names[0] <= safe + 1 && safe <= |recs| && i < |names|
    requires names[0] <= names[i] <= k + 1 && k <= |recs| && (rest == [] || rest[0] == names[i])
    requires TornLog(f, dir, names, recs[names[0] - 1..], safe - (names[0] - 1))
    requires forall j | 0 <= j < i && names[j] in dir :: names[j] in dir' && dir'[names[j]] == dir[names[j]]
    requires Log(f, dir', rest, recs[names[i] - 1..k])
    ensures Log(f, dir', names[..i] + rest, recs[names[0] - 1..k])
  {
    hide TornLog, Log;
    var base := names[0];
    assert recs[base - 1..][names[i] - base..k - (base - 1)] == recs[names[i] - 1..k];
    JoinLog(f, dir, dir', names, recs[base - 1..], safe - (base - 1), i, rest, k - (base - 1));
    assert recs[base - 1..][..k - (base - 1)] == recs[base - 1..k];
  }

  /** A segment whose header is whole is never removed. */
  lemma HeadedStays(f: Format, from: nat, dir: Directory, names: seq<nat>)
    requires |names| == 1 && names[0] in dir && HasHeader(f, dir[names[0]], names[0])
    ensures var out := After(f, from).RecoverFrom(dir, names[0..], 0, [], []);
            out.result.Success? ==> !out.result.log.removed
  {
    hide Format.ParseHeader, Recovery.ScanFrom, Recovery.RecordFollows;
    assert names[0..] == names && names[1..] == [];
  }

  /** Recovery from a directory as a crash left it: it succeeds exactly if the torn bytes of the
      newest segment hold no plausible record, and then rebuilds a right state of everything
      safe and perhaps more, from whichever snapshot it starts, and also if the newest
      snapshot turns out unreadable. */
  lemma RebuildsEverything<S(!new)>(m: Machine<S>, view: View, read: View, b: Books, snaps: seq<nat>, all: seq<nat>)
    requires TornGood(m, view, b) && (forall k | b.safe <= k <= |b.recs| :: m.Restores(b.recs[..k]))
    requires NewestFirst(snaps, SnapshotLsns(view)) && IsListing(all, Segments(view).Keys) &&
             NewestMayBeBad(m, view, read, snaps)
    ensures NewestFirst(snaps, SnapshotLsns(read)) && IsListing(all, Segments(read).Keys)
    ensures var r, last := RebuildSpec(m, read, snaps, all), b.names[|b.names| - 1];
            && Segment(last) in view
            && (r.Rebuilt? <==> NothingValidTorn(m.format, view[Segment(last)], last))
            && (r.Rebuilt? ==> b.safe <= r.last <= |b.recs| && m.agrees(b.recs[..r.last], r.state))
  {
    hide NewestFirst, Recovery.Recover, TornLogGood, NewestMayBeBad, IsListing, Segments, SnapshotLsns,
         Machine.Replay, NothingValidTorn, Machine.Restores;
    SameListings(m, view, read, snaps, all);
    var i, durable := Skipped(m, read, snaps), b.recs[..b.safe];
    PickedIsHighEnough(m, view, read, durable, b.floor, b.kept, snaps);
    var from := if i < |snaps| then snaps[i] else 0;
    var k := TailOfTorn(m.format, view, all, b.names, b.recs, b.safe, from);
    var r := RebuildSpec(m, read, snaps, all);
    if r.Rebuilt? {
      assert m.Restores(b.recs[..k]);
      AgreesFrom(m, b.recs, b.safe, k, from, if i < |snaps| then Some(read[Snapshot(from)]) else None);
    }
  }

  lemma AgreesFrom<S(!new)>(m: Machine<S>, recs: seq<Rec>, safe: nat, k: nat, from: nat, data: Option<Bytes>)
    requires safe <= k <= |recs| && m.Restores(recs[..k])
    requires if data.Some? then Captures(m, recs[..safe], from, data.value) else from == 0
    ensures data.Some? ==> m.load(from, data.value).Some?
    ensures m.agrees(recs[..k], m.Replay(if data.Some? then m.load(from, data.value).value else m.init, recs[from..k]))
  {
    hide Machine.Replay;
    var all := recs[..k];
    assert all[from..] == recs[from..k];
    if data.Some? {
      assert all[..from] == recs[..safe][..from];
      assert m.RestoresFrom(all, from, data.value);
    } else {
      assert all[0..] == all;
    }
  }

  lemma SameListings<S(!new)>(m: Machine<S>, view: View, read: View, snaps: seq<nat>, all: seq<nat>)
    requires NewestFirst(snaps, SnapshotLsns(view)) && IsListing(all, Segments(view).Keys) &&
             NewestMayBeBad(m, view, read, snaps)
    ensures SnapshotLsns(read) == SnapshotLsns(view) && Segments(read) == Segments(view)
    ensures NewestFirst(snaps, SnapshotLsns(read)) && IsListing(all, Segments(read).Keys)
  {
    assert forall n: nat :: Snapshot(n) in read <==> Snapshot(n) in view;
    assert SnapshotLsns(read) == SnapshotLsns(view);
    assert Segments(read) == Segments(view);
  }
}
