/** What recover_log() reports about a log it accepts: its segments and what it repaired. */
module LogReport {
  import opened LogFormat
  import opened LogRecovery

  /** What is said about a segment: its name, its size and the LSN before the next one. */
  ghost predicate Said(dir: Directory, done: seq<nat>, segments: seq<SegmentInfo>, next: nat, i: nat)
    requires i < |done| == |segments|
  {
    && segments[i].first == done[i] && done[i] in dir && segments[i].size == |dir[done[i]]|
    && segments[i].last + 1 == if i + 1 < |done| then done[i + 1] else next
  }

  /** The segments read so far. */
  ghost predicate Listed(dir: Directory, done: seq<nat>, segments: seq<SegmentInfo>, next: nat) {
    |segments| == |done| && forall i: nat | i < |done| :: Said(dir, done, segments, next, i)
  }

  /** The report is about the files as they are afterwards; at most the newest one was cut
      or removed. */
  ghost predicate Right(dir: Directory, names: seq<nat>, out: Outcome) {
    out.result.Success? ==>
      var log := out.result.log;
      && log.replayed == |out.delivered|
      && (log.removed ==> names != [] && out.dir == dir - {names[|names| - 1]} && log.torn == 0)
      && (!log.removed ==> out.dir.Keys == dir.Keys)
      && (!log.removed && names == [] ==> out.dir == dir && log.torn == 0)
      && (!log.removed && names != [] ==>
            var newest := names[|names| - 1];
            && newest in dir && out.dir == dir[newest := out.dir[newest]] && out.dir[newest] <= dir[newest]
            && |dir[newest]| == |out.dir[newest]| + log.torn)
      && var left := if log.removed && names != [] then names[..|names| - 1] else names;
         Listed(out.dir, left, log.segments, log.last + 1)
  }

  lemma ListedNext(dir: Directory, done: seq<nat>, segments: seq<SegmentInfo>, name: nat, next: nat)
    requires Listed(dir, done, segments, name) && name in dir && next >= 0
    ensures Listed(dir, done + [name], segments + [SegmentInfo(name, next - 1, |dir[name]|)], next)
  {
    var all, infos := done + [name], segments + [SegmentInfo(name, next - 1, |dir[name]|)];
    forall i: nat | i < |all| ensures Said(dir, all, infos, next, i) {
      if i < |done| { assert Said(dir, done, segments, name, i); }
    }
  }

  lemma ListedFrame(dir: Directory, dir': Directory, done: seq<nat>, segments: seq<SegmentInfo>, next: nat)
    requires Listed(dir, done, segments, next) && forall n | n in done :: n in dir && n in dir' && dir'[n] == dir[n]
    ensures Listed(dir', done, segments, next)
  {
    forall i: nat | i < |done| ensures Said(dir', done, segments, next, i) {
      assert Said(dir, done, segments, next, i) && done[i] in done;
    }
  }

  lemma {:induction false} RightFrom(r: Recovery, dir: Directory, done: seq<nat>, names: seq<nat>, expected: nat,
                                     delivered: seq<Rec>, segments: seq<SegmentInfo>)
    requires forall n | n in done + names :: n in dir
    requires forall i, j | 0 <= i < j < |done + names| :: (done + names)[i] < (done + names)[j]
    requires Listed(dir, done, segments, expected) && (done == [] <==> expected == 0)
    ensures Right(dir, done + names, r.RecoverFrom(dir, names, expected, delivered, segments))
    decreases |names|
  {
    hide Recovery.RecoverOne, Right;
    if names == [] {
      assert done + names == done;
      NothingLeft(r, dir, done, expected, delivered, segments);
    } else {
      var name := names[0];
      assert (done + names)[|done|] == name;
      var step := r.RecoverOne(dir, name, |names| == 1, expected, delivered, segments);
      if step.Go? {
        GoesOn(r, dir, done, name, |names| == 1, expected, delivered, segments);
        assert done + [name] + names[1..] == done + names;
        RightFrom(r, dir, done + [name], names[1..], step.expected, step.delivered, step.segments);
      } else {
        if |names| == 1 { assert names == [name]; }
        EndsRight(r, dir, done, names, expected, delivered, segments);
      }
    }
  }

  lemma NothingLeft(r: Recovery, dir: Directory, done: seq<nat>, expected: nat, delivered: seq<Rec>,
                    segments: seq<SegmentInfo>)
    requires (forall n | n in done :: n in dir) && Listed(dir, done, segments, expected) &&
             (done == [] <==> expected == 0)
    ensures Right(dir, done, r.RecoverFrom(dir, [], expected, delivered, segments))
  {
    if done != [] { assert done[|done| - 1] in done; }
  }

  lemma GoesOn(r: Recovery, dir: Directory, done: seq<nat>, name: nat, isLast: bool, expected: nat,
               delivered: seq<Rec>, segments: seq<SegmentInfo>)
    requires name in dir && Listed(dir, done, segments, expected) && (done == [] <==> expected == 0)
    requires r.RecoverOne(dir, name, isLast, expected, delivered, segments).Go?
    ensures var step := r.RecoverOne(dir, name, isLast, expected, delivered, segments);
            step.expected != 0 && Listed(dir, done + [name], step.segments, step.expected)
  {
    hide Recovery.ScanFrom, Recovery.RecordFollows;
    var scan := r.ScanFrom(dir[name], SEGMENT_HEADER, name, delivered);
    ListedNext(dir, done, segments, name, scan.expected);
  }

  lemma EndsRight(r: Recovery, dir: Directory, done: seq<nat>, names: seq<nat>, expected: nat, delivered: seq<Rec>,
                  segments: seq<SegmentInfo>)
    requires names != [] && (forall n | n in done + names :: n in dir)
    requires forall i, j | 0 <= i < j < |done + names| :: (done + names)[i] < (done + names)[j]
    requires Listed(dir, done, segments, expected) && (done == [] <==> expected == 0) && names[0] in dir
    requires r.RecoverOne(dir, names[0], |names| == 1, expected, delivered, segments).End?
    ensures Right(dir, done + names, r.RecoverFrom(dir, names, expected, delivered, segments))
  {
    hide Recovery.RecoverOne, Listed, Right;
    var out := r.RecoverFrom(dir, names, expected, delivered, segments);
    if out.result.Success? {
      r.EndOnlyAtLast(dir, names[0], |names| == 1, expected, delivered, segments);
      var name, all := names[0], done + names;
      assert names == [name] && all == done + [name];
      forall n | n in done ensures n in dir && n != name {
        assert n in all;
        Earlier(done, name, all, n);
      }
      if out.result.log.removed {
        RemovedRight(r, dir, done, name, expected, delivered, segments, out);
      } else {
        CutRight(r, dir, done, name, expected, delivered, segments, out);
      }
    } else {
      RefusedRight(dir, done + names, out);
    }
  }

  lemma RefusedRight(dir: Directory, names: seq<nat>, out: Outcome)
    requires out.result.Refused?
    ensures Right(dir, names, out)
  {
  }

  lemma RemovedRight(r: Recovery, dir: Directory, done: seq<nat>, name: nat, expected: nat, delivered: seq<Rec>,
                     segments: seq<SegmentInfo>, out: Outcome)
    requires out == r.Finish(dir - {name}, expected, delivered, segments, 0, true) && out.result.Success?
    requires Listed(dir, done, segments, expected) && (done == [] <==> expected == 0)
    requires name in dir && forall n | n in done :: n in dir && n != name
    ensures Right(dir, done + [name], out)
  {
    hide Listed;
    var all := done + [name];
    assert all[..|all| - 1] == done;
    ListedFrame(dir, out.dir, done, segments, expected);
    if done == [] { ListedNone(out.dir, segments, out.result.log.last + 1, dir, expected); }
  }

  lemma CutRight(r: Recovery, dir: Directory, done: seq<nat>, name: nat, expected: nat, delivered: seq<Rec>,
                 segments: seq<SegmentInfo>, out: Outcome)
    requires name in dir && r.RecoverOne(dir, name, true, expected, delivered, segments) == End(out)
    requires out.result.Success? && !out.result.log.removed
    requires Listed(dir, done, segments, expected) && (done == [] <==> expected == 0)
    requires forall n | n in done :: n in dir && n != name
    ensures Right(dir, done + [name], out)
  {
    hide Recovery.ScanFrom, Recovery.RecordFollows, Format.ParseHeader, Listed;
    var scan := r.ScanFrom(dir[name], SEGMENT_HEADER, name, delivered);
    ListedFrame(dir, out.dir, done, segments, expected);
    if done == [] { ListedNone(out.dir, segments, name, dir, expected); }
    ListedNext(out.dir, done, segments, name, scan.expected);
  }

  lemma ListedNone(dir: Directory, segments: seq<SegmentInfo>, next: nat, dir': Directory, next': nat)
    requires Listed(dir', [], segments, next')
    ensures Listed(dir, [], segments, next)
  {
  }

  lemma Earlier(done: seq<nat>, name: nat, all: seq<nat>, n: nat)
    requires all == done + [name] && n in done && forall i, j | 0 <= i < j < |all| :: all[i] < all[j]
    ensures n < name
  {
    var i :| 0 <= i < |done| && done[i] == n;
    assert all[i] < all[|done|];
  }

  /** What recovery reports is true of the files it leaves: the segments it read, one after the
      other, each with its first and last LSN and its size, and how many bytes it cut off the
      newest one or that it removed that. */
  lemma ReportIsRight(r: Recovery, dir: Directory, names: seq<nat>)
    requires IsListing(names, dir.Keys)
    ensures var k := FirstNeeded(names, r.after, |names|);
            Right(dir, names[k..], r.Recover(dir, names))
  {
    hide Recovery.RecoverFrom, Right;
    var needed := names[FirstNeeded(names, r.after, |names|)..];
    assert [] + needed == needed;
    RightFrom(r, dir, [], needed, 0, [], []);
  }
}
