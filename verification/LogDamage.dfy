/**
 Damage that recovery must not take for a torn end: whole records behind it, or segments
 after it, show that more was written and perhaps acknowledged.
 */
module LogDamage {
  import opened LogFormat
  import opened LogRecovery
  import opened LogDisk

  /** Damage refuses the log: whatever was read before, no file is changed. */
  ghost predicate Refuses(r: Recovery, dir: Directory, name: nat, isLast: bool)
    requires name in dir
  {
    forall expected: nat, delivered: seq<Rec>, segments: seq<SegmentInfo> ::
      var step := r.RecoverOne(dir, name, isLast, expected, delivered, segments);
      step.End? && step.outcome.result.Refused? && step.outcome.dir == dir
  }

  /** A segment that refuses the log does so wherever it comes. */
  lemma {:induction false} RefusedThere(r: Recovery, dir: Directory, names: seq<nat>, at: nat, expected: nat,
                                        delivered: seq<Rec>, segments: seq<SegmentInfo>)
    requires at < |names| && (forall n | n in names :: n in dir) && Refuses(r, dir, names[at], at == |names| - 1)
    ensures var out := r.RecoverFrom(dir, names, expected, delivered, segments);
            out.result.Refused? && out.dir == dir
    decreases |names|
  {
    hide Recovery.RecoverOne;
    var step := r.RecoverOne(dir, names[0], |names| == 1, expected, delivered, segments);
    if at > 0 {
      OlderGoesOrRefuses(r, dir, names[0], expected, delivered, segments);
      if step.Go? { RefusedThere(r, dir, names[1..], at - 1, step.expected, step.delivered, step.segments); }
    }
  }

  /** Only the newest segment is ever repaired. */
  lemma OlderGoesOrRefuses(r: Recovery, dir: Directory, name: nat, expected: nat, delivered: seq<Rec>,
                           segments: seq<SegmentInfo>)
    requires name in dir
    ensures var step := r.RecoverOne(dir, name, false, expected, delivered, segments);
            step.End? ==> step.outcome.result.Refused? && step.outcome.dir == dir
  {
    hide Recovery.ScanFrom, Recovery.RecordFollows, Format.ParseHeader;
  }

  // --- the newest segment -------------------------------------------------------------------------

  lemma Behind(data: Bytes, offset: nat, first: Bytes, rest: Bytes)
    requires offset <= |data| && data[offset..] == first + rest
    ensures offset + |first| <= |data| && data[offset + |first|..] == rest
  {
    assert data[offset + |first|..] == data[offset..][|first|..];
  }

  lemma NumberedRest(recs: seq<Rec>, next: nat)
    requires Numbered(recs, next) && recs != []
    ensures recs[0].lsn == next && |recs[0].payload| <= MAX_PAYLOAD && Numbered(recs[1..], next + 1)
  {
  }

  /** Records in sequence are read up to where something else begins. */
  lemma {:induction false} RunReaches(r: Recovery, data: Bytes, offset: nat, recs: seq<Rec>, next: nat, rest: Bytes)
    requires offset <= |data| && data[offset..] == r.format.EncodeAll(recs) + rest && Numbered(recs, next)
    requires !r.format.Parse(rest).Ok?
    ensures r.RunFrom(data, offset, next) == Reach(|data| - |rest|, next + |recs|)
    decreases |recs|
  {
    hide Format.Parse, Format.Encode;
    var f := r.format;
    if recs == [] {
      assert data[offset..] == rest;
    } else {
      var first, more := f.Encode(recs[0]), f.EncodeAll(recs[1..]);
      ConcatAssociates(first, more, rest);
      f.ParseIsEncode(data[offset..], recs[0]);
      Behind(data, offset, first, more + rest);
      NumberedRest(recs, next);
      hide Numbered, Format.EncodeAll;
      RunReaches(r, data, offset + |first|, recs[1..], next + 1, rest);
    }
  }

  lemma {:induction false} EncodeAllRoom(f: Format, recs: seq<Rec>)
    ensures |f.EncodeAll(recs)| >= RECORD_HEADER * |recs|
  {
    if recs != [] { EncodeAllRoom(f, recs[1..]); }
  }

  /** A whole record behind the damage is plausible. */
  lemma LaterIsPlausible(r: Recovery, data: Bytes, offset: nat, bad: Bytes, recs: seq<Rec>, next: nat, lost: nat)
    requires offset <= |data| && data[offset..] == bad + r.format.EncodeAll(recs) && bad != []
    requires recs != [] && Numbered(recs, next + lost) && |bad| >= RECORD_HEADER * lost
    ensures r.RecordFollows(data, offset + 1, next)
  {
    hide Format.Parse, Format.Encode, Recovery.RecordFollows;
    var f, o := r.format, offset + |bad|;
    assert data[o..] == data[offset..][|bad|..] == f.EncodeAll(recs);
    f.ParseIsEncode(data[o..], recs[0]);
    EncodeAllRoom(f, recs);
    r.FollowsIfPossible(data, offset + 1, next);
  }

  /** A newest segment with a damaged stretch and whole records behind it. */
  lemma MiddleRefuses(r: Recovery, dir: Directory, name: nat, recs: seq<Rec>, k: nat, j: nat, bad: Bytes)
    requires name in dir && 0 < name < 0x1_0000_0000_0000_0000 && Numbered(recs, name) && k < j < |recs|
    requires |bad| == |r.format.EncodeAll(recs[k..j])| && !r.format.Parse(bad + r.format.EncodeAll(recs[j..])).Ok?
    requires dir[name] == r.format.EncodeHeader(name) + r.format.EncodeAll(recs[..k]) +
                          (bad + r.format.EncodeAll(recs[j..]))
    ensures Refuses(r, dir, name, true)
  {
    hide Format.Parse, Format.Encode, Format.ParseHeader, Recovery.RecordFollows, Recovery.ScanFrom, Recovery.RunFrom;
    var f, data := r.format, dir[name];
    var good, rest := f.EncodeAll(recs[..k]), bad + f.EncodeAll(recs[j..]);
    ConcatAssociates(f.EncodeHeader(name), good, rest);
    f.HeaderRoundTrip(name, good + rest);
    assert data[SEGMENT_HEADER..] == good + rest;
    RunReaches(r, data, SEGMENT_HEADER, recs[..k], name, rest);
    var offset := |data| - |rest|;
    assert data[offset..] == rest;
    EncodeAllRoom(f, recs[k..j]);
    LaterIsPlausible(r, data, offset, bad, recs[j..], name + k, j - k);
    forall expected: nat, delivered: seq<Rec>, segments: seq<SegmentInfo>
      ensures var step := r.RecoverOne(dir, name, true, expected, delivered, segments);
              step.End? && step.outcome.result.Refused? && step.outcome.dir == dir
    {
      r.ScanFollowsRun(data, SEGMENT_HEADER, name, delivered);
    }
  }

  /** A log is never cut at damage in the middle of its newest segment. If some records of it
      have turned into bytes that do not start with a record, and at least one whole record is
      left behind them, recovery refuses and changes no file, whatever the older segments hold
      and whatever snapshot it starts from. */
  lemma DamageIsRefused(r: Recovery, dir: Directory, names: seq<nat>, recs: seq<Rec>, k: nat, j: nat, bad: Bytes)
    requires IsListing(names, dir.Keys) && names != []
    requires var name := names[|names| - 1];
             && name in dir && 0 < name < 0x1_0000_0000_0000_0000 && Numbered(recs, name) && k < j < |recs|
             && |bad| == |r.format.EncodeAll(recs[k..j])| && !r.format.Parse(bad + r.format.EncodeAll(recs[j..])).Ok?
             && dir[name] == r.format.EncodeHeader(name) + r.format.EncodeAll(recs[..k]) +
                             (bad + r.format.EncodeAll(recs[j..]))
    ensures var out := r.Recover(dir, names); out.result.Refused? && out.dir == dir
  {
    hide Format.Parse, Format.Encode, Format.EncodeHeader, Recovery.RecoverFrom, Refuses;
    MiddleRefuses(r, dir, names[|names| - 1], recs, k, j, bad);
    NewestIsRead(r, dir, names);
  }

  lemma NewestIsRead(r: Recovery, dir: Directory, names: seq<nat>)
    requires IsListing(names, dir.Keys) && names != [] && Refuses(r, dir, names[|names| - 1], true)
    ensures var out := r.Recover(dir, names); out.result.Refused? && out.dir == dir
  {
    hide Recovery.RecoverFrom, Refuses;
    var needed := names[FirstNeeded(names, r.after, |names|)..];
    assert needed[|needed| - 1] == names[|names| - 1];
    RefusedThere(r, dir, needed, |needed| - 1, 0, [], []);
  }

  /** Nor is it removed for a damaged header, if a whole record of it is left. */
  lemma DamagedHeaderIsRefused(r: Recovery, dir: Directory, names: seq<nat>, recs: seq<Rec>, j: nat, bad: Bytes)
    requires IsListing(names, dir.Keys) && names != []
    requires var name := names[|names| - 1];
             && name in dir && Numbered(recs, name) && j < |recs|
             && |bad| == SEGMENT_HEADER + |r.format.EncodeAll(recs[..j])|
             && dir[name] == bad + r.format.EncodeAll(recs[j..]) && !r.format.ParseHeader(dir[name]).First?
    ensures var out := r.Recover(dir, names); out.result.Refused? && out.dir == dir
  {
    hide Format.Parse, Format.Encode, Format.ParseHeader, Recovery.RecordFollows, Recovery.ScanFrom,
         Recovery.RecoverFrom;
    var f, name := r.format, names[|names| - 1];
    var data, o := dir[name], |bad|;
    assert data[o..] == f.EncodeAll(recs[j..]);
    f.ParseIsEncode(data[o..], recs[j]);
    EncodeAllRoom(f, recs[..j]);
    r.FollowsIfPossible(data, 0, name);
    NewestIsRead(r, dir, names);
  }

  // --- older segments ---------------------------------------------------------------------------------

  /** An older segment that is needed and does not end with a whole record refuses the log. */
  lemma OlderDamageIsRefused(r: Recovery, dir: Directory, names: seq<nat>, at: nat, recs: seq<Rec>, rest: Bytes)
    requires IsListing(names, dir.Keys) && at < |names| - 1 && names[at + 1] > r.after + 1
    requires var name := names[at];
             && name in dir && 0 < name < 0x1_0000_0000_0000_0000 && Numbered(recs, name)
             && dir[name] == r.format.EncodeHeader(name) + (r.format.EncodeAll(recs) + rest)
             && rest != [] && !r.format.Parse(rest).Ok?
    ensures var out := r.Recover(dir, names); out.result.Refused? && out.dir == dir
  {
    hide Format.Parse, Format.Encode, Format.ParseHeader, Recovery.RecordFollows, Recovery.ScanFrom, Recovery.RunFrom,
         Recovery.RecoverFrom;
    var f, name := r.format, names[at];
    var data := dir[name];
    f.HeaderRoundTrip(name, f.EncodeAll(recs) + rest);
    assert data[SEGMENT_HEADER..] == f.EncodeAll(recs) + rest;
    RunReaches(r, data, SEGMENT_HEADER, recs, name, rest);
    assert data[|data| - |rest|..] == rest;
    forall expected: nat, delivered: seq<Rec>, segments: seq<SegmentInfo>
      ensures var step := r.RecoverOne(dir, name, false, expected, delivered, segments);
              step.End? && step.outcome.result.Refused? && step.outcome.dir == dir
    {
      r.ScanFollowsRun(data, SEGMENT_HEADER, name, delivered);
    }
    NotBeyond(names, r.after, |names|, at);
    var k := FirstNeeded(names, r.after, |names|);
    var needed := names[k..];
    assert needed[at - k] == name;
    RefusedThere(r, dir, needed, at - k, 0, [], []);
  }

  /** Reading starts at the latest with the segment before the first one beyond the snapshot. */
  lemma {:induction false} NotBeyond(names: seq<nat>, after: nat, upto: nat, at: nat)
    requires upto <= |names| && (forall i, j | 0 <= i < j < |names| :: names[i] < names[j])
    requires at + 1 < |names| && names[at + 1] > after + 1
    ensures FirstNeeded(names, after, upto) <= at
  {
    if upto > 0 && names[upto - 1] > after + 1 { NotBeyond(names, after, upto - 1, at); }
  }
}
