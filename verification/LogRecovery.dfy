/**
 The startup scan of the durable log: recover_log() over arbitrary segment files.

 A directory is a map from segment names (their first LSN) to file contents. The
 method RecoverLog follows the source's loops and is proved to compute the
 recursive function Recover; the lemmas say what Recover guarantees about any
 bytes whatsoever.
 */
module LogRecovery {
  import opened LogFormat

  type Directory = map<nat, Bytes>

  datatype SegmentInfo = SegmentInfo(first: nat, last: int, size: nat)

  datatype Recovered = Recovered(last: nat, segments: seq<SegmentInfo>, replayed: nat, torn: nat, removed: bool)

  datatype Result = Refused | Success(log: Recovered)

  /** Why the scan of a segment stopped. */
  datatype Stop = Clean | Damaged | WrongLsn | Rejected

  datatype Scan = Scan(offset: nat, expected: nat, delivered: seq<Rec>, stop: Stop)

  /** Where a run of records in sequence ends, and the LSN that would be next. */
  datatype Reach = Reach(offset: nat, next: nat)

  /** What recovery did: its answer, the records it delivered, the files afterwards. */
  datatype Outcome = Outcome(result: Result, delivered: seq<Rec>, dir: Directory)

  datatype Step = Go(expected: nat, delivered: seq<Rec>, segments: seq<SegmentInfo>) | End(outcome: Outcome)

  /** names are the keys in ascending order: what listing and sorting yields. */
  ghost predicate IsListing(names: seq<nat>, keys: set<nat>) {
    && (forall i, j | 0 <= i < j < |names| :: names[i] < names[j])
    && (forall n :: n in names <==> n in keys)
  }

  lemma {:induction false} ListingIsUnique(a: seq<nat>, b: seq<nat>, keys: set<nat>)
    requires IsListing(a, keys) && IsListing(b, keys)
    ensures a == b
  {
    SomeMember(a);
    SomeMember(b);
    if a != [] && b != [] {
      var x, y := a[|a| - 1], b[|b| - 1];
      assert x in a && y in b;
      assert x in b && y in a;
      assert x == y;
      ListingInit(a, keys);
      ListingInit(b, keys);
      ListingIsUnique(a[..|a| - 1], b[..|b| - 1], keys - {x});
    }
  }

  lemma SomeMember(a: seq<nat>)
    ensures a == [] || exists n :: n in a
  {
    if a != [] { assert a[0] in a; }
  }

  lemma ListingInit(a: seq<nat>, keys: set<nat>)
    requires IsListing(a, keys) && a != []
    ensures IsListing(a[..|a| - 1], keys - {a[|a| - 1]})
  {
    var init, last := a[..|a| - 1], a[|a| - 1];
    assert a == init + [last];
  }

  /** The index at which the scan starts: the last segment that begins at or before
      the first LSN that is needed. */
  function FirstNeeded(names: seq<nat>, after: nat, upto: nat): (k: nat)
    requires upto <= |names|
    ensures k < upto || k == 0
  {
    if upto == 0 then 0
    else if names[upto - 1] <= after + 1 then upto - 1
    else FirstNeeded(names, after, upto - 1)
  }

  /** The scan starts at the last segment that begins at or before the first LSN needed. */
  lemma {:induction false} FirstNeededIsLast(names: seq<nat>, after: nat, upto: nat, i: nat)
    requires i < upto <= |names| && names[i] <= after + 1
    ensures var k := FirstNeeded(names, after, upto);
            i <= k < upto && names[k] <= after + 1 && forall j | k < j < upto :: names[j] > after + 1
  {
    if names[upto - 1] > after + 1 { FirstNeededIsLast(names, after, upto - 1, i); }
  }

  /** One recovery: the format, what a snapshot already covers, and which delivered
      records the caller accepts (an application error aborts recovery). */
  datatype Recovery = Recovery(format: Format, after: nat, fits: seq<Rec> -> bool) {

    // --- telling a torn tail from damage -----------------------------------------------

    static function MaxLsn(data: Bytes, from: nat, minLsn: nat): nat {
      minLsn + (|data| - if from < |data| then from else |data|) / RECORD_HEADER
    }

    /** A valid record with an LSN that is plausible here starts at this offset. */
    predicate RecordAt(data: Bytes, offset: nat, minLsn: nat, maxLsn: nat) {
      && offset + RECORD_HEADER <= |data|
      && var parsed := format.Parse(data[offset..]);
         parsed.Ok? && minLsn <= parsed.rec.lsn <= maxLsn
    }

    ghost predicate RecordFollows(data: Bytes, from: nat, minLsn: nat) {
      exists offset :: from <= offset && RecordAt(data, offset, minLsn, MaxLsn(data, from, minLsn))
    }

    /** What is plausible: a whole record with a later LSN, for which the records in between
        have room, each taking a header at least. */
    lemma FollowsIfPossible(data: Bytes, from: nat, minLsn: nat)
      ensures RecordFollows(data, from, minLsn) <==>
              exists o: nat ::
                && from <= o <= |data|
                && var parsed := format.Parse(data[o..]);
                   parsed.Ok? && minLsn <= parsed.rec.lsn && RECORD_HEADER * (parsed.rec.lsn - minLsn) <= |data| - from
    {
      hide Format.Parse;
      var max := MaxLsn(data, from, minLsn);
      forall o: nat | from <= o <= |data|
        ensures RecordAt(data, o, minLsn, max) <==>
                var parsed := format.Parse(data[o..]);
                parsed.Ok? && minLsn <= parsed.rec.lsn && RECORD_HEADER * (parsed.rec.lsn - minLsn) <= |data| - from
      {
        var parsed := format.Parse(data[o..]);
        if parsed.Ok? && minLsn <= parsed.rec.lsn { InRange(minLsn, parsed.rec.lsn, |data| - from); }
      }
      if RecordFollows(data, from, minLsn) {
        var o :| from <= o && RecordAt(data, o, minLsn, max);
        assert o <= |data|;
      }
    }

    static lemma InRange(minLsn: nat, lsn: nat, room: nat)
      requires minLsn <= lsn
      ensures lsn <= minLsn + room / RECORD_HEADER <==> RECORD_HEADER * (lsn - minLsn) <= room
    {
    }

    /** Candidates are filtered by their header before a checksum is computed; the
        answer is the same as without the filter. */
    method ValidRecordFollows(data: Bytes, from: nat, minLsn: nat) returns (follows: bool)
      ensures follows <==> RecordFollows(data, from, minLsn)
      ensures follows <==>
              exists o: nat ::
                && from <= o <= |data|
                && var parsed := format.Parse(data[o..]);
                   parsed.Ok? && minLsn <= parsed.rec.lsn && RECORD_HEADER * (parsed.rec.lsn - minLsn) <= |data| - from
    {
      FollowsIfPossible(data, from, minLsn);
      if |data| < RECORD_HEADER { return false; }
      var maxLsn := MaxLsn(data, from, minLsn);
      var offset := from;
      while offset + RECORD_HEADER <= |data|
        invariant from <= offset
        invariant forall o | from <= o < offset :: !RecordAt(data, o, minLsn, maxLsn)
        decreases |data| - offset
      {
        FilterIsSound(data, offset, minLsn, maxLsn);
        if Load(data[offset..offset + 4]) <= |data| - offset - RECORD_HEADER {
          var lsn := Load(data[offset + 9..offset + 17]);
          if minLsn <= lsn <= maxLsn && format.Parse(data[offset..]).Ok? {
            assert RecordAt(data, offset, minLsn, maxLsn);
            return true;
          }
        }
        offset := offset + 1;
      }
      return false;
    }

    lemma FilterIsSound(data: Bytes, offset: nat, minLsn: nat, maxLsn: nat)
      requires offset + RECORD_HEADER <= |data|
      ensures RecordAt(data, offset, minLsn, maxLsn) <==>
                && Load(data[offset..offset + 4]) <= |data| - offset - RECORD_HEADER
                && minLsn <= Load(data[offset + 9..offset + 17]) <= maxLsn
                && format.Parse(data[offset..]).Ok?
    {
      var d := data[offset..];
      assert d[..4] == data[offset..offset + 4];
      assert d[9..17] == data[offset + 9..offset + 17];
    }

    // --- one segment -----------------------------------------------------------------

    /** Reads records from the offset on, as long as they are whole and in sequence. */
    function ScanFrom(data: Bytes, offset: nat, expected: nat, delivered: seq<Rec>): (scan: Scan)
      requires offset <= |data|
      ensures offset <= scan.offset <= |data| && expected <= scan.expected
      decreases |data| - offset
    {
      match format.Parse(data[offset..])
      case EndOfData => Scan(offset, expected, delivered, Clean)
      case Ok(rec, size) =>
        if rec.lsn != expected then Scan(offset, expected, delivered, WrongLsn)
        else if rec.lsn <= after then ScanFrom(data, offset + size, expected + 1, delivered)
        else if !fits(delivered + [rec]) then Scan(offset, expected, delivered, Rejected)
        else ScanFrom(data, offset + size, expected + 1, delivered + [rec])
      case _ => Scan(offset, expected, delivered, Damaged)
    }

    // --- the whole log ----------------------------------------------------------------

    /** The end of recovery: the log must reach what the snapshot covers. */
    function Finish(dir: Directory, expected: nat, delivered: seq<Rec>, segments: seq<SegmentInfo>, torn: nat,
                    removed: bool): Outcome
    {
      var last := if expected == 0 then after else expected - 1;
      Outcome(if last < after then Refused else Success(Recovered(last, segments, |delivered|, torn, removed)),
              delivered, dir)
    }

    /** One segment file: where recovery stands after it, or how it ends there. */
    ghost function RecoverOne(dir: Directory, name: nat, isLast: bool, expected: nat, delivered: seq<Rec>,
                              segments: seq<SegmentInfo>): Step
      requires name in dir
    {
      var data := dir[name];
      var refused := End(Outcome(Refused, delivered, dir));
      if expected != 0 && name != expected then refused
      else
        match format.ParseHeader(data)
        case Unsupported => refused
        case Corrupt =>
          if isLast && !RecordFollows(data, 0, name) then
            End(Finish(dir - {name}, expected, delivered, segments, 0, true))
          else refused
        case First(first) =>
          if first != name || (expected == 0 && name > after + 1) then refused
          else
            var scan := ScanFrom(data, SEGMENT_HEADER, name, delivered);
            match scan.stop
            case Clean =>
              Go(scan.expected, scan.delivered, segments + [SegmentInfo(name, scan.expected - 1, |data|)])
            case Damaged =>
              if !isLast || RecordFollows(data, scan.offset + 1, scan.expected) then
                End(Outcome(Refused, scan.delivered, dir))
              else
                End(Finish(dir[name := data[..scan.offset]], scan.expected, scan.delivered,
                           segments + [SegmentInfo(name, scan.expected - 1, scan.offset)], |data| - scan.offset, false))
            case _ => End(Outcome(Refused, scan.delivered, dir))
    }

    /** Recovery of the segments still to come. `expected` is 0 until the first one is read. */
    ghost function RecoverFrom(dir: Directory, names: seq<nat>, expected: nat, delivered: seq<Rec>,
                               segments: seq<SegmentInfo>): Outcome
      requires forall n | n in names :: n in dir
      decreases |names|
    {
      if names == [] then Finish(dir, expected, delivered, segments, 0, false)
      else
        match RecoverOne(dir, names[0], |names| == 1, expected, delivered, segments)
        case End(outcome) => outcome
        case Go(expected', delivered', segments') => RecoverFrom(dir, names[1..], expected', delivered', segments')
    }

    ghost function Recover(dir: Directory, names: seq<nat>): Outcome
      requires IsListing(names, dir.Keys)
    {
      RecoverFrom(dir, names[FirstNeeded(names, after, |names|)..], 0, [], [])
    }

    /** The inner loop of recover_log(): the records of one segment. */
    method ScanSegment(data: Bytes, name: nat, start: seq<Rec>) returns (scan: Scan)
      requires SEGMENT_HEADER <= |data|
      ensures scan == ScanFrom(data, SEGMENT_HEADER, name, start)
    {
      hide Format.Parse;
      var offset, expected, delivered := SEGMENT_HEADER, name, start;
      var parsed := format.Parse(data[offset..]);
      while parsed.Ok?
        invariant offset <= |data| && expected >= 0 && parsed == format.Parse(data[offset..])
        invariant ScanFrom(data, offset, expected, delivered) == ScanFrom(data, SEGMENT_HEADER, name, start)
        decreases |data| - offset
      {
        if parsed.rec.lsn != expected { return Scan(offset, expected, delivered, WrongLsn); }
        if parsed.rec.lsn > after {
          if !fits(delivered + [parsed.rec]) { return Scan(offset, expected, delivered, Rejected); }
          delivered := delivered + [parsed.rec];
        }
        expected := expected + 1;
        offset := offset + parsed.size;
        parsed := format.Parse(data[offset..]);
      }
      return Scan(offset, expected, delivered, if parsed.EndOfData? then Clean else Damaged);
    }

    /** The body of the outer loop of recover_log(): one segment file. */
    method RecoverSegment(dir: Directory, name: nat, isLast: bool, expected: nat, delivered: seq<Rec>,
                          segments: seq<SegmentInfo>)
      returns (step: Step)
      requires name in dir
      ensures step == RecoverOne(dir, name, isLast, expected, delivered, segments)
    {
      hide Format.Parse, Format.ParseHeader, RecordFollows, ScanFrom;
      var data := dir[name];
      if expected != 0 && name != expected {
        return End(Outcome(Refused, delivered, dir));
      }
      var header := format.ParseHeader(data);
      if !header.First? {
        var follows := ValidRecordFollows(data, 0, name);
        var tornCreation := isLast && header.Corrupt? && !follows;
        if !tornCreation { return End(Outcome(Refused, delivered, dir)); }
        return End(Finish(dir - {name}, expected, delivered, segments, 0, true));
      }
      if header.lsn != name { return End(Outcome(Refused, delivered, dir)); }
      if expected == 0 && name > after + 1 { return End(Outcome(Refused, delivered, dir)); }
      var scan := ScanSegment(data, name, delivered);
      if scan.stop == WrongLsn || scan.stop == Rejected {
        return End(Outcome(Refused, scan.delivered, dir));
      }
      if scan.stop == Damaged {
        if !isLast { return End(Outcome(Refused, scan.delivered, dir)); }
        var follows := ValidRecordFollows(data, scan.offset + 1, scan.expected);
        if follows { return End(Outcome(Refused, scan.delivered, dir)); }
        return End(Finish(dir[name := data[..scan.offset]], scan.expected, scan.delivered,
                          segments + [SegmentInfo(name, scan.expected - 1, scan.offset)], |data| - scan.offset, false));
      }
      return Go(scan.expected, scan.delivered, segments + [SegmentInfo(name, scan.expected - 1, |data|)]);
    }

    /** The outer loop of recover_log(). */
    method RecoverLog(dir: Directory, names: seq<nat>) returns (outcome: Outcome)
      requires IsListing(names, dir.Keys)
      ensures outcome == Recover(dir, names)
    {
      hide RecoverOne;
      var firstNeeded := 0;
      for i := 0 to |names|
        invariant firstNeeded == FirstNeeded(names, after, i)
      {
        if names[i] <= after + 1 { firstNeeded := i; }
      }
      var expected: nat := 0;
      var delivered, segments := [], [];
      var i := firstNeeded;
      while i < |names|
        invariant i <= |names|
        invariant RecoverFrom(dir, names[i..], expected, delivered, segments) == Recover(dir, names)
      {
        assert names[i..][1..] == names[i + 1..];
        var step := RecoverSegment(dir, names[i], i + 1 == |names|, expected, delivered, segments);
        if step.End? { return step.outcome; }
        expected, delivered, segments := step.expected, step.delivered, step.segments;
        i := i + 1;
      }
      assert names[i..] == [];
      return Finish(dir, expected, delivered, segments, 0, false);
    }

    // --- what recovery guarantees about arbitrary bytes -----------------------------------

    /** Exactly the records after the snapshot and before `expected` were delivered. */
    ghost predicate DeliveredUpTo(expected: nat, delivered: seq<Rec>) {
      && |delivered| == (if expected <= after + 1 then 0 else expected - 1 - after)
      && forall i | 0 <= i < |delivered| :: delivered[i].lsn == after + 1 + i
    }

    lemma {:induction false} ScanInSequence(data: Bytes, offset: nat, expected: nat, delivered: seq<Rec>)
      requires offset <= |data| && DeliveredUpTo(expected, delivered)
      ensures var scan := ScanFrom(data, offset, expected, delivered);
              DeliveredUpTo(scan.expected, scan.delivered)
      decreases |data| - offset
    {
      hide Format.Parse;
      var parsed := format.Parse(data[offset..]);
      if parsed.Ok? && parsed.rec.lsn == expected {
        if parsed.rec.lsn <= after {
          ScanInSequence(data, offset + parsed.size, expected + 1, delivered);
        } else if fits(delivered + [parsed.rec]) {
          ScanInSequence(data, offset + parsed.size, expected + 1, delivered + [parsed.rec]);
        }
      }
    }

    lemma {:induction false} RecoverFromInSequence(dir: Directory, names: seq<nat>, expected: nat, delivered: seq<Rec>,
                                                   segments: seq<SegmentInfo>)
      requires forall n | n in names :: n in dir
      requires DeliveredUpTo(expected, delivered)
      ensures var outcome := RecoverFrom(dir, names, expected, delivered, segments);
              outcome.result.Success? ==> DeliveredUpTo(outcome.result.log.last + 1, outcome.delivered)
                                          && outcome.result.log.last >= after
      decreases |names|
    {
      hide ScanFrom, RecordFollows, Format.ParseHeader;
      if names != [] {
        var data := dir[names[0]];
        if format.ParseHeader(data).First? {
          assert DeliveredUpTo(names[0], delivered) || (expected != 0 && names[0] != expected) ||
                 (expected == 0 && names[0] > after + 1);
          if DeliveredUpTo(names[0], delivered) { ScanInSequence(data, SEGMENT_HEADER, names[0], delivered); }
        }
        var step := RecoverOne(dir, names[0], |names| == 1, expected, delivered, segments);
        if step.Go? {
          RecoverFromInSequence(dir, names[1..], step.expected, step.delivered, step.segments);
        }
      }
    }

    /** Success means that exactly the LSNs after the snapshot up to the last one were
        delivered, once each and in order, whatever the files contain. */
    lemma RecoverInSequence(dir: Directory, names: seq<nat>)
      requires IsListing(names, dir.Keys)
      ensures var outcome := Recover(dir, names);
              outcome.result.Success? ==>
                && outcome.result.log.last >= after
                && |outcome.delivered| == outcome.result.log.last - after
                && forall i | 0 <= i < |outcome.delivered| :: outcome.delivered[i].lsn == after + 1 + i
    {
      RecoverFromInSequence(dir, names[FirstNeeded(names, after, |names|)..], 0, [], []);
    }

    // --- refusals ---------------------------------------------------------------------------

    /** How far the records go on in sequence, whoever wants them. */
    function RunFrom(data: Bytes, offset: nat, next: nat): (run: Reach)
      requires offset <= |data|
      ensures offset <= run.offset <= |data| && next <= run.next
      decreases |data| - offset
    {
      var parsed := format.Parse(data[offset..]);
      if parsed.Ok? && parsed.rec.lsn == next then RunFrom(data, offset + parsed.size, next + 1)
        else Reach(offset, next)
    }

    /** What stops a scan here, if it is not the next record. */
    function StopAt(data: Bytes, offset: nat): Stop
      requires offset <= |data|
    {
      match format.Parse(data[offset..])
      case EndOfData => Clean
      case Ok(_, _) => WrongLsn
      case _ => Damaged
    }

    /** As long as the snapshot covers the records, a scan is about the file alone; once it
        does not, some are delivered or one is rejected. */
    lemma {:induction false} ScanFollowsRun(data: Bytes, offset: nat, expected: nat, delivered: seq<Rec>)
      requires offset <= |data|
      ensures var scan, run := ScanFrom(data, offset, expected, delivered), RunFrom(data, offset, expected);
              && |scan.delivered| >= |delivered|
              && (scan.stop != Rejected ==>
                  scan == Scan(run.offset, run.next, scan.delivered, StopAt(data, run.offset)))
              && if run.next <= after + 1 then scan.stop != Rejected && scan.delivered == delivered
                 else expected > after + 1 || scan.stop == Rejected || |scan.delivered| > |delivered|
      decreases |data| - offset
    {
      hide Format.Parse;
      var parsed := format.Parse(data[offset..]);
      if parsed.Ok? && parsed.rec.lsn == expected {
        if parsed.rec.lsn <= after {
          ScanFollowsRun(data, offset + parsed.size, expected + 1, delivered);
        } else if fits(delivered + [parsed.rec]) {
          ScanFollowsRun(data, offset + parsed.size, expected + 1, delivered + [parsed.rec]);
        }
      }
    }

    /** A segment that is damaged behind its records, with nothing plausible after that, and
        whose records end before what the snapshot covers. */
    ghost predicate EndsShort(data: Bytes, name: nat) {
      && format.ParseHeader(data).First? && format.ParseHeader(data).lsn == name
      && var run := RunFrom(data, SEGMENT_HEADER, name);
         StopAt(data, run.offset).Damaged? && !RecordFollows(data, run.offset + 1, run.next) && run.next <= after
    }

    /** Beyond what the snapshot covers, a refusal leaves every file as it was. */
    lemma {:induction false} LaterRefusal(dir: Directory, names: seq<nat>, expected: nat, delivered: seq<Rec>,
                                          segments: seq<SegmentInfo>)
      requires (forall n | n in names :: n in dir && n > after + 1) && expected != 0
      ensures var outcome := RecoverFrom(dir, names, expected, delivered, segments);
              outcome.result.Refused? ==> outcome.dir == dir
      decreases |names|
    {
      hide ScanFrom, RecordFollows, Format.ParseHeader;
      if names != [] {
        assert names[0] in names;
        var step := RecoverOne(dir, names[0], |names| == 1, expected, delivered, segments);
        if step.Go? {
          LaterRefusal(dir, names[1..], step.expected, step.delivered, step.segments);
        }
      }
    }

    /** The first segment that is read: it can be cut and refused only if it is the newest. */
    lemma FirstRefusal(dir: Directory, name: nat, isLast: bool)
      requires name in dir
      ensures var step := RecoverOne(dir, name, isLast, 0, [], []);
              && (step.Go? ==> step.expected != 0)
              && (step.End? && step.outcome.result.Refused? && step.outcome.dir != dir <==>
                  isLast && EndsShort(dir[name], name))
      ensures isLast && EndsShort(dir[name], name) ==>
                RecoverOne(dir, name, isLast, 0, [], []).outcome.dir
                == dir[name := dir[name][..RunFrom(dir[name], SEGMENT_HEADER, name).offset]]
    {
      hide ScanFrom, RecordFollows, Format.Parse, RunFrom, Format.ParseHeader, StopAt;
      var data := dir[name];
      if format.ParseHeader(data).First? {
        ScanFollowsRun(data, SEGMENT_HEADER, name, []);
        RunStops(data, SEGMENT_HEADER, name);
        StopMeans(data, SEGMENT_HEADER, name, []);
        var cut := dir[name := data[..RunFrom(data, SEGMENT_HEADER, name).offset]];
        assert cut[name] != data ==> cut != dir;
      }
    }

    /** A refusal changes a file if and only if the newest segment ends short of what the
        snapshot covers and is damaged there: its torn end is cut before the log turns out
        too short. Nothing else is ever changed by a refusal. */
    lemma RefusalKeepsFiles(dir: Directory, names: seq<nat>)
      requires IsListing(names, dir.Keys)
      ensures var outcome := Recover(dir, names);
              outcome.result.Refused? && outcome.dir != dir
              <==> names != [] && EndsShort(dir[names[|names| - 1]], names[|names| - 1])
      ensures names != [] && EndsShort(dir[names[|names| - 1]], names[|names| - 1]) ==>
                var name := names[|names| - 1];
                Recover(dir, names).dir == dir[name := dir[name][..RunFrom(dir[name], SEGMENT_HEADER, name).offset]]
    {
      hide RecoverOne, EndsShort, RunFrom;
      if names != [] {
        var k := FirstNeeded(names, after, |names|);
        var needed := names[k..];
        var step := RecoverOne(dir, needed[0], |needed| == 1, 0, [], []);
        FirstRefusal(dir, needed[0], |needed| == 1);
        NeededTail(names, |names|);
        if step.Go? { LaterRefusal(dir, needed[1..], step.expected, step.delivered, step.segments); }
        if |needed| > 1 { ShortIsCovered(dir, names); }
      }
    }

    /** After the first segment that is read come only segments beyond the snapshot. */
    lemma {:induction false} NeededTail(names: seq<nat>, upto: nat)
      requires upto <= |names| && (forall i, j | 0 <= i < j < |names| :: names[i] < names[j])
      ensures var k := FirstNeeded(names, after, upto); forall i | k < i < upto :: names[i] > after + 1
    {
      if upto > 0 && names[upto - 1] > after + 1 { NeededTail(names, upto - 1); }
    }

    lemma ShortIsCovered(dir: Directory, names: seq<nat>)
      requires names != [] && names[|names| - 1] in dir && names[|names| - 1] > after
      ensures !EndsShort(dir[names[|names| - 1]], names[|names| - 1])
    {
      hide RecordFollows, Format.ParseHeader, StopAt;
    }

    lemma {:induction false} RunStops(data: Bytes, offset: nat, next: nat)
      requires offset <= |data|
      ensures var run := RunFrom(data, offset, next); StopAt(data, run.offset).Clean? <==> run.offset == |data|
      decreases |data| - offset
    {
      hide Format.Parse;
      var parsed := format.Parse(data[offset..]);
      if parsed.Ok? && parsed.rec.lsn == next { RunStops(data, offset + parsed.size, next + 1); }
    }

    /** A scan is clean exactly if it reaches the end of the file. */
    lemma {:induction false} StopMeans(data: Bytes, offset: nat, expected: nat, delivered: seq<Rec>)
      requires offset <= |data|
      ensures var scan := ScanFrom(data, offset, expected, delivered);
              && (scan.stop == Clean <==> scan.offset == |data|)
      decreases |data| - offset
    {
      hide Format.Parse;
      var parsed := format.Parse(data[offset..]);
      if parsed.Ok? && parsed.rec.lsn == expected {
        if parsed.rec.lsn <= after {
          StopMeans(data, offset + parsed.size, expected + 1, delivered);
        } else if fits(delivered + [parsed.rec]) {
          StopMeans(data, offset + parsed.size, expected + 1, delivered + [parsed.rec]);
        }
      }
    }

    /** Cutting a file where its scan stopped makes the same scan end cleanly there. */
    lemma {:induction false} ScanOfCut(data: Bytes, offset: nat, expected: nat, delivered: seq<Rec>)
      requires offset <= |data|
      requires ScanFrom(data, offset, expected, delivered).stop in {Clean, Damaged}
      ensures var scan := ScanFrom(data, offset, expected, delivered);
              ScanFrom(data[..scan.offset], offset, expected, delivered) == scan.(stop := Clean)
      decreases |data| - offset
    {
      hide Format.Parse;
      var scan := ScanFrom(data, offset, expected, delivered);
      var cut := data[..scan.offset];
      assert cut[offset..] == data[offset..scan.offset];
      var parsed := format.Parse(data[offset..]);
      if parsed.Ok? {
        var rest := if parsed.rec.lsn <= after then delivered else delivered + [parsed.rec];
        assert scan == ScanFrom(data, offset + parsed.size, expected + 1, rest);
        SameRecord(data[offset..], cut[offset..]);
        ScanOfCut(data, offset + parsed.size, expected + 1, rest);
      } else {
        assert cut[offset..] == [];
      }
    }

    /** A record that lies within the first part is parsed the same way from that part. */
    lemma SameRecord(data: Bytes, part: Bytes)
      requires part <= data && format.Parse(data).Ok? && format.Parse(data).size <= |part|
      ensures format.Parse(part) == format.Parse(data)
    {
      hide Format.Parse, Format.Encode;
      var parsed := format.Parse(data);
      format.ParseIsEncode(data, parsed.rec);
      assert format.Encode(parsed.rec) <= part;
      format.ParseIsEncode(part, parsed.rec);
    }

    /** A segment that ended recovery with success leads to the same end once repaired. */
    lemma RepairedSegment(dir: Directory, name: nat, expected: nat, delivered: seq<Rec>, segments: seq<SegmentInfo>)
      requires name in dir
      requires var step := RecoverOne(dir, name, true, expected, delivered, segments);
               step.End? && step.outcome.result.Success? && !step.outcome.result.log.removed
      ensures var end := RecoverOne(dir, name, true, expected, delivered, segments).outcome;
              var log := end.result.log;
              && end.dir.Keys == dir.Keys && end.dir == dir[name := end.dir[name]]
              && log.replayed == |end.delivered| && log.last >= after
              && RecoverOne(end.dir, name, true, expected, delivered, segments) ==
                 Go(log.last + 1, end.delivered, log.segments)
    {
      hide ScanFrom, RecordFollows, Format.Parse, Format.ParseHeader;
      var data := dir[name];
      var scan := ScanFrom(data, SEGMENT_HEADER, name, delivered);
      ScanOfCut(data, SEGMENT_HEADER, name, delivered);
      format.HeaderIsLocal(data, data[..scan.offset]);
    }

    /** Where the repaired directory leads the second time. */
    lemma {:induction false} RecoverFromAgain(dir: Directory, names: seq<nat>, expected: nat, delivered: seq<Rec>,
                                              segments: seq<SegmentInfo>)
      requires (forall n | n in names :: n in dir) && (forall i, j | 0 <= i < j < |names| :: names[i] < names[j])
      requires RecoverFrom(dir, names, expected, delivered, segments).result.Success?
      ensures ReadsBack(dir, names, expected, delivered, segments)
      decreases |names|
    {
      hide RecoverOne, ReadsBack;
      if names == [] { NothingReadsBack(dir, expected, delivered, segments); return; }
      var step := RecoverOne(dir, names[0], |names| == 1, expected, delivered, segments);
      if step.Go? {
        RecoverFromAgain(dir, names[1..], step.expected, step.delivered, step.segments);
        PassReadsBack(dir, names, expected, delivered, segments, step);
      } else {
        EndReadsBack(dir, names, expected, delivered, segments);
      }
    }

    /** What recovery left is read again without repairs, to the same end. */
    ghost predicate ReadsBack(dir: Directory, names: seq<nat>, expected: nat, delivered: seq<Rec>,
                              segments: seq<SegmentInfo>)
      requires forall n | n in names :: n in dir
      requires RecoverFrom(dir, names, expected, delivered, segments).result.Success?
    {
      var first := RecoverFrom(dir, names, expected, delivered, segments);
      && (first.result.log.removed ==> names != [] && first.dir == dir - {names[|names| - 1]})
      && (!first.result.log.removed ==> first.dir.Keys == dir.Keys)
      && (forall n | n in dir && n !in names :: n in first.dir && first.dir[n] == dir[n])
      && var names' := if first.result.log.removed then names[..|names| - 1] else names;
         && (forall n | n in names' :: n in first.dir)
         && RecoverFrom(first.dir, names', expected, delivered, segments)
            == first.(result := Success(first.result.log.(torn := 0, removed := false)))
    }

    lemma NothingReadsBack(dir: Directory, expected: nat, delivered: seq<Rec>, segments: seq<SegmentInfo>)
      requires RecoverFrom(dir, [], expected, delivered, segments).result.Success?
      ensures ReadsBack(dir, [], expected, delivered, segments)
    {
    }

    lemma PassReadsBack(dir: Directory, names: seq<nat>, expected: nat, delivered: seq<Rec>,
                        segments: seq<SegmentInfo>, step: Step)
      requires names != [] && (forall n | n in names :: n in dir) && step.Go?
      requires forall j | 0 < j < |names| :: names[0] < names[j]
      requires step == RecoverOne(dir, names[0], |names| == 1, expected, delivered, segments)
      requires RecoverFrom(dir, names[1..], step.expected, step.delivered, step.segments).result.Success?
      requires ReadsBack(dir, names[1..], step.expected, step.delivered, step.segments)
      ensures RecoverFrom(dir, names, expected, delivered, segments).result.Success?
      ensures ReadsBack(dir, names, expected, delivered, segments)
    {
      hide RecoverOne, RecoverFrom;
      Passes(dir, names, expected, delivered, segments, step);
      var first := RecoverFrom(dir, names, expected, delivered, segments);
      GoIsLocal(dir, first.dir, names[0], |names| == 1, expected, delivered, segments);
      var names' := if first.result.log.removed then names[..|names| - 1] else names;
      if first.result.log.removed { DropEnds(names); }
      Passes(first.dir, names', expected, delivered, segments, step);
    }

    lemma DropEnds(names: seq<nat>)
      requires |names| >= 2
      ensures names[..|names| - 1][1..] == names[1..][..|names| - 2]
    {
    }

    lemma EndReadsBack(dir: Directory, names: seq<nat>, expected: nat, delivered: seq<Rec>, segments: seq<SegmentInfo>)
      requires names != [] && (forall n | n in names :: n in dir)
      requires RecoverOne(dir, names[0], |names| == 1, expected, delivered, segments).End?
      requires RecoverFrom(dir, names, expected, delivered, segments).result.Success?
      ensures ReadsBack(dir, names, expected, delivered, segments)
    {
      hide RecoverOne;
      var first := RecoverFrom(dir, names, expected, delivered, segments);
      EndOnlyAtLast(dir, names[0], |names| == 1, expected, delivered, segments);
      assert names == [names[0]] && names[1..] == [] && names[..0] == [];
      if !first.result.log.removed {
        RepairedSegment(dir, names[0], expected, delivered, segments);
        var step := RecoverOne(first.dir, names[0], true, expected, delivered, segments);
        Passes(first.dir, names, expected, delivered, segments, step);
      }
    }

    lemma Passes(dir: Directory, names: seq<nat>, expected: nat, delivered: seq<Rec>, segments: seq<SegmentInfo>,
                 step: Step)
      requires names != [] && (forall n | n in names :: n in dir) && step.Go?
      requires step == RecoverOne(dir, names[0], |names| == 1, expected, delivered, segments)
      ensures RecoverFrom(dir, names, expected, delivered, segments)
              == RecoverFrom(dir, names[1..], step.expected, step.delivered, step.segments)
    {
      hide RecoverOne;
    }

    /** What lets recovery pass a segment is that segment's own contents. */
    lemma GoIsLocal(dir: Directory, dir': Directory, name: nat, isLast: bool, expected: nat, delivered: seq<Rec>,
                    segments: seq<SegmentInfo>)
      requires name in dir && name in dir' && dir'[name] == dir[name]
      requires RecoverOne(dir, name, isLast, expected, delivered, segments).Go?
      ensures forall l ::
              RecoverOne(dir', name, l, expected, delivered, segments) ==
                RecoverOne(dir, name, isLast, expected, delivered, segments)
    {
      hide ScanFrom, RecordFollows, Format.Parse, Format.ParseHeader;
    }

    lemma EndOnlyAtLast(dir: Directory, name: nat, isLast: bool, expected: nat, delivered: seq<Rec>,
                        segments: seq<SegmentInfo>)
      requires name in dir
      requires var step := RecoverOne(dir, name, isLast, expected, delivered, segments);
               step.End? && step.outcome.result.Success?
      ensures isLast
      ensures var end := RecoverOne(dir, name, isLast, expected, delivered, segments).outcome;
              end.result.log.removed ==> end == Finish(dir - {name}, expected, delivered, segments, 0, true)
    {
      hide ScanFrom, RecordFollows, Format.Parse, Format.ParseHeader;
    }

    /** A second recovery that repairs nothing and delivers the same records. */
    ghost predicate SameAgain(first: Outcome, second: Outcome) {
      && first.result.Success? && second.result.Success?
      && second.dir == first.dir && second.delivered == first.delivered &&
         second.result.log.last == first.result.log.last
      && second.result.log.torn == 0 && !second.result.log.removed
    }

    /** The newest of several segments was torn at its creation and holds nothing the
        snapshot does not cover, so that only it was read before it was removed. */
    ghost predicate UncoversOlder(dir: Directory, names: seq<nat>)
      requires forall n | n in names :: n in dir
    {
      && |names| >= 2 && names[|names| - 1] <= after + 1
      && var newest := names[|names| - 1];
         assert newest in names; format.ParseHeader(dir[newest]).Corrupt?
    }

    /** A whole segment that ends exactly where the snapshot does. */
    ghost predicate EndsAtSnapshot(data: Bytes, name: nat) {
      && format.ParseHeader(data).First? && format.ParseHeader(data).lsn == name
      && RunFrom(data, SEGMENT_HEADER, name) == Reach(|data|, after + 1)
    }

    /** A second recovery repairs nothing and delivers the same records if and only if the
        first did not uncover an older segment, or that one ends exactly where the snapshot
        does. */
    lemma RecoverAgain(dir: Directory, names: seq<nat>, names': seq<nat>)
      requires IsListing(names, dir.Keys) && Recover(dir, names).result.Success?
      requires IsListing(names', Recover(dir, names).dir.Keys)
      ensures SameAgain(Recover(dir, names), Recover(Recover(dir, names).dir, names'))
              <==> UncoversOlder(dir, names) ==> EndsAtSnapshot(dir[names[|names| - 2]], names[|names| - 2])
      ensures !UncoversOlder(dir, names) ==>
                Recover(Recover(dir, names).dir, names').result ==
                  Success(Recover(dir, names).result.log.(torn := 0, removed := false))
    {
      hide RecoverFrom, EndsAtSnapshot, IsListing, FirstNeeded, SameAgain, UncoversOlder, Format.ParseHeader;
      var first, k := Recover(dir, names), FirstNeeded(names, after, |names|);
      ListingMeans(names, dir);
      Repaired(dir, names, k, first);
      RepairedNeeded(dir, names, k, first);
      ListedAgain(dir, names, names', first.dir, first.result.log.removed);
      if names == [] || k < |names| - 1 || !first.result.log.removed { SameFrom(dir, names, names', first); }
      if names != [] && k == |names| - 1 { OneNeededAgain(dir, names, names', first); }
      UncoversMeans(dir, names, k);
    }

    /** What the first recovery leaves of the directory. */
    lemma Repaired(dir: Directory, names: seq<nat>, k: nat, first: Outcome)
      requires (forall n | n in names :: n in dir) && (forall i, j | 0 <= i < j < |names| :: names[i] < names[j]) &&
               k <= |names|
      requires first == RecoverFrom(dir, names[k..], 0, [], []) && first.result.Success?
      ensures if first.result.log.removed then k < |names| && first.dir == dir - {names[|names| - 1]}
              else first.dir.Keys == dir.Keys
    {
      hide RecoverFrom;
      var needed := names[k..];
      RecoverFromAgain(dir, needed, 0, [], []);
      if first.result.log.removed { assert needed[|needed| - 1] == names[|names| - 1]; }
    }

    /** Where the segments it read lead now. */
    lemma RepairedNeeded(dir: Directory, names: seq<nat>, k: nat, first: Outcome)
      requires (forall n | n in names :: n in dir) && (forall i, j | 0 <= i < j < |names| :: names[i] < names[j]) &&
               k <= |names|
      requires first == RecoverFrom(dir, names[k..], 0, [], []) && first.result.Success?
      requires first.result.log.removed ==> k < |names|
      ensures var needed := if first.result.log.removed then names[k..|names| - 1] else names[k..];
              && (forall n | n in needed :: n in first.dir)
              && RecoverFrom(first.dir, needed, 0, [], []) ==
                 first.(result := Success(first.result.log.(torn := 0, removed := false)))
    {
      hide RecoverFrom;
      var needed := names[k..];
      RecoverFromAgain(dir, needed, 0, [], []);
      if first.result.log.removed { assert needed[..|needed| - 1] == names[k..|names| - 1]; }
    }

    lemma ListingMeans(names: seq<nat>, dir: Directory)
      requires IsListing(names, dir.Keys)
      ensures (forall n | n in names :: n in dir) && (forall i, j | 0 <= i < j < |names| :: names[i] < names[j])
    {
    }

    lemma ListedAgain(dir: Directory, names: seq<nat>, names': seq<nat>, dir': Directory, removed: bool)
      requires IsListing(names, dir.Keys) && IsListing(names', dir'.Keys)
      requires if removed then names != [] && dir' == dir - {names[|names| - 1]} else dir'.Keys == dir.Keys
      ensures names' == if removed then names[..|names| - 1] else names
    {
      if removed {
        ListingInit(names, dir.Keys);
        ListingIsUnique(names', names[..|names| - 1], dir'.Keys);
      } else {
        ListingIsUnique(names', names, dir.Keys);
      }
    }

    /** Which segment is read first the second time. */
    lemma NeededAgain(names: seq<nat>, names': seq<nat>)
      requires names != [] && names' == names[..|names| - 1] &&
               (forall i, j | 0 <= i < j < |names| :: names[i] < names[j])
      ensures var m, k := |names|, FirstNeeded(names, after, |names|);
              var needed := names'[FirstNeeded(names', after, m - 1)..];
              && (k < m - 1 ==> needed == names[k..][..m - k - 1])
              && (k == m - 1 && m >= 2 ==> names[m - 2] <= after + 1 && needed == [names[m - 2]])
              && (m == 1 ==> needed == [])
    {
      var m, k := |names|, FirstNeeded(names, after, |names|);
      FirstNeededOfPart(names, names', m - 1);
      if names[m - 1] > after + 1 {
        if k < m - 1 { assert names'[k..] == names[k..][..m - k - 1]; }
      } else if m >= 2 {
        assert names[m - 2] < names[m - 1];
        assert names'[m - 2..] == [names[m - 2]];
      }
    }

    lemma UncoversMeans(dir: Directory, names: seq<nat>, k: nat)
      requires (forall n | n in names :: n in dir) && k == FirstNeeded(names, after, |names|)
      ensures UncoversOlder(dir, names) ==>
              |names| >= 2 && k == |names| - 1 && format.ParseHeader(dir[names[|names| - 1]]).Corrupt?
    {
    }

    lemma SameFrom(dir: Directory, names: seq<nat>, names': seq<nat>, first: Outcome)
      requires (forall n | n in names :: n in dir) && (forall i, j | 0 <= i < j < |names| :: names[i] < names[j]) &&
               first.result.Success?
      requires first.result.log.removed ==> FirstNeeded(names, after, |names|) < |names| - 1
      requires var k := FirstNeeded(names, after, |names|);
               var needed := if first.result.log.removed then names[k..|names| - 1] else names[k..];
               && (forall n | n in needed :: n in first.dir)
               && RecoverFrom(first.dir, needed, 0, [], []) ==
                  first.(result := Success(first.result.log.(torn := 0, removed := false)))
      requires names' == if first.result.log.removed then names[..|names| - 1] else names
      requires IsListing(names', first.dir.Keys)
      ensures var second := Recover(first.dir, names');
              SameAgain(first, second) && second.result == Success(first.result.log.(torn := 0, removed := false))
    {
      hide RecoverFrom, IsListing, FirstNeeded;
      NeededStays(names, names', first.result.log.removed);
    }

    lemma NeededStays(names: seq<nat>, names': seq<nat>, removed: bool)
      requires forall i, j | 0 <= i < j < |names| :: names[i] < names[j]
      requires removed ==> FirstNeeded(names, after, |names|) < |names| - 1
      requires names' == if removed then names[..|names| - 1] else names
      ensures var k := FirstNeeded(names, after, |names|);
              names'[FirstNeeded(names', after, |names'|)..] == if removed then names[k..|names| - 1] else names[k..]
    {
      hide FirstNeeded;
      if removed {
        NeededAgain(names, names');
        var k := FirstNeeded(names, after, |names|);
        assert names[k..][..|names| - k - 1] == names[k..|names| - 1];
      }
    }

    lemma {:induction false} FirstNeededOfPart(names: seq<nat>, part: seq<nat>, upto: nat)
      requires part <= names && upto <= |part|
      ensures FirstNeeded(part, after, upto) == FirstNeeded(names, after, upto)
    {
      if upto > 0 { FirstNeededOfPart(names, part, upto - 1); }
    }

    /** Only the newest segment is read. */
    lemma OneNeededAgain(dir: Directory, names: seq<nat>, names': seq<nat>, first: Outcome)
      requires names != [] && (forall n | n in names :: n in dir) &&
               (forall i, j | 0 <= i < j < |names| :: names[i] < names[j])
      requires FirstNeeded(names, after, |names|) == |names| - 1
      requires first == RecoverFrom(dir, names[|names| - 1..], 0, [], []) && first.result.Success?
      requires first.result.log.removed ==> names' == names[..|names| - 1]
      requires IsListing(names', first.dir.Keys)
      ensures first.result.log.removed <==> format.ParseHeader(dir[names[|names| - 1]]).Corrupt?
      ensures first.result.log.removed && |names| == 1 ==>
                var second := Recover(first.dir, names');
                SameAgain(first, second) && second.result == Success(first.result.log.(torn := 0, removed := false))
      ensures first.result.log.removed && |names| >= 2 ==>
                && UncoversOlder(dir, names)
                && (SameAgain(first, Recover(first.dir, names')) <==>
                    EndsAtSnapshot(dir[names[|names| - 2]], names[|names| - 2]))
    {
      hide RecoverOne, EndsAtSnapshot, Format.ParseHeader, FirstNeeded, IsListing;
      var m := |names|;
      var newest := names[m - 1];
      assert names[m - 1..] == [newest];
      ReadsOne(dir, newest);
      if first.result.log.removed {
        NeededAgain(names, names');
        if m >= 2 {
          AtNewest(names);
          ReadsOlder(first.dir, names[m - 2]);
        }
      }
    }

    lemma AtNewest(names: seq<nat>)
      requires |names| >= 2 && FirstNeeded(names, after, |names|) == |names| - 1
      ensures names[|names| - 1] <= after + 1
    {
    }

    /** What is left when a segment torn at its creation was the only one read. */
    ghost function Removed(dir: Directory, name: nat): Outcome {
      Outcome(Success(Recovered(after, [], 0, 0, true)), [], dir - {name})
    }

    lemma ReadsOne(dir: Directory, name: nat)
      requires name in dir && RecoverFrom(dir, [name], 0, [], []).result.Success?
      ensures var first := RecoverFrom(dir, [name], 0, [], []);
              && (first.result.log.removed <==> format.ParseHeader(dir[name]).Corrupt?)
              && (first.result.log.removed ==> first == Removed(dir, name))
    {
      hide ScanFrom, RecordFollows, Format.Parse, Format.ParseHeader;
    }

    /** The older segment is left alone and gives nothing new exactly if it ends at the snapshot. */
    lemma ReadsOlder(dir: Directory, name: nat)
      requires name in dir && name <= after + 1
      ensures SameAgain(Removed(dir, name).(dir := dir), RecoverFrom(dir, [name], 0, [], [])) <==>
              EndsAtSnapshot(dir[name], name)
    {
      hide ScanFrom, RecordFollows, Format.Parse, Format.ParseHeader, RunFrom, StopAt;
      var data := dir[name];
      if format.ParseHeader(data).First? {
        ScanFollowsRun(data, SEGMENT_HEADER, name, []);
        RunStops(data, SEGMENT_HEADER, name);
        StopMeans(data, SEGMENT_HEADER, name, []);
      }
    }

    lemma StartsAtFirst(names: seq<nat>)
      requires after == 0 && (forall i, j | 0 <= i < j < |names| :: names[i] < names[j]) &&
               (forall n | n in names :: n >= 1)
      ensures FirstNeeded(names, after, |names|) == 0
    {
      LastAtMostOne(names, |names|);
    }

    lemma {:induction false} LastAtMostOne(names: seq<nat>, upto: nat)
      requires upto <= |names|
      requires after == 0 && (forall i, j | 0 <= i < j < |names| :: names[i] < names[j]) &&
               (forall n | n in names :: n >= 1)
      ensures FirstNeeded(names, after, upto) == 0
    {
      if upto > 0 {
        assert names[0] in names;
        LastAtMostOne(names, upto - 1);
      }
    }
  }

  /** A snapshot that covers five records over a segment with none and a torn byte: refused,
      and the byte is gone. */
  lemma ShortLogIsCut(f: Format, fits: seq<Rec> -> bool)
    ensures var dir := map[1 := f.EncodeHeader(1) + [7]];
            var outcome := Recovery(f, 5, fits).Recover(dir, [1]);
            outcome.result.Refused? && outcome.dir == map[1 := f.EncodeHeader(1)] != dir
  {
    hide Format.ParseHeader, Format.EncodeHeader, Recovery.RecoverFrom;
    var data := f.EncodeHeader(1) + [7];
    var dir, r := map[1 := data], Recovery(f, 5, fits);
    f.HeaderRoundTrip(1, [7]);
    assert data[SEGMENT_HEADER..] == [7] && f.Parse([7]) == Truncated;
    assert r.RunFrom(data, SEGMENT_HEADER, 1) == Reach(SEGMENT_HEADER, 1);
    assert r.EndsShort(data, 1);
    r.RefusalKeepsFiles(dir, [1]);
    assert data[..SEGMENT_HEADER] == f.EncodeHeader(1) != data;
  }

  /** A snapshot that covers five records over a segment with none, and a newer one torn at
      its creation: the newer one is removed, and the second recovery refuses the older. */
  lemma OlderIsUncovered(f: Format, fits: seq<Rec> -> bool)
    ensures var r, dir := Recovery(f, 5, fits), map[1 := f.EncodeHeader(1), 3 := []];
            && r.Recover(dir, [1, 3]).result.Success? && r.Recover(dir, [1, 3]).dir == map[1 := f.EncodeHeader(1)]
            && r.Recover(map[1 := f.EncodeHeader(1)], [1]).result.Refused?
  {
    hide Format.EncodeHeader;
    var header := f.EncodeHeader(1);
    var r, dir := Recovery(f, 5, fits), map[1 := header, 3 := []];
    assert FirstNeeded([1, 3], 5, 2) == 1 && [1, 3][1..] == [3];
    assert dir - {3} == map[1 := header];
    assert [3][1..] == [] && [1][0..] == [1] && [1][1..] == [];
    f.HeaderRoundTrip(1, []);
    assert header + [] == header && header[SEGMENT_HEADER..] == [];
    assert r.ScanFrom(header, SEGMENT_HEADER, 1, []) == Scan(SEGMENT_HEADER, 1, [], Clean);
  }
}
