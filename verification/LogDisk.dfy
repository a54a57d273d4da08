/**
 What the segment files mean: the log they hold when intact, and the log they still
 hold after a crash tore the end of the newest one. Recovery is shown to deliver
 exactly what a torn log still holds and to leave an intact log behind.
 */
module LogDisk {
  import opened LogFormat
  import opened LogRecovery

  /** Consecutive LSNs, and payloads the format admits. */
  ghost predicate Numbered(rs: seq<Rec>, first: nat) {
    forall i | 0 <= i < |rs| :: rs[i].lsn == first + i && |rs[i].payload| <= MAX_PAYLOAD
  }

  predicate HasHeader(f: Format, data: Bytes, first: nat) {
    var header := f.ParseHeader(data);
    header.First? && header.lsn == first
  }

  /** An intact segment: a header naming its first LSN, then these records. */
  ghost predicate Holds(f: Format, data: Bytes, first: nat, recs: seq<Rec>) {
    && HasHeader(f, data, first)
    && data[SEGMENT_HEADER..] == f.EncodeAll(recs)
  }

  /** An intact log: consecutive segments that together hold these records. */
  ghost predicate Log(f: Format, dir: Directory, names: seq<nat>, recs: seq<Rec>) {
    if names == [] then recs == []
    else
      && names[0] in dir
      && if |names| == 1 then Holds(f, dir[names[0]], names[0], recs)
         else
           && names[0] < names[1] <= names[0] + |recs|
           && var k := names[1] - names[0];
           && Holds(f, dir[names[0]], names[0], recs[..k])
           && Log(f, dir, names[1..], recs[k..])
  }

  /** Bytes that start with whole records of `recs`, at least `safe` of them, and then
      with something that does not parse. */
  ghost predicate TornRecords(f: Format, bytes: Bytes, recs: seq<Rec>, safe: nat)
    decreases |bytes|
  {
    match f.Parse(bytes)
    case Ok(rec, size) =>
      recs != [] && rec == recs[0] && TornRecords(f, bytes[size..], recs[1..], if safe == 0 then 0 else safe - 1)
    case _ => safe == 0
  }

  /** The newest segment after a crash. A header that was not made durable means that
      nothing in this segment was promised to anyone. */
  ghost predicate TornSegment(f: Format, data: Bytes, first: nat, recs: seq<Rec>, safe: nat) {
    if HasHeader(f, data, first) then TornRecords(f, data[SEGMENT_HEADER..], recs, safe)
    else safe == 0
  }

  function Minus(a: nat, b: nat): nat {
    if a < b then 0 else a - b
  }

  /** A log after a crash: only the newest segment may be torn, and at least `safe` of
      the records survive. */
  ghost predicate TornLog(f: Format, dir: Directory, names: seq<nat>, recs: seq<Rec>, safe: nat) {
    if names == [] then safe == 0
    else
      && names[0] in dir
      && if |names| == 1 then TornSegment(f, dir[names[0]], names[0], recs, safe)
         else
           && names[0] < names[1] <= names[0] + |recs|
           && var k := names[1] - names[0];
           && Holds(f, dir[names[0]], names[0], recs[..k])
           && TornLog(f, dir, names[1..], recs[k..], Minus(safe, k))
  }

  // --- scanning ---------------------------------------------------------------------

  /** Recovery from the start of the log, delivering everything. */
  function Plain(f: Format): Recovery {
    Recovery(f, 0, _ => true)
  }

  /** Scanning torn records delivers a prefix of them and stops at its end. */
  lemma {:induction false} ScanTorn(f: Format, data: Bytes, offset: nat, expected: nat, delivered: seq<Rec>,
                                    recs: seq<Rec>, safe: nat)
    returns (m: nat)
    requires offset <= |data| && expected >= 1
    requires TornRecords(f, data[offset..], recs, safe) && Numbered(recs, expected)
    ensures safe <= m <= |recs|
    ensures var scan := Plain(f).ScanFrom(data, offset, expected, delivered);
            && scan.stop in {Clean, Damaged}
            && scan.expected == expected + m && scan.delivered == delivered + recs[..m]
            && data[offset..scan.offset] == f.EncodeAll(recs[..m])
    decreases |data| - offset
  {
    hide Format.Parse, Format.Encode;
    var parsed := f.Parse(data[offset..]);
    if parsed.Ok? {
      var next := offset + parsed.size;
      assert data[offset..][parsed.size..] == data[next..];
      var m' := ScanTorn(f, data, next, expected + 1, delivered + [recs[0]], recs[1..], if safe == 0 then 0
                         else safe - 1);
      m := m' + 1;
      assert Plain(f).ScanFrom(data, offset, expected, delivered) ==
             Plain(f).ScanFrom(data, next, expected + 1, delivered + [recs[0]]);
      OneMore(f, data, offset, next, Plain(f).ScanFrom(data, offset, expected, delivered).offset, recs, m', delivered);
    } else {
      m := 0;
      assert delivered + recs[..0] == delivered;
    }
  }

  lemma OneMore(f: Format, data: Bytes, offset: nat, next: nat, end: nat, recs: seq<Rec>, m: nat, delivered: seq<Rec>)
    requires offset <= next <= end <= |data| && m < |recs| && f.Parse(data[offset..]) == Ok(recs[0], next - offset)
    requires data[next..end] == f.EncodeAll(recs[1..][..m])
    ensures data[offset..end] == f.EncodeAll(recs[..m + 1])
    ensures delivered + [recs[0]] + recs[1..][..m] == delivered + recs[..m + 1]
  {
    hide Format.Parse, Format.Encode;
    f.ParseIsEncode(data[offset..], recs[0]);
    assert data[offset..next] == data[offset..][..next - offset] == f.Encode(recs[0]);
    assert data[offset..end] == data[offset..next] + data[next..end];
    assert recs[..m + 1] == [recs[0]] + recs[1..][..m];
  }

  /** Whole records are torn records of which all are safe. */
  lemma {:induction false} EncodedIsTorn(f: Format, recs: seq<Rec>, first: nat)
    requires Numbered(recs, first)
    ensures TornRecords(f, f.EncodeAll(recs), recs, |recs|)
    decreases |recs|
  {
    hide Format.Parse, Format.Encode;
    if recs != [] {
      var bytes := f.EncodeAll(recs);
      f.ParseIsEncode(bytes, recs[0]);
      EncodedIsTorn(f, recs[1..], first + 1);
      assert bytes[|f.Encode(recs[0])|..] == f.EncodeAll(recs[1..]);
    }
  }

  /** Scanning an intact segment delivers all of it. */
  lemma ScanHolds(f: Format, data: Bytes, first: nat, delivered: seq<Rec>, recs: seq<Rec>)
    requires Holds(f, data, first, recs) && Numbered(recs, first)
    ensures Plain(f).ScanFrom(data, SEGMENT_HEADER, first, delivered) ==
            Scan(|data|, first + |recs|, delivered + recs, Clean)
  {
    hide Format.Parse, Format.ParseHeader;
    EncodedIsTorn(f, recs, first);
    var m := ScanTorn(f, data, SEGMENT_HEADER, first, delivered, recs, |recs|);
    var scan := Plain(f).ScanFrom(data, SEGMENT_HEADER, first, delivered);
    assert recs[..m] == recs;
    assert data[SEGMENT_HEADER..scan.offset] == data[SEGMENT_HEADER..];
    assert |data[SEGMENT_HEADER..scan.offset]| == |data[SEGMENT_HEADER..]|;
    Plain(f).StopMeans(data, SEGMENT_HEADER, first, delivered);
  }

  // --- recovery of a torn log ---------------------------------------------------------

  /** What recovery of a torn log promises when it succeeds: a prefix that includes
      everything safe was delivered, and what is left is an intact log of it. */
  ghost predicate Recovers(f: Format, dir: Directory, names: seq<nat>, recs: seq<Rec>, safe: nat, delivered: seq<Rec>,
                           out: Outcome, m: nat) {
    out.result.Success? ==>
      var log := out.result.log;
      && safe <= m <= |recs|
      && out.delivered == delivered + recs[..m]
      && (names != [] ==> log.last + 1 == names[0] + m)
      && (names == [] ==> !log.removed && m == 0)
      && out.dir.Keys == (if log.removed then dir.Keys - {names[|names| - 1]} else dir.Keys)
      && (forall n | n in out.dir && (names == [] || n != names[|names| - 1]) :: out.dir[n] == dir[n])
      && Log(f, out.dir, if log.removed then names[..|names| - 1] else names, recs[..m])
  }

  lemma RecoverTornLast(f: Format, dir: Directory, name: nat, recs: seq<Rec>, safe: nat, expected: nat,
                        delivered: seq<Rec>, segments: seq<SegmentInfo>)
    returns (m: nat)
    requires name in dir && name >= 1 && Numbered(recs, name) && TornSegment(f, dir[name], name, recs, safe)
    requires expected == name || (expected == 0 && name == 1)
    ensures Recovers(f, dir, [name], recs, safe, delivered,
                     Plain(f).RecoverFrom(dir, [name], expected, delivered, segments), m)
  {
    hide Format.Parse, Format.ParseHeader, Format.Encode, Recovery.RecordFollows, Recovery.ScanFrom;
    var r, data := Plain(f), dir[name];
    var step := r.RecoverOne(dir, name, true, expected, delivered, segments);
    var out := r.RecoverFrom(dir, [name], expected, delivered, segments);
    if HasHeader(f, data, name) {
      m := ScanTorn(f, data, SEGMENT_HEADER, name, delivered, recs, safe);
      var scan := r.ScanFrom(data, SEGMENT_HEADER, name, delivered);
      r.StopMeans(data, SEGMENT_HEADER, name, delivered);
      if out.result.Success? {
        assert out.dir[name] == data[..scan.offset];
        f.HeaderIsLocal(data, data[..scan.offset]);
        assert data[..scan.offset][SEGMENT_HEADER..] == data[SEGMENT_HEADER..scan.offset];
        if scan.stop == Clean { assert [name][1..] == []; }
      }
    } else {
      m := 0;
      assert delivered + recs[..0] == delivered;
    }
  }

  /** An intact segment in its place is read to the end. */
  lemma PassHolds(f: Format, dir: Directory, name: nat, expected: nat, delivered: seq<Rec>, recs: seq<Rec>,
                  segments: seq<SegmentInfo>)
    requires name in dir && Holds(f, dir[name], name, recs) && Numbered(recs, name)
    requires expected == name || (expected == 0 && name == 1)
    ensures forall isLast :: Plain(f).RecoverOne(dir, name, isLast, expected, delivered, segments)
                             == Go(name + |recs|, delivered + recs,
                                   segments + [SegmentInfo(name, name + |recs| - 1, |dir[name]|)])
  {
    hide Format.ParseHeader, Recovery.RecordFollows, Recovery.ScanFrom;
    ScanHolds(f, dir[name], name, delivered, recs);
  }

  lemma {:induction false} RecoverTornFrom(f: Format, dir: Directory, names: seq<nat>, recs: seq<Rec>, safe: nat,
                                           expected: nat, delivered: seq<Rec>, segments: seq<SegmentInfo>)
    returns (m: nat)
    requires names != [] && names[0] >= 1 && (forall i, j | 0 <= i < j < |names| :: names[i] < names[j])
    requires (forall n | n in names :: n in dir) && Numbered(recs, names[0]) && TornLog(f, dir, names, recs, safe)
    requires expected == names[0] || (expected == 0 && names[0] == 1)
    ensures Recovers(f, dir, names, recs, safe, delivered,
                     Plain(f).RecoverFrom(dir, names, expected, delivered, segments), m)
    decreases |names|
  {
    hide Recovery.RecoverOne, Recovers, Holds, TornSegment;
    var r, name, data := Plain(f), names[0], dir[names[0]];
    if |names| == 1 {
      assert names == [name];
      m := RecoverTornLast(f, dir, name, recs, safe, expected, delivered, segments);
    } else {
      var k := names[1] - names[0];
      PassHolds(f, dir, name, expected, delivered, recs[..k], segments);
      var segments' := segments + [SegmentInfo(name, name + k - 1, |data|)];
      var m' := RecoverTornFrom(f, dir, names[1..], recs[k..], Minus(safe, k), name + k, delivered + recs[..k],
                                segments');
      m := m' + k;
      JoinRecovered(f, dir, names, recs, safe, delivered, r.RecoverFrom(dir, names, expected, delivered, segments), m');
    }
  }

  lemma JoinRecovered(f: Format, dir: Directory, names: seq<nat>, recs: seq<Rec>, safe: nat, delivered: seq<Rec>,
                      out: Outcome, m: nat)
    requires |names| > 1 && (forall i, j | 0 <= i < j < |names| :: names[i] < names[j]) &&
             (forall n | n in names :: n in dir)
    requires names[1] <= names[0] + |recs| && Holds(f, dir[names[0]], names[0], recs[..names[1] - names[0]])
    requires var k := names[1] - names[0];
             Recovers(f, dir, names[1..], recs[k..], Minus(safe, k), delivered + recs[..k], out, m)
    ensures Recovers(f, dir, names, recs, safe, delivered, out, m + names[1] - names[0])
  {
    hide Log, Holds;
    if out.result.Success? {
      var k := names[1] - names[0];
      var total := recs[..m + k];
      assert total[..k] == recs[..k] && total[k..] == recs[k..][..m];
      assert delivered + recs[..k] + recs[k..][..m] == delivered + total;
      DropLast(names);
      assert names[0] in names;
      LogCons(f, out.dir, names[0], if out.result.log.removed then names[1..][..|names| - 2] else names[1..], total, k);
    }
  }

  lemma DropLast(names: seq<nat>)
    requires |names| > 1
    ensures names == [names[0]] + names[1..] && names[..|names| - 1] == [names[0]] + names[1..][..|names| - 2]
  {
  }

  /** Recovery of a torn log: if it succeeds, exactly a prefix that includes everything
      safe was delivered, and an intact log of that prefix is left. */
  lemma RecoverTorn(f: Format, dir: Directory, names: seq<nat>, recs: seq<Rec>, safe: nat) returns (m: nat)
    requires IsListing(names, dir.Keys) && (names != [] ==> names[0] == 1)
    requires Numbered(recs, 1) && TornLog(f, dir, names, recs, safe)
    ensures Recovers(f, dir, names, recs, safe, [], Plain(f).Recover(dir, names), m)
    ensures Plain(f).Recover(dir, names).result.Success? ==> Plain(f).Recover(dir, names).result.log.last == m
  {
    hide Recovery.RecoverFrom, TornSegment, Holds;
    forall n | n in names ensures n >= 1 { var i :| 0 <= i < |names| && names[i] == n; }
    Plain(f).StartsAtFirst(names);
    assert names[0..] == names;
    if names == [] {
      m := 0;
      EmptyLog(f, dir, recs);
    } else {
      m := RecoverTornFrom(f, dir, names, recs, safe, 0, [], []);
    }
  }

  lemma EmptyLog(f: Format, dir: Directory, recs: seq<Rec>)
    ensures Plain(f).RecoverFrom(dir, [], 0, [], []) == Outcome(Success(Recovered(0, [], 0, 0, false)), [], dir)
    ensures [] + recs[..0] == []
  {
  }

  // --- when recovery succeeds ------------------------------------------------------------

  /** The newest segment does not look damaged in the middle: either it is sound, or no
      plausible record lies in the bytes that are about to be dropped. */
  ghost predicate NothingValidTorn(f: Format, data: Bytes, name: nat) {
    var r := Plain(f);
    match f.ParseHeader(data)
    case First(first) =>
      && first == name
      && var scan := r.ScanFrom(data, SEGMENT_HEADER, name, []);
         scan.stop == Damaged ==> !r.RecordFollows(data, scan.offset + 1, scan.expected)
    case Corrupt => !r.RecordFollows(data, 0, name)
    case Unsupported => false
  }

  /** A scan goes the same way whatever was delivered before. */
  lemma {:induction false} ScanIsUniform(f: Format, data: Bytes, offset: nat, expected: nat, a: seq<Rec>, b: seq<Rec>)
    requires offset <= |data| && expected >= 1
    ensures var s, t := Plain(f).ScanFrom(data, offset, expected, a), Plain(f).ScanFrom(data, offset, expected, b);
            s.offset == t.offset && s.expected == t.expected && s.stop == t.stop
    decreases |data| - offset
  {
    hide Format.Parse;
    var parsed := f.Parse(data[offset..]);
    if parsed.Ok? && parsed.rec.lsn == expected {
      ScanIsUniform(f, data, offset + parsed.size, expected + 1, a + [parsed.rec], b + [parsed.rec]);
    }
  }

  lemma {:induction false} TornSucceedsFrom(f: Format, dir: Directory, names: seq<nat>, recs: seq<Rec>, safe: nat,
                                            expected: nat, delivered: seq<Rec>, segments: seq<SegmentInfo>)
    requires names != [] && names[0] >= 1 && (forall i, j | 0 <= i < j < |names| :: names[i] < names[j])
    requires (forall n | n in names :: n in dir) && Numbered(recs, names[0]) && TornLog(f, dir, names, recs, safe)
    requires expected == names[0] || (expected == 0 && names[0] == 1)
    ensures Plain(f).RecoverFrom(dir, names, expected, delivered, segments).result.Success?
            <==> NothingValidTorn(f, dir[names[|names| - 1]], names[|names| - 1])
    decreases |names|
  {
    hide Recovery.RecoverOne, NothingValidTorn, Holds, TornSegment;
    var name, data := names[0], dir[names[0]];
    if |names| == 1 {
      assert names == [name];
      TornSucceedsLast(f, dir, name, recs, safe, expected, delivered, segments);
    } else {
      var k := names[1] - names[0];
      PassHolds(f, dir, name, expected, delivered, recs[..k], segments);
      TornSucceedsFrom(f, dir, names[1..], recs[k..], Minus(safe, k), name + k, delivered + recs[..k],
                       segments + [SegmentInfo(name, name + k - 1, |data|)]);
    }
  }

  lemma TornSucceedsLast(f: Format, dir: Directory, name: nat, recs: seq<Rec>, safe: nat, expected: nat,
                         delivered: seq<Rec>, segments: seq<SegmentInfo>)
    requires name in dir && name >= 1 && Numbered(recs, name) && TornSegment(f, dir[name], name, recs, safe)
    requires expected == name || (expected == 0 && name == 1)
    ensures Plain(f).RecoverFrom(dir, [name], expected, delivered, segments).result.Success? <==>
            NothingValidTorn(f, dir[name], name)
  {
    hide Format.Parse, Format.ParseHeader, Recovery.RecordFollows, Recovery.ScanFrom;
    var r, data := Plain(f), dir[name];
    var step := r.RecoverOne(dir, name, true, expected, delivered, segments);
    if HasHeader(f, data, name) {
      var m := ScanTorn(f, data, SEGMENT_HEADER, name, delivered, recs, safe);
      ScanIsUniform(f, data, SEGMENT_HEADER, name, delivered, []);
      assert [name][1..] == [];
    }
  }

  /** Recovery of a torn log succeeds exactly when the torn bytes of its newest segment
      hold no plausible record; the older segments can never make it fail. */
  lemma TornSucceeds(f: Format, dir: Directory, names: seq<nat>, recs: seq<Rec>, safe: nat)
    requires IsListing(names, dir.Keys) && (names != [] ==> names[0] == 1)
    requires Numbered(recs, 1) && TornLog(f, dir, names, recs, safe)
    ensures Plain(f).Recover(dir, names).result.Success?
            <==> names == [] || NothingValidTorn(f, dir[names[|names| - 1]], names[|names| - 1])
  {
    hide Recovery.RecoverFrom, NothingValidTorn, TornLog;
    forall n | n in names ensures n >= 1 { var i :| 0 <= i < |names| && names[i] == n; }
    Plain(f).StartsAtFirst(names);
    assert names[0..] == names;
    if names == [] {
      EmptyLog(f, dir, recs);
    } else {
      TornSucceedsFrom(f, dir, names, recs, safe, 0, [], []);
    }
  }

  // --- from a crash to a torn log ---------------------------------------------------------

  /** Nothing parses out of the bytes except what was written there. This is what the
      checksum is for; it needs to be assumed only where a crash left garbage. */
  ghost predicate Honest(f: Format, bytes: Bytes, written: Bytes) {
    && |bytes| <= |written|
    && forall o | 0 <= o <= |bytes| :: f.Parse(bytes[o..]).Ok? ==>
         bytes[o..o + f.Parse(bytes[o..]).size] == written[o..o + f.Parse(bytes[o..]).size]
  }

  /** Bytes that are a part of what was written are honest without any assumption. */
  lemma PrefixIsHonest(f: Format, bytes: Bytes, written: Bytes)
    requires bytes <= written
    ensures Honest(f, bytes, written)
  {
    hide Format.Parse;
  }

  /** The first record of an encoded sequence. */
  lemma FirstOfAll(f: Format, recs: seq<Rec>, n: nat)
    requires 0 < n <= |recs| && |recs[0].payload| <= MAX_PAYLOAD
    ensures f.EncodeAll(recs[..n]) == f.Encode(recs[0]) + f.EncodeAll(recs[1..][..n - 1])
    ensures f.Parse(f.EncodeAll(recs[..n])) == Ok(recs[0], |f.Encode(recs[0])|)
  {
    hide Format.Parse, Format.Encode;
    assert recs[..n][1..] == recs[1..][..n - 1];
    f.ParseIsEncode(f.EncodeAll(recs[..n]), recs[0]);
  }

  /** Two byte strings that agree on a record parse to the same record. */
  lemma SameParse(f: Format, a: Bytes, b: Bytes)
    requires f.Parse(a).Ok? && f.Parse(a).size <= |b| && a[..f.Parse(a).size] == b[..f.Parse(a).size]
    ensures f.Parse(b) == f.Parse(a)
  {
    hide Format.Parse, Format.Encode;
    var r := f.Parse(a).rec;
    f.ParseIsEncode(a, r);
    f.ParseIsEncode(b, r);
  }

  /** A torn file of whole records still holds every record that was synced: `done`
      bytes have been accounted for, `recs[..w]` were written after them, and of these
      the first `safe` are intact. */
  lemma {:induction false} TornTail(f: Format, bytes: Bytes, written: Bytes, recs: seq<Rec>, done: nat, w: nat,
                                    safe: nat, first: nat)
    requires Numbered(recs, first) && safe <= w <= |recs|
    requires done <= |bytes| && Honest(f, bytes, written) && written[done..] == f.EncodeAll(recs[..w])
    requires f.EncodeAll(recs[..safe]) <= bytes[done..]
    ensures TornRecords(f, bytes[done..], recs, safe)
    decreases |recs|
  {
    hide Format.Parse, Format.Encode;
    var here := bytes[done..];
    if safe > 0 {
      FirstOfAll(f, recs, safe);
      SameParse(f, f.EncodeAll(recs[..safe]), here);
    }
    var parsed := f.Parse(here);
    if parsed.Ok? {
      var next := done + parsed.size;
      HonestFirst(f, bytes, written, recs, done, w, first);
      var safe' := if safe == 0 then 0 else safe - 1;
      assert bytes[next..] == here[parsed.size..];
      SafeTail(f, recs, safe, here);
      TornTail(f, bytes, written, recs[1..], next, w - 1, safe', first + 1);
    }
  }

  /** A record that parses is the one that was written there. */
  lemma HonestFirst(f: Format, bytes: Bytes, written: Bytes, recs: seq<Rec>, done: nat, w: nat, first: nat)
    requires Numbered(recs, first) && w <= |recs|
    requires done <= |bytes| && Honest(f, bytes, written) && written[done..] == f.EncodeAll(recs[..w])
    requires f.Parse(bytes[done..]).Ok?
    ensures var parsed := f.Parse(bytes[done..]);
            && w > 0 && parsed.rec == recs[0] && parsed.size == |f.Encode(recs[0])|
            && done + parsed.size <= |written| && written[done + parsed.size..] == f.EncodeAll(recs[1..][..w - 1])
  {
    hide Format.Parse, Format.Encode;
    var here := bytes[done..];
    var size := f.Parse(here).size;
    var next := done + size;
    assert here[..size] == bytes[done..next] == written[done..next] == written[done..][..size];
    SameParse(f, here, written[done..]);
    FirstOfAll(f, recs, w);
    assert written[next..] == written[done..][size..];
  }

  lemma SafeTail(f: Format, recs: seq<Rec>, safe: nat, here: Bytes)
    requires safe <= |recs| && recs != [] && |recs[0].payload| <= MAX_PAYLOAD
    requires f.EncodeAll(recs[..safe]) <= here && |f.Encode(recs[0])| <= |here|
    ensures f.EncodeAll(recs[1..][..if safe == 0 then 0 else safe - 1]) <= here[|f.Encode(recs[0])|..]
  {
    hide Format.Parse, Format.Encode;
    if safe > 0 { FirstOfAll(f, recs, safe); }
  }

  /** Promising less is always possible. */
  lemma {:induction false} TornRecordsWeaken(f: Format, bytes: Bytes, recs: seq<Rec>, safe: nat, less: nat)
    requires TornRecords(f, bytes, recs, safe) && less <= safe
    ensures TornRecords(f, bytes, recs, less)
    decreases |bytes|
  {
    hide Format.Parse;
    var parsed := f.Parse(bytes);
    if parsed.Ok? {
      TornRecordsWeaken(f, bytes[parsed.size..], recs[1..], if safe == 0 then 0 else safe - 1, if less == 0 then 0
                        else less - 1);
    }
  }

  /** An intact log is a torn log that lost nothing. */
  lemma {:induction false} LogIsTorn(f: Format, dir: Directory, names: seq<nat>, recs: seq<Rec>, safe: nat)
    requires Log(f, dir, names, recs) && safe <= |recs| && (names != [] ==> Numbered(recs, names[0]))
    ensures TornLog(f, dir, names, recs, safe)
    decreases |names|
  {
    hide Format.ParseHeader, Format.EncodeAll, TornRecords;
    if |names| == 1 {
      EncodedIsTorn(f, recs, names[0]);
      TornRecordsWeaken(f, f.EncodeAll(recs), recs, |recs|, safe);
    } else if |names| > 1 {
      var k := names[1] - names[0];
      LogIsTorn(f, dir, names[1..], recs[k..], Minus(safe, k));
    }
  }

  lemma LogTail(f: Format, dir: Directory, names: seq<nat>, written: nat, recs: seq<Rec>)
    requires |names| > 1 && written <= |recs| && Log(f, dir, names, recs[..written])
    ensures names[0] in dir && names[0] < names[1] <= names[0] + written
    ensures var k := names[1] - names[0];
            Holds(f, dir[names[0]], names[0], recs[..k]) && Log(f, dir, names[1..], recs[k..][..written - k])
  {
    hide Holds;
    var k := names[1] - names[0];
    assert recs[..written][..k] == recs[..k] && recs[..written][k..] == recs[k..][..written - k];
  }

  /** Older segments survive whole and the newest is torn: the log is torn. */
  lemma {:induction false} TearLast(f: Format, dir: Directory, image: Directory, names: seq<nat>, written: nat,
                                    recs: seq<Rec>, safe: nat)
    requires names != [] && (forall i, j | 0 <= i < j < |names| :: names[i] < names[j])
    requires written <= |recs| && Log(f, dir, names, recs[..written])
    requires forall n | n in names :: n in image
    requires forall i | 0 <= i < |names| - 1 :: names[i] in dir && image[names[i]] == dir[names[i]]
    requires var last := names[|names| - 1];
             last - names[0] <= |recs| && TornSegment(f, image[last], last, recs[last - names[0]..],
                                                      Minus(safe, last - names[0]))
    ensures TornLog(f, image, names, recs, safe)
    decreases |names|
  {
    hide Holds, TornSegment, Log;
    assert names[0] in names;
    if |names| == 1 {
      assert recs[0..] == recs;
    } else {
      LogTail(f, dir, names, written, recs);
      var k, last := names[1] - names[0], names[|names| - 1];
      var rest, rest' := names[1..], recs[k..];
      assert rest'[last - names[1]..] == recs[last - names[0]..];
      assert forall i | 0 <= i < |rest| - 1 :: rest[i] == names[i + 1];
      TearLast(f, dir, image, rest, written - k, rest', Minus(safe, k));
    }
  }

  /** A segment under construction that happened to survive adds nothing. */
  lemma {:induction false} AddStub(f: Format, dir: Directory, image: Directory, names: seq<nat>, written: nat,
                                   recs: seq<Rec>, safe: nat, first: nat)
    requires first in image && |image[first]| <= SEGMENT_HEADER && safe <= written <= |recs|
    requires Log(f, dir, names, recs[..written])
    requires names != [] ==> names[|names| - 1] < first == names[0] + written
    requires forall n | n in names :: n in dir && n in image && image[n] == dir[n]
    ensures TornLog(f, image, names + [first], recs, safe)
    decreases |names|
  {
    hide Holds, Format.ParseHeader;
    var all := names + [first];
    if names == [] {
      EmptyIsTorn(f, image[first], recs);
    } else {
      assert names[0] in names;
      if |names| == 1 {
        assert all[1..] == [first];
        assert recs[..written] == recs[..first - names[0]];
        EmptyIsTorn(f, image[first], recs[written..]);
      } else {
        var k := names[1] - names[0];
        assert all[1..] == names[1..] + [first];
        assert recs[..written][..k] == recs[..k] && recs[..written][k..] == recs[k..][..written - k];
        AddStub(f, dir, image, names[1..], written - k, recs[k..], Minus(safe, k), first);
      }
    }
  }

  lemma EmptyIsTorn(f: Format, data: Bytes, recs: seq<Rec>)
    requires |data| <= SEGMENT_HEADER
    ensures forall first :: TornSegment(f, data, first, recs, 0)
  {
    hide Format.Parse, Format.ParseHeader;
    if |data| == SEGMENT_HEADER { assert data[SEGMENT_HEADER..] == []; }
  }

  // --- recovery of an intact log after a snapshot ----------------------------------------

  /** Recovery of what a snapshot at LSN `after` does not cover, delivering everything. */
  function After(f: Format, after: nat): Recovery {
    Recovery(f, after, _ => true)
  }

  /** The records a snapshot at LSN `after` does not cover. */
  function Uncovered(recs: seq<Rec>, first: nat, after: nat): seq<Rec> {
    if after + 1 <= first then recs
    else if after + 1 - first <= |recs| then recs[after + 1 - first..]
    else []
  }

  lemma {:induction false} ScanAll(f: Format, after: nat, data: Bytes, offset: nat, expected: nat, delivered: seq<Rec>,
                                   recs: seq<Rec>)
    requires offset <= |data| && data[offset..] == f.EncodeAll(recs) && Numbered(recs, expected)
    ensures After(f, after).ScanFrom(data, offset, expected, delivered)
            == Scan(|data|, expected + |recs|, delivered + Uncovered(recs, expected, after), Clean)
    decreases |recs|
  {
    hide Format.Parse, Format.Encode;
    if recs == [] {
      assert delivered + Uncovered(recs, expected, after) == delivered;
    } else {
      assert recs[..|recs|] == recs;
      FirstOfAll(f, recs, |recs|);
      var next := offset + |f.Encode(recs[0])|;
      assert recs[1..][..|recs| - 1] == recs[1..];
      assert data[next..] == data[offset..][|f.Encode(recs[0])|..];
      var delivered' := if recs[0].lsn <= after then delivered else delivered + [recs[0]];
      ScanAll(f, after, data, next, expected + 1, delivered', recs[1..]);
      assert delivered' + Uncovered(recs[1..], expected + 1, after) == delivered + Uncovered(recs, expected, after);
    }
  }

  /** An intact log is read to its end and left as it is, and exactly the records after
      the snapshot are delivered. */
  lemma {:induction false} RecoverIntact(f: Format, after: nat, dir: Directory, names: seq<nat>, recs: seq<Rec>,
                                         expected: nat, delivered: seq<Rec>, segments: seq<SegmentInfo>)
    requires names != [] && names[0] >= 1 && (forall n | n in names :: n in dir)
    requires Log(f, dir, names, recs) && Numbered(recs, names[0])
    requires expected == names[0] || (expected == 0 && names[0] <= after + 1)
    requires after + 1 <= names[0] + |recs|
    ensures var out := After(f, after).RecoverFrom(dir, names, expected, delivered, segments);
            && out.result.Success? && out.result.log.last + 1 == names[0] + |recs|
            && out.delivered == delivered + Uncovered(recs, names[0], after)
            && out.dir == dir
    decreases |names|
  {
    hide Recovery.RecoverOne, Holds, Uncovered;
    var name := names[0];
    if |names| == 1 {
      PassIntact(f, after, dir, name, expected, delivered, recs, segments);
      assert names[1..] == [];
    } else {
      var k := names[1] - name;
      PassIntact(f, after, dir, name, expected, delivered, recs[..k], segments);
      UncoveredSplit(recs, name, after, k, delivered);
      RecoverIntact(f, after, dir, names[1..], recs[k..], name + k, delivered + Uncovered(recs[..k], name, after),
                    segments + [SegmentInfo(name, name + k - 1, |dir[name]|)]);
    }
  }

  lemma PassIntact(f: Format, after: nat, dir: Directory, name: nat, expected: nat, delivered: seq<Rec>, recs: seq<Rec>,
                   segments: seq<SegmentInfo>)
    requires name in dir && name >= 1 && Holds(f, dir[name], name, recs) && Numbered(recs, name)
    requires expected == name || (expected == 0 && name <= after + 1)
    ensures forall isLast :: After(f, after).RecoverOne(dir, name, isLast, expected, delivered, segments)
              == Go(name + |recs|, delivered + Uncovered(recs, name, after),
                    segments + [SegmentInfo(name, name + |recs| - 1, |dir[name]|)])
  {
    hide Format.ParseHeader, Recovery.ScanFrom, Recovery.RecordFollows;
    ScanAll(f, after, dir[name], SEGMENT_HEADER, name, delivered, recs);
  }

  lemma UncoveredSplit(recs: seq<Rec>, first: nat, after: nat, k: nat, delivered: seq<Rec>)
    requires k <= |recs|
    ensures delivered + Uncovered(recs, first, after)
            == (delivered + Uncovered(recs[..k], first, after)) + Uncovered(recs[k..], first + k, after)
  {
    assert recs == recs[..k] + recs[k..];
  }

  /** Any end of an intact log is an intact log. */
  lemma {:induction false} LogSuffix(f: Format, dir: Directory, names: seq<nat>, recs: seq<Rec>, i: nat)
    requires Log(f, dir, names, recs) && i < |names|
    ensures names[0] <= names[i] <= names[0] + |recs| && Log(f, dir, names[i..], recs[names[i] - names[0]..])
    decreases i
  {
    hide Holds;
    if i == 0 {
      assert names[0..] == names && recs[0..] == recs;
    } else {
      var k := names[1] - names[0];
      LogSuffix(f, dir, names[1..], recs[k..], i - 1);
      assert names[1..][i - 1..] == names[i..];
      assert recs[k..][names[i] - names[1]..] == recs[names[i] - names[0]..];
    }
  }

  // --- the log as steps change it ---------------------------------------------------------

  /** The newest segment of an intact log holds the newest records. */
  lemma {:induction false} LastHolds(f: Format, dir: Directory, names: seq<nat>, recs: seq<Rec>)
    requires Log(f, dir, names, recs) && names != []
    ensures var last := names[|names| - 1];
            names[0] <= last <= names[0] + |recs| && last in dir && Holds(f, dir[last], last, recs[last - names[0]..])
    decreases |names|
  {
    hide Holds;
    if |names| > 1 {
      var k := names[1] - names[0];
      LastHolds(f, dir, names[1..], recs[k..]);
      assert recs[k..][names[|names| - 1] - names[1]..] == recs[names[|names| - 1] - names[0]..];
    }
  }

  lemma HoldsGrows(f: Format, data: Bytes, first: nat, recs: seq<Rec>, more: seq<Rec>)
    requires Holds(f, data, first, recs)
    ensures Holds(f, data + f.EncodeAll(more), first, recs + more)
  {
    hide Format.ParseHeader, Format.Encode, Format.EncodeAll;
    var data' := data + f.EncodeAll(more);
    assert data'[..SEGMENT_HEADER] == data[..SEGMENT_HEADER];
    f.HeaderIsLocal(data, data');
    f.EncodeAllAppend(recs, more);
    assert data'[SEGMENT_HEADER..] == data[SEGMENT_HEADER..] + f.EncodeAll(more);
  }

  /** Appending encoded records to the newest segment appends them to the log. */
  lemma {:induction false} LogGrows(f: Format, dir: Directory, names: seq<nat>, recs: seq<Rec>, more: seq<Rec>)
    requires Log(f, dir, names, recs) && names != [] && (forall i, j | 0 <= i < j < |names| :: names[i] < names[j])
    ensures var last := names[|names| - 1];
            last in dir && Log(f, dir[last := dir[last] + f.EncodeAll(more)], names, recs + more)
    decreases |names|
  {
    hide Holds;
    var last := names[|names| - 1];
    LastHolds(f, dir, names, recs);
    if |names| == 1 {
      HoldsGrows(f, dir[last], last, recs, more);
    } else {
      var k := names[1] - names[0];
      LogGrows(f, dir, names[1..], recs[k..], more);
      assert (recs + more)[..k] == recs[..k] && (recs + more)[k..] == recs[k..] + more;
    }
  }

  /** A new segment that starts where the log ends extends it without adding records. */
  lemma {:induction false} LogRolls(f: Format, dir: Directory, names: seq<nat>, recs: seq<Rec>, first: nat,
                                    header: Bytes)
    requires Log(f, dir, names, recs) && first !in names && Holds(f, header, first, [])
    requires names != [] ==> names[|names| - 1] < first == names[0] + |recs|
    ensures Log(f, dir[first := header], names + [first], recs)
    decreases |names|
  {
    hide Holds;
    var dir', names' := dir[first := header], names + [first];
    if names != [] {
      assert names[0] in names;
      if |names| == 1 {
        assert names'[1..] == [first];
        assert recs[..|recs|] == recs && recs[|recs|..] == [];
      } else {
        LogRolls(f, dir, names[1..], recs[names[1] - names[0]..], first, header);
        assert names'[1..] == names[1..] + [first];
      }
    }
  }

  /** An intact log is a matter of its own segments only. */
  lemma {:induction false} LogFrame(f: Format, dir: Directory, dir': Directory, names: seq<nat>, recs: seq<Rec>)
    requires Log(f, dir, names, recs) && forall n | n in names && n in dir :: n in dir' && dir'[n] == dir[n]
    ensures Log(f, dir', names, recs)
    decreases |names|
  {
    hide Holds;
    if names != [] {
      assert names[0] in names;
      if |names| > 1 { LogFrame(f, dir, dir', names[1..], recs[names[1] - names[0]..]); }
    }
  }

  // --- recovery of a torn log after a snapshot -----------------------------------------------

  /** A scan that skips what a snapshot covers goes the same way. */
  lemma {:induction false} SkimScan(f: Format, after: nat, data: Bytes, offset: nat, expected: nat, a: seq<Rec>,
                                    b: seq<Rec>)
    requires offset <= |data| && expected >= 1
    ensures var p := Plain(f).ScanFrom(data, offset, expected, a);
            var q := After(f, after).ScanFrom(data, offset, expected, b);
            && q.offset == p.offset && q.expected == p.expected && q.stop == p.stop
            && a <= p.delivered && |p.delivered| == |a| + p.expected - expected
            && q.delivered == b + Uncovered(p.delivered[|a|..], expected, after)
    decreases |data| - offset
  {
    hide Format.Parse, Uncovered;
    var parsed := f.Parse(data[offset..]);
    if parsed.Ok? && parsed.rec.lsn == expected {
      var b' := if expected <= after then b else b + [parsed.rec];
      SkimScan(f, after, data, offset + parsed.size, expected + 1, a + [parsed.rec], b');
      SkimNext(a, parsed.rec, Plain(f).ScanFrom(data, offset, expected, a).delivered, expected, after, b);
    } else {
      NothingUncovered(expected, after, b);
      assert a[|a|..] == [];
    }
  }

  lemma SkimNext(a: seq<Rec>, rec: Rec, all: seq<Rec>, first: nat, after: nat, b: seq<Rec>)
    requires a + [rec] <= all
    ensures a <= all
    ensures (if first <= after then b else b + [rec]) + Uncovered(all[|a + [rec]|..], first + 1, after) ==
            b + Uncovered(all[|a|..], first, after)
  {
    assert all[|a|..] == [rec] + all[|a| + 1..];
  }

  /** The same ending of a recovery, but for what was delivered. */
  ghost predicate SameEnd(after: nat, p: Outcome, q: Outcome, expected: nat, a: seq<Rec>, b: seq<Rec>) {
    && (q.result.Success? <==> p.result.Success? && p.result.log.last >= after)
    && (q.result.Success? ==>
          && q.dir == p.dir && q.result.log.last == p.result.log.last && q.result.log.removed == p.result.log.removed
          && a <= p.delivered && q.delivered == b + Uncovered(p.delivered[|a|..], expected, after))
  }

  /** One segment, with and without a snapshot. */
  lemma SkimOne(f: Format, after: nat, dir: Directory, name: nat, isLast: bool, expected: nat, a: seq<Rec>,
                b: seq<Rec>, segments: seq<SegmentInfo>)
    requires name in dir && expected >= 1
    ensures var p := Plain(f).RecoverOne(dir, name, isLast, expected, a, segments);
            var q := After(f, after).RecoverOne(dir, name, isLast, expected, b, segments);
            && (p.Go? <==> q.Go?)
            && (p.Go? ==>
                  && q.expected == p.expected >= expected && q.segments == p.segments
                  && a <= p.delivered && |p.delivered| == |a| + p.expected - expected
                  && q.delivered == b + Uncovered(p.delivered[|a|..], expected, after))
            && (p.End? ==> SameEnd(after, p.outcome, q.outcome, expected, a, b))
  {
    hide Format.ParseHeader, Recovery.ScanFrom, Recovery.RecordFollows, Uncovered;
    if name == expected && f.ParseHeader(dir[name]).First? {
      SkimScan(f, after, dir[name], SEGMENT_HEADER, name, a, b);
      var scan := Plain(f).ScanFrom(dir[name], SEGMENT_HEADER, name, a);
      SameFollows(f, after, dir[name], scan.offset + 1, scan.expected);
    }
    SameFollows(f, after, dir[name], 0, name);
    NothingUncovered(expected, after, b);
    assert a[|a|..] == [];
  }

  lemma SameFollows(f: Format, after: nat, data: Bytes, from: nat, minLsn: nat)
    ensures Plain(f).RecordFollows(data, from, minLsn) <==> After(f, after).RecordFollows(data, from, minLsn)
  {
    hide Format.Parse;
    forall offset, max ensures Plain(f).RecordAt(data, offset, minLsn, max) <==>
                               After(f, after).RecordAt(data, offset, minLsn, max) { }
  }

  lemma NothingUncovered(first: nat, after: nat, b: seq<Rec>)
    ensures b + Uncovered([], first, after) == b
  {
  }

  /** Recovery after a snapshot ends as recovery of everything does, if the log reaches the
      snapshot, and delivers what the snapshot does not cover. */
  lemma {:induction false} SkimRecover(f: Format, after: nat, dir: Directory, names: seq<nat>, expected: nat,
                                       a: seq<Rec>, b: seq<Rec>, segments: seq<SegmentInfo>)
    requires expected >= 1 && forall n | n in names :: n in dir
    ensures SameEnd(after, Plain(f).RecoverFrom(dir, names, expected, a, segments),
                    After(f, after).RecoverFrom(dir, names, expected, b, segments), expected, a, b)
    decreases |names|
  {
    hide Recovery.RecoverOne, Uncovered;
    if names == [] {
      NothingUncovered(expected, after, b);
      assert a[|a|..] == [];
    } else {
      SkimOne(f, after, dir, names[0], |names| == 1, expected, a, b, segments);
      var p := Plain(f).RecoverOne(dir, names[0], |names| == 1, expected, a, segments);
      if p.Go? {
        var q := After(f, after).RecoverOne(dir, names[0], |names| == 1, expected, b, segments);
        SkimRecover(f, after, dir, names[1..], p.expected, p.delivered, q.delivered, p.segments);
        var all := Plain(f).RecoverFrom(dir, names, expected, a, segments).delivered;
        if p.delivered <= all { JoinUncovered(a, p.delivered, all, expected, after, b); }
      }
    }
  }

  lemma JoinUncovered(a: seq<Rec>, some: seq<Rec>, all: seq<Rec>, first: nat, after: nat, b: seq<Rec>)
    requires a <= some <= all
    ensures b + Uncovered(some[|a|..], first, after) + Uncovered(all[|some|..], first + |some| - |a|, after)
            == b + Uncovered(all[|a|..], first, after)
  {
    hide Uncovered;
    var k := |some| - |a|;
    assert all[|a|..][..k] == some[|a|..] && all[|a|..][k..] == all[|some|..];
    UncoveredSplit(all[|a|..], first, after, k, b);
  }

  /** What recovery after a snapshot leaves and delivers of a torn log: everything safe is in
      the prefix of m records that is left intact. */
  ghost predicate RecoversAfter(f: Format, after: nat, dir: Directory, names: seq<nat>, recs: seq<Rec>, safe: nat,
                                out: Outcome, m: nat)
    requires names != []
  {
    out.result.Success? ==>
      && safe <= m <= |recs| && out.delivered == Uncovered(recs[..m], names[0], after)
      && out.result.log.last + 1 == names[0] + m
      && var last, removed := names[|names| - 1], out.result.log.removed;
         && out.dir.Keys == (if removed then dir.Keys - {last} else dir.Keys)
         && (forall n | n in out.dir && n != last :: out.dir[n] == dir[n])
         && Log(f, out.dir, if removed then names[..|names| - 1] else names, recs[..m])
  }

  /** Recovery of a torn log after a snapshot that lies within what is safe: it succeeds
      exactly when the torn bytes hold no plausible record. */
  lemma RecoverTornAfter(f: Format, after: nat, dir: Directory, names: seq<nat>, recs: seq<Rec>, safe: nat)
    returns (m: nat)
    requires names != [] && names[0] >= 1 && (forall i, j | 0 <= i < j < |names| :: names[i] < names[j])
    requires (forall n | n in names :: n in dir) && Numbered(recs, names[0]) && TornLog(f, dir, names, recs, safe)
    requires names[0] <= after + 1 <= names[0] + safe
    ensures var out := After(f, after).RecoverFrom(dir, names, 0, [], []);
            && (out.result.Success? <==> NothingValidTorn(f, dir[names[|names| - 1]], names[|names| - 1]))
            && RecoversAfter(f, after, dir, names, recs, safe, out, m)
  {
    hide Recovery.RecoverFrom, NothingValidTorn, Uncovered, TornLog, Log;
    var name := names[0];
    if HasHeader(f, dir[name], name) {
      StartsThere(f, after, dir, names);
      m := RecoverTornFrom(f, dir, names, recs, safe, name, [], []);
      TornSucceedsFrom(f, dir, names, recs, safe, name, [], []);
      SkimRecover(f, after, dir, names, name, [], [], []);
      var p := Plain(f).RecoverFrom(dir, names, name, [], []);
      if p.result.Success? {
        assert [] + recs[..m] == recs[..m] && p.delivered[0..] == p.delivered;
        assert [] + Uncovered(recs[..m], name, after) == Uncovered(recs[..m], name, after);
      }
    } else {
      m := 0;
      TornAtHeader(f, after, dir, names, recs, safe);
    }
  }

  /** The first segment to be read may begin before what is needed. */
  lemma StartsThere(f: Format, after: nat, dir: Directory, names: seq<nat>)
    requires names != [] && 1 <= names[0] <= after + 1 && (forall n | n in names :: n in dir)
    requires HasHeader(f, dir[names[0]], names[0])
    ensures After(f, after).RecoverFrom(dir, names, 0, [], []) ==
            After(f, after).RecoverFrom(dir, names, names[0], [], [])
  {
    hide Format.ParseHeader, Recovery.ScanFrom, Recovery.RecordFollows;
    assert After(f, after).ScanFrom(dir[names[0]], SEGMENT_HEADER, names[0], []).expected >= 1;
  }

  /** A segment that was torn at its creation holds nothing, and the snapshot reaches to it. */
  lemma TornAtHeader(f: Format, after: nat, dir: Directory, names: seq<nat>, recs: seq<Rec>, safe: nat)
    requires names != [] && names[0] >= 1 && (forall n | n in names :: n in dir)
    requires TornLog(f, dir, names, recs, safe) && !HasHeader(f, dir[names[0]], names[0])
    requires names[0] <= after + 1 <= names[0] + safe
    ensures var out := After(f, after).RecoverFrom(dir, names, 0, [], []);
            && (out.result.Success? <==> NothingValidTorn(f, dir[names[|names| - 1]], names[|names| - 1]))
            && RecoversAfter(f, after, dir, names, recs, safe, out, 0)
  {
    hide Format.ParseHeader, Recovery.ScanFrom, Recovery.RecordFollows;
    assert names == [names[0]] && safe == 0;
    SameFollows(f, after, dir[names[0]], 0, names[0]);
    assert names[..0] == [] && recs[..0] == [];
  }

  /** Any end of a torn log is a torn log, and what is before it is intact. */
  lemma {:induction false} TornSuffix(f: Format, dir: Directory, names: seq<nat>, recs: seq<Rec>, safe: nat, i: nat)
    requires TornLog(f, dir, names, recs, safe) && i < |names|
    ensures names[0] <= names[i] <= names[0] + |recs|
    ensures TornLog(f, dir, names[i..], recs[names[i] - names[0]..], Minus(safe, names[i] - names[0]))
    decreases i
  {
    hide Holds, TornSegment;
    if i == 0 {
      assert names[0..] == names && recs[0..] == recs;
    } else {
      var k := names[1] - names[0];
      TornSuffix(f, dir, names[1..], recs[k..], Minus(safe, k), i - 1);
      assert names[1..][i - 1..] == names[i..];
      assert recs[k..][names[i] - names[1]..] == recs[names[i] - names[0]..];
    }
  }

  /** The older segments of a torn log and an intact end make an intact log. */
  lemma {:induction false} JoinLog(f: Format, dir: Directory, dir': Directory, names: seq<nat>, recs: seq<Rec>,
                                   safe: nat, i: nat, rest: seq<nat>, m: nat)
    requires TornLog(f, dir, names, recs, safe) && i < |names| && (rest == [] || rest[0] == names[i])
    requires forall j | 0 <= j < i && names[j] in dir :: names[j] in dir' && dir'[names[j]] == dir[names[j]]
    requires names[0] <= names[i] <= names[0] + m && m <= |recs|
    requires Log(f, dir', rest, recs[names[i] - names[0]..m])
    ensures Log(f, dir', names[..i] + rest, recs[..m])
    decreases i
  {
    hide Holds, TornLog, Log;
    if i == 0 {
      assert names[..0] + rest == rest && recs[0..m] == recs[..m];
    } else {
      TornHead(f, dir, names, recs, safe);
      var k, tail := names[1] - names[0], names[1..];
      TornSuffix(f, dir, tail, recs[k..], Minus(safe, k), i - 1);
      assert tail[i - 1] == names[i] && recs[k..][names[i] - names[1]..m - k] == recs[names[i] - names[0]..m];
      JoinLog(f, dir, dir', tail, recs[k..], Minus(safe, k), i - 1, rest, m - k);
      var older := tail[..i - 1] + rest;
      assert names[..i] + rest == [names[0]] + older;
      assert recs[..m][..k] == recs[..k] && recs[..m][k..] == recs[k..][..m - k];
      LogCons(f, dir', names[0], older, recs[..m], k);
    }
  }

  lemma TornHead(f: Format, dir: Directory, names: seq<nat>, recs: seq<Rec>, safe: nat)
    requires TornLog(f, dir, names, recs, safe) && |names| > 1
    ensures var k := names[1] - names[0];
            && names[0] in dir && 1 <= k <= |recs| && Holds(f, dir[names[0]], names[0], recs[..k])
            && TornLog(f, dir, names[1..], recs[k..], Minus(safe, k))
  {
  }

  lemma LogCons(f: Format, dir: Directory, name: nat, names: seq<nat>, recs: seq<Rec>, k: nat)
    requires name in dir && 1 <= k <= |recs| && Holds(f, dir[name], name, recs[..k])
    requires Log(f, dir, names, recs[k..]) && (names == [] || names[0] == name + k)
    ensures Log(f, dir, [name] + names, recs)
  {
    hide Holds;
    assert ([name] + names)[1..] == names;
    if names == [] { assert recs[..k] == recs; }
  }
}
