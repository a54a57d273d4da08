/**
 The files byte by byte: where each number of a header stands and what it is, and the bytes of
 every record type, so that what one version writes another can be held to.
 */
module WireFormat {
  import opened LogFormat
  import opened Codec
  import opened Jobs
  import R = RecordCodec
  import I = Images
  import S = SnapshotFiles

  // --- numbers -------------------------------------------------------------------------------------------

  function Power(base: nat, n: nat): nat { if n == 0 then 1 else base * Power(base, n - 1) }

  lemma {:induction false} Positive(base: nat, n: nat)
    requires base > 0
    ensures Power(base, n) > 0
  {
    if n > 0 { Positive(base, n - 1); }
  }

  /** What is left of a number without its n lowest digits. */
  function Drop(v: nat, base: nat, n: nat): nat
    requires base > 0
  {
    if n == 0 then v else Drop(v, base, n - 1) / base
  }

  lemma {:induction false} DropFirst(v: nat, base: nat, n: nat)
    requires base > 0
    ensures Drop(v / base, base, n) == Drop(v, base, n + 1)
  {
    if n > 0 { DropFirst(v, base, n - 1); }
  }

  /** Fixed-width numbers are little-endian: the i-th byte is the i-th digit to the base 256. */
  lemma {:induction false} StoredByte(v: nat, n: nat, i: nat)
    requires i < n
    ensures Store(v, n)[i] == Drop(v, 256, i) % 256
  {
    if i > 0 {
      StoredByte(v / 256, n - 1, i - 1);
      DropFirst(v, 256, i - 1);
      assert Store(v, n)[i] == Store(v / 256, n - 1)[i - 1];
    }
  }

  /** The i-th byte of a varint has the i-th seven bits of the value, and is marked unless it is the last. */
  lemma {:induction false} VarintByte(v: nat, i: nat)
    requires i < |PutVarint(v)|
    ensures PutVarint(v)[i] == Drop(v, 128, i) % 128 + (if i + 1 < |PutVarint(v)| then 128 else 0)
  {
    if v >= 128 {
      assert PutVarint(v)[1..] == PutVarint(v / 128);
      if i > 0 {
        VarintByte(v / 128, i - 1);
        DropFirst(v, 128, i - 1);
      }
    }
  }

  /** A varint takes as many bytes as it needs, and at least one. */
  lemma {:induction false} VarintLength(v: nat, n: nat)
    requires n > 0
    ensures |PutVarint(v)| <= n <==> v < Power(128, n)
    decreases n
  {
    if n == 1 {
      assert Power(128, 1) == 128 * Power(128, 0);
    } else {
      Positive(128, n - 1);
      assert Power(128, n - 1) >= 128 by {
        assert Power(128, n - 1) == 128 * Power(128, n - 2);
        Positive(128, n - 2);
      }
      if v >= 128 { VarintLength(v / 128, n - 1); }
    }
  }

  /** Signed numbers are counted 0, -1, 1, -2, 2 and so on, so that small ones stay small. */
  lemma ZigZagCounts(k: int)
    requires k >= 0
    ensures ZigZag(0) == 0 && ZigZag(-k - 1) == ZigZag(k) + 1 && ZigZag(k + 1) == ZigZag(-k - 1) + 1
  {
  }

  // --- headers ---------------------------------------------------------------------------------------------

  /** A log record: length, checksum of everything but itself, type, LSN, payload. */
  lemma RecordLayout(f: Format, r: Rec)
    requires |r.payload| < 0x1_0000_0000
    ensures var d := f.Encode(r);
            && |d| == 17 + |r.payload| && Load(d[0..4]) == |r.payload| && Load(d[4..8]) == f.crc(d[0..4] + d[8..])
            && d[8] == r.kind && Load(d[9..17]) == r.lsn && d[17..] == r.payload
  {
    hide Load, Store, Pow256;
    var d, length, body := f.Encode(r), Store(|r.payload|, 4), Format.Body(r);
    assert d[0..4] == length && d[8..] == body && d[4..8] == Store(f.crc(length + body), 4);
    assert d[9..17] == Store(r.lsn, 8) && d[17..] == r.payload;
    Powers();
    LoadStore(|r.payload|, 4);
    LoadStore(f.crc(length + body), 4);
    LoadStore(r.lsn, 8);
  }

  /** BATONLOG, version 1, zero, the first LSN, the checksum of these, zero. */
  lemma SegmentLayout(f: Format, first: Lsn)
    ensures var d := f.EncodeHeader(first);
            && |d| == 32 && d[0..8] == [0x42, 0x41, 0x54, 0x4F, 0x4E, 0x4C, 0x4F, 0x47] && Load(d[8..12]) == 1
            && Load(d[12..16]) == 0 && Load(d[16..24]) == first && Load(d[24..28]) == f.crc(d[0..24])
            && Load(d[28..32]) == 0
  {
    hide Load, Store, Pow256;
    var d, fields := f.EncodeHeader(first), Format.HeaderFields(first);
    assert d[0..24] == fields && d[0..8] == MAGIC && d[8..12] == Store(FORMAT_VERSION, 4);
    assert d[12..16] == Store(0, 4) && d[16..24] == Store(first, 8);
    assert d[24..28] == Store(f.crc(fields), 4);
    assert d[28..32] == d[28..] == Store(0, 4);
    Powers();
    LoadStore(FORMAT_VERSION, 4);
    LoadStore(0, 4);
    LoadStore(first, 8);
    LoadStore(f.crc(fields), 4);
  }

  /** BATONSNP, version 1, zero, the LSN, the time it was taken, the checksum of these, zero. */
  lemma SnapshotLayout(f: Format, lsn: Lsn, created: Lsn)
    ensures var d := S.EncodeHeader(f, lsn, created);
            && |d| == 40 && d[0..8] == [0x42, 0x41, 0x54, 0x4F, 0x4E, 0x53, 0x4E, 0x50] && Load(d[8..12]) == 1
            && Load(d[12..16]) == 0 && Load(d[16..24]) == lsn && Load(d[24..32]) == created
            && Load(d[32..36]) == f.crc(d[0..32]) && Load(d[36..40]) == 0
  {
    hide Load, Store, Pow256;
    var d, fields := S.EncodeHeader(f, lsn, created), S.HeaderFields(lsn, created);
    assert d[0..32] == fields && d[0..8] == S.SNAPSHOT_MAGIC && d[8..12] == Store(S.SNAPSHOT_VERSION, 4);
    assert d[12..16] == Store(0, 4) && d[16..24] == Store(lsn, 8) && d[24..32] == Store(created, 8);
    assert d[32..36] == Store(f.crc(fields), 4);
    assert d[36..40] == d[36..] == Store(0, 4);
    Powers();
    LoadStore(S.SNAPSHOT_VERSION, 4);
    LoadStore(0, 4);
    LoadStore(lsn, 8);
    LoadStore(created, 8);
    LoadStore(f.crc(fields), 4);
  }

  // --- records and snapshot rows -----------------------------------------------------------------------------

  /** Strings one after the other. */
  function Joined(parts: seq<Bytes>): Bytes { if parts == [] then [] else parts[0] + Joined(parts[1..]) }

  lemma {:induction false} FieldsJoin(fs: seq<Field>, parts: seq<Bytes>)
    requires |parts| == |fs| && forall i | 0 <= i < |fs| :: parts[i] == PutField(fs[i])
    ensures PutFields(fs) == Joined(parts)
  {
    if fs != [] { FieldsJoin(fs[1..], parts[1..]); }
  }

  function U(n: nat): Bytes { PutVarint(n) }

  function Z(i: int): Bytes { PutVarint(ZigZag(i)) }

  function T(s: Bytes): Bytes { PutVarint(|s|) + s }

  lemma {:induction false} IdsJoin(ids: seq<JobId>)
    ensures PutFields(R.Ids(ids)) == Joined(seq(|ids|, i requires 0 <= i < |ids| => PutVarint(ids[i])))
  {
    var parts := seq(|ids|, i requires 0 <= i < |ids| => PutVarint(ids[i]));
    if ids != [] {
      var rest := ids[1..];
      IdsJoin(rest);
      assert R.Ids(ids)[1..] == R.Ids(rest);
      assert parts[1..] == seq(|rest|, i requires 0 <= i < |rest| => PutVarint(rest[i]));
    }
  }

  /** A job that is enqueued. */
  lemma EnqueuedBytes(r: Record)
    requires r.JobEnqueued?
    ensures R.TypeOf(r) == 1
    ensures R.Encode(r) == [1] + Joined([U(r.id), T(r.queue), T(r.payload), Z(r.priority), Z(r.runAt), U(r.maxAttempts),
                                         U(r.backoffBase), U(r.backoffCap), T(r.idemKey), Z(r.idemExpiresAt), Z(r.at)])
  {
    hide PutVarint;
    FieldsJoin(R.Fields(r), [U(r.id), T(r.queue), T(r.payload), Z(r.priority), Z(r.runAt), U(r.maxAttempts),
                             U(r.backoffBase), U(r.backoffCap), T(r.idemKey), Z(r.idemExpiresAt), Z(r.at)]);
  }

  /** What happens to a job later. */
  lemma LaterBytes(r: Record)
    ensures r.JobLeased? ==> R.TypeOf(r) == 2
                             && R.Encode(r) == [1] + Joined([U(r.id), U(r.token), Z(r.leaseExpiresAt), Z(r.at)])
    ensures r.LeaseExtended? ==> R.TypeOf(r) == 3
                                 && R.Encode(r) == [1] + Joined([U(r.id), U(r.token), Z(r.leaseExpiresAt), Z(r.at)])
    ensures r.JobSucceeded? ==> R.TypeOf(r) == 4 && R.Encode(r) == [1] + Joined([U(r.id), U(r.token), Z(r.at)])
    ensures r.JobCancelled? ==> R.TypeOf(r) == 6 && R.Encode(r) == [1] + Joined([U(r.id), Z(r.at)])
    ensures r.DeadJobRetried? ==> R.TypeOf(r) == 7 && R.Encode(r) == [1] + Joined([U(r.id), Z(r.runAt), Z(r.at)])
  {
    hide PutVarint, Joined, PutFields;
    match r {
      case JobLeased(id, token, e, at) => FieldsJoin(R.Fields(r), [U(id), U(token), Z(e), Z(at)]);
      case LeaseExtended(id, token, e, at) => FieldsJoin(R.Fields(r), [U(id), U(token), Z(e), Z(at)]);
      case JobSucceeded(id, token, at) => FieldsJoin(R.Fields(r), [U(id), U(token), Z(at)]);
      case JobCancelled(id, at) => FieldsJoin(R.Fields(r), [U(id), Z(at)]);
      case DeadJobRetried(id, runAt, at) => FieldsJoin(R.Fields(r), [U(id), Z(runAt), Z(at)]);
      case _ =>
    }
  }

  /** An attempt that failed: the reason and the verdict are one byte each. */
  lemma FailedBytes(r: Record)
    requires r.AttemptFailed?
    ensures R.TypeOf(r) == 5
    ensures R.Encode(r) == [1] + Joined([U(r.id), U(r.token), if r.reason == LeaseExpired then [1] else [0], T(r.error),
                                         Z(r.at), if r.dead then [1] else [0], Z(r.retryAt)])
  {
    hide PutVarint;
    FieldsJoin(R.Fields(r), [U(r.id), U(r.token), if r.reason == LeaseExpired then [1] else [0], T(r.error), Z(r.at),
                             if r.dead then [1] else [0], Z(r.retryAt)]);
  }

  lemma PurgedBytes(ids: seq<JobId>)
    ensures R.TypeOf(JobsPurged(ids)) == 8
    ensures R.Encode(JobsPurged(ids)) ==
            [1] + (PutVarint(|ids|) + Joined(seq(|ids|, i requires 0 <= i < |ids| => PutVarint(ids[i]))))
  {
    hide PutVarint, Joined, R.Ids;
    var fs := R.Fields(JobsPurged(ids));
    assert fs[1..] == R.Ids(ids) && fs[0] == Nat(|ids|);
    assert PutFields(fs) == PutVarint(|ids|) + PutFields(R.Ids(ids));
    IdsJoin(ids);
  }

  /** The entries of a snapshot: a job, a queue, an idempotency key. */
  lemma JobRow(j: I.JobImage)
    ensures var k := j.job;
            PutFields(I.JobFields(j)) ==
            Joined([U(j.id), U(j.queue), T(k.payload), Z(k.priority), U(k.attempts), U(k.maxAttempts), U(k.backoffBase),
                    U(k.backoffCap), [I.StatusCode(k.status)], Z(k.runAt), Z(k.createdAt), Z(k.finishedAt),
                    Z(k.leaseExpiresAt), U(k.token), T(k.idemKey), T(k.lastError)])
    ensures I.StatusCode(Pending) == 0 && I.StatusCode(Leased) == 1 && I.StatusCode(Succeeded) == 2
    ensures I.StatusCode(Dead) == 3 && I.StatusCode(Cancelled) == 4
  {
    hide PutVarint;
    var k := j.job;
    FieldsJoin(I.JobFields(j),
               [U(j.id), U(j.queue), T(k.payload), Z(k.priority), U(k.attempts), U(k.maxAttempts), U(k.backoffBase),
                U(k.backoffCap), [I.StatusCode(k.status)], Z(k.runAt), Z(k.createdAt), Z(k.finishedAt),
                Z(k.leaseExpiresAt), U(k.token), T(k.idemKey), T(k.lastError)]);
  }

  lemma OtherRows(q: I.QueueImage, e: IdemEntry)
    ensures PutFields(I.QueueFields(q)) == Joined([T(q.name), U(q.totals.enqueued), U(q.totals.succeeded),
                                                   U(q.totals.failedAttempts), U(q.totals.dead), U(q.totals.cancelled)])
    ensures PutFields(I.KeyFields(e)) == Joined([T(e.key), U(e.jobId), Z(e.expiresAt)])
  {
    hide PutVarint;
    FieldsJoin(I.QueueFields(q), [T(q.name), U(q.totals.enqueued), U(q.totals.succeeded),
                                  U(q.totals.failedAttempts), U(q.totals.dead), U(q.totals.cancelled)]);
    FieldsJoin(I.KeyFields(e), [T(e.key), U(e.jobId), Z(e.expiresAt)]);
  }

  // --- names ---------------------------------------------------------------------------------------------------

  predicate InAlphabet(c: char) {
    'A' <= c <= 'Z' || 'a' <= c <= 'z' || '0' <= c <= '9' || c in {'.', '_', ':', '-'}
  }

  /** A queue name is one to 128 characters of the alphabet. */
  lemma QueueNames(name: Bytes)
    ensures ValidQueueName(name) <==> 1 <= |name| <= 128 && forall i | 0 <= i < |name| :: InAlphabet(name[i] as char)
  {
    forall i | 0 <= i < |name| ensures NameByte(name[i]) <==> InAlphabet(name[i] as char) {
      var c := name[i] as char;
      assert c as int == name[i];
    }
  }
}
