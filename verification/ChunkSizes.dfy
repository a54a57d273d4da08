/**
 How large the chunks of a snapshot file get.

 The rule that cuts the jobs into chunks counts payloads and a flat 256 bytes a job. What a
 job takes in the encoding is more, so a limit on payloads decides whether every chunk fits
 into a record. The limit is computed here, to the byte.
 */
module ChunkSizes {
  import opened LogFormat
  import opened Codec
  import opened Jobs
  import opened Images
  import RecordCodec

  const ENTRIES_PER_CHUNK: nat := 4096
  const TARGET_BYTES: nat := 0x40_0000

  /** What a job takes at most beside its payload and the length of it. */
  const ROW_REST: nat := 1367

  /** The largest payload with which every chunk of jobs fits into a record. */
  const PAYLOAD_LIMIT: nat := 58_420_827

  // --- the rule ---------------------------------------------------------------------------------

  /** Where the chunk of jobs that starts at `start` and has come to `end`, with so many
      bytes, ends: at the count limit, or with the job that takes it past the target. */
  function ChunkEnd(jobs: seq<JobImage>, start: nat, end: nat, bytes: nat): (r: nat)
    requires start <= end <= |jobs|
    ensures end <= r <= |jobs| && (start == end < |jobs| && bytes < TARGET_BYTES ==> end < r)
    decreases |jobs| - end
  {
    if end < |jobs| && end - start < ENTRIES_PER_CHUNK && bytes < TARGET_BYTES
    then ChunkEnd(jobs, start, end + 1, bytes + |jobs[end].job.payload| + 256) else end
  }

  /** The bytes the rule counts. */
  function Weight(jobs: seq<JobImage>): nat {
    if jobs == [] then 0 else Weight(jobs[..|jobs| - 1]) + |jobs[|jobs| - 1].job.payload| + 256
  }

  lemma NextWeight(jobs: seq<JobImage>, start: nat, end: nat)
    requires start <= end < |jobs|
    ensures Weight(jobs[start..end + 1]) == Weight(jobs[start..end]) + |jobs[end].job.payload| + 256
  {
    var longer := jobs[start..end + 1];
    assert longer[..|longer| - 1] == jobs[start..end] && longer[|longer| - 1] == jobs[end];
  }

  /** A chunk has at most 4096 jobs, and all but its last weigh less than the target; unless it has the
      last job, it is full by one measure or the other. */
  lemma {:induction false} ChunkEndMeans(jobs: seq<JobImage>, start: nat, end: nat, bytes: nat)
    requires start <= end <= |jobs| && end - start <= ENTRIES_PER_CHUNK && bytes == Weight(jobs[start..end])
    requires start < end ==> Weight(jobs[start..end - 1]) < TARGET_BYTES
    ensures var r := ChunkEnd(jobs, start, end, bytes);
            && r - start <= ENTRIES_PER_CHUNK && (start == end < |jobs| ==> start < r)
            && (start < r ==> Weight(jobs[start..r - 1]) < TARGET_BYTES)
            && (r < |jobs| ==> r - start == ENTRIES_PER_CHUNK || Weight(jobs[start..r]) >= TARGET_BYTES)
    decreases |jobs| - end
  {
    hide Weight;
    if start == end { NoWeight(jobs, start); }
    if end < |jobs| && end - start < ENTRIES_PER_CHUNK && bytes < TARGET_BYTES {
      NextWeight(jobs, start, end);
      ChunkEndMeans(jobs, start, end + 1, bytes + |jobs[end].job.payload| + 256);
    }
  }

  /** A chunk goes on at least as long as its jobs stay below the target. */
  lemma {:induction false} ChunkReaches(jobs: seq<JobImage>, end: nat)
    requires end <= |jobs| <= ENTRIES_PER_CHUNK && (|jobs| > 0 ==> Weight(jobs[..|jobs| - 1]) < TARGET_BYTES)
    ensures ChunkEnd(jobs, 0, end, Weight(jobs[0..end])) == |jobs|
    decreases |jobs| - end
  {
    if end < |jobs| {
      WeightGrows(jobs, end);
      NextWeight(jobs, 0, end);
      ChunkReaches(jobs, end + 1);
    }
  }

  lemma {:induction false} WeightGrows(jobs: seq<JobImage>, end: nat)
    requires end < |jobs|
    ensures Weight(jobs[0..end]) <= Weight(jobs[..|jobs| - 1])
    decreases |jobs| - end
  {
    if end == |jobs| - 1 {
      assert jobs[0..end] == jobs[..|jobs| - 1];
    } else {
      hide Weight;
      NextWeight(jobs, 0, end);
      WeightGrows(jobs, end + 1);
    }
  }

  // --- sizes of fields ------------------------------------------------------------------------------

  /** A varint takes one byte for every seven bits. */
  lemma {:induction false} VarintAtMost(v: nat, n: nat)
    requires n >= 1 && v < Scale(1, n)
    ensures 1 <= |PutVarint(v)| <= n
  {
    if v >= 128 {
      ScaleUp(v, n);
      VarintAtMost(v / 128, n - 1);
    }
  }

  lemma {:induction false} VarintAtLeast(v: nat, n: nat)
    requires v >= Scale(1, n)
    ensures |PutVarint(v)| >= n + 1
  {
    if n > 0 {
      assert Scale(1, n) == 128 * Scale(1, n - 1) && Scale(1, n - 1) >= 1 by { ScalePositive(n - 1); }
      VarintAtLeast(v / 128, n - 1);
    }
  }

  lemma ScaleUp(v: nat, n: nat)
    requires n >= 1 && 128 <= v < Scale(1, n)
    ensures n >= 2 && v / 128 < Scale(1, n - 1)
  {
    assert Scale(1, 1) == 128;
  }

  lemma {:induction false} ScalePositive(n: nat)
    ensures Scale(1, n) >= 1
  {
    if n > 0 { ScalePositive(n - 1); }
  }

  lemma Scales()
    ensures Scale(1, 1) == 0x80 && Scale(1, 2) == 0x4000 && Scale(1, 3) == 0x20_0000 && Scale(1, 4) == 0x1000_0000
    ensures Scale(1, 5) == 0x8_0000_0000 && Scale(1, 7) == 0x2_0000_0000_0000 && Scale(1, 8) == 0x100_0000_0000_0000
    ensures Scale(1, 9) == 0x8000_0000_0000_0000 && Scale(1, 10) == 0x40_0000_0000_0000_0000
  {
    assert Scale(1, 2) == 128 * Scale(1, 1) && Scale(1, 3) == 128 * Scale(1, 2) && Scale(1, 4) == 128 * Scale(1, 3);
    assert Scale(1, 5) == 128 * Scale(1, 4) && Scale(1, 6) == 128 * Scale(1, 5) && Scale(1, 7) == 128 * Scale(1, 6);
    assert Scale(1, 8) == 128 * Scale(1, 7) && Scale(1, 9) == 128 * Scale(1, 8) && Scale(1, 10) == 128 * Scale(1, 9);
  }

  lemma VarintIsShort(v: nat)
    requires v < U64
    ensures 1 <= |PutVarint(v)| <= 10
  {
    Scales();
    VarintAtMost(v, 10);
  }

  /** What the length of a payload takes, against the payload. */
  lemma LengthOfPayload(p: nat)
    requires p < U64
    ensures 16256 * (|PutVarint(p)| - 2) <= p - 128
  {
    hide PutVarint, Scale;
    Scales();
    if p < 0x80 { VarintAtMost(p, 1); }
    else if p < 0x4000 { VarintAtMost(p, 2); }
    else if p < 0x20_0000 { VarintAtMost(p, 3); }
    else if p < 0x1000_0000 { VarintAtMost(p, 4); }
    else { VarintAtMost(p, 10); }
  }

  lemma OneField(a: Field, rest: seq<Field>)
    ensures |PutFields([a] + rest)| == |PutField(a)| + |PutFields(rest)|
  {
    assert ([a] + rest)[1..] == rest;
  }

  lemma FourFields(a: Field, b: Field, c: Field, d: Field, rest: seq<Field>)
    ensures |PutFields([a, b, c, d] + rest)| == |PutField(a)| + |PutField(b)| + |PutField(c)| + |PutField(d)| +
            |PutFields(rest)|
  {
    hide PutField, PutFields;
    assert [a, b, c, d] + rest == [a] + ([b] + ([c] + ([d] + rest)));
    OneField(a, [b] + ([c] + ([d] + rest)));
    OneField(b, [c] + ([d] + rest));
    OneField(c, [d] + rest);
    OneField(d, rest);
  }

  // --- sizes of jobs --------------------------------------------------------------------------------------

  /** What the Engine lets into a job: keys and error messages are bounded. */
  predicate Bounded(j: JobImage, cap: nat) {
    |j.job.payload| <= cap && |j.job.idemKey| <= 256 && |j.job.lastError| <= 1024
  }

  /** A job image with payloads up to the cap, within the widths of its fields. */
  predicate RowOk(j: JobImage, cap: nat) {
    Bounded(j, cap) && JobFits(j.job) && j.id < U64 && j.queue < RecordCodec.U32 && j.job.token < U64
  }

  /** What is encoded of a job beside its payload. */
  function RestSize(j: JobImage): nat {
    |PutVarint(j.id)| + |PutVarint(j.queue)| + |PutSigned(j.job.priority)| + |PutVarint(j.job.attempts)|
    + |PutVarint(j.job.maxAttempts)| + |PutVarint(j.job.backoffBase)| + |PutVarint(j.job.backoffCap)| + 1
    + |PutSigned(j.job.runAt)| + |PutSigned(j.job.createdAt)| + |PutSigned(j.job.finishedAt)| +
      |PutSigned(j.job.leaseExpiresAt)|
    + |PutVarint(j.job.token)| + |PutBytes(j.job.idemKey)| + |PutBytes(j.job.lastError)|
  }

  lemma JobRowSize(j: JobImage)
    ensures |PutFields(JobFields(j))| == |j.job.payload| + |PutVarint(|j.job.payload|)| + RestSize(j)
  {
    hide PutVarint, PutSigned, PutFields;
    var f := JobFields(j);
    var b, c, d := f[4..], f[8..], f[12..];
    assert f == [f[0], f[1], f[2], f[3]] + b && b == [f[4], f[5], f[6], f[7]] + c;
    assert c == [f[8], f[9], f[10], f[11]] + d && d == [f[12], f[13], f[14], f[15]] + [];
    FourFields(f[0], f[1], f[2], f[3], b);
    FourFields(f[4], f[5], f[6], f[7], c);
    FourFields(f[8], f[9], f[10], f[11], d);
    FourFields(f[12], f[13], f[14], f[15], []);
    NoFields();
  }

  lemma NoFields()
    ensures PutFields([]) == []
  {
  }

  lemma RestIsBounded(j: JobImage, cap: nat)
    requires RowOk(j, cap)
    ensures RestSize(j) <= ROW_REST
  {
    hide PutVarint, Scale;
    Scales();
    VarintAtMost(j.id, 10);
    VarintAtMost(j.queue, 5);
    VarintAtMost(ZigZag(j.job.priority), 5);
    VarintAtMost(j.job.attempts, 5);
    VarintAtMost(j.job.maxAttempts, 5);
    VarintAtMost(j.job.backoffBase, 5);
    VarintAtMost(j.job.backoffCap, 5);
    VarintAtMost(ZigZag(j.job.runAt), 8);
    VarintAtMost(ZigZag(j.job.createdAt), 8);
    VarintAtMost(ZigZag(j.job.finishedAt), 8);
    VarintAtMost(ZigZag(j.job.leaseExpiresAt), 8);
    VarintAtMost(j.job.token, 10);
    VarintAtMost(|j.job.idemKey|, 2);
    VarintAtMost(|j.job.lastError|, 2);
  }

  lemma {:induction false} PutRowsAppend(a: seq<seq<Field>>, b: seq<seq<Field>>)
    ensures PutRows(a + b) == PutRows(a) + PutRows(b)
  {
    if a == [] {
      assert a + b == b;
    } else {
      assert (a + b)[1..] == a[1..] + b;
      PutRowsAppend(a[1..], b);
    }
  }

  lemma LastRow(jobs: seq<JobImage>)
    requires jobs != []
    ensures |PutRows(JobRows(jobs))| == |PutRows(JobRows(jobs[..|jobs| - 1]))| +
            |PutFields(JobFields(jobs[|jobs| - 1]))|
  {
    hide JobFields, PutFields;
    var before, last := jobs[..|jobs| - 1], jobs[|jobs| - 1];
    assert JobRows(jobs) == JobRows(before) + [JobFields(last)];
    PutRowsAppend(JobRows(before), [JobFields(last)]);
    assert [JobFields(last)][1..] == [];
  }

  /** What the jobs before the last can take, by their number and weight. */
  lemma {:induction false} RowsSize(jobs: seq<JobImage>, cap: nat)
    requires forall i | 0 <= i < |jobs| :: RowOk(jobs[i], cap)
    ensures 16256 * |PutRows(JobRows(jobs))| <= 16257 * Weight(jobs) + 18_092_544 * |jobs|
    decreases |jobs|
  {
    hide RowOk, JobFields, PutFields, PutRows, PutVarint, RestSize;
    if jobs == [] {
      NoRows();
    } else {
      var last := jobs[|jobs| - 1];
      assert RowOk(last, cap);
      RowsSize(jobs[..|jobs| - 1], cap);
      LastRow(jobs);
      RowSize(last, cap);
    }
  }

  lemma NoRows()
    ensures PutRows(JobRows([])) == []
  {
  }

  lemma RowSize(j: JobImage, cap: nat)
    requires RowOk(j, cap)
    ensures 16256 * |PutFields(JobFields(j))| <= 16257 * (|j.job.payload| + 256) + 18_092_544
  {
    hide PutFields, JobFields, PutVarint, RestSize;
    JobRowSize(j);
    RestIsBounded(j, cap);
    LengthOfPayload(|j.job.payload|);
  }

  // --- the limit is enough -----------------------------------------------------------------------------------

  /** With payloads up to the limit, every chunk the rule makes fits into a record. */
  lemma JobsChunkFits(jobs: seq<JobImage>, start: nat)
    requires start < |jobs| && forall i | 0 <= i < |jobs| :: RowOk(jobs[i], PAYLOAD_LIMIT)
    ensures var end := ChunkEnd(jobs, start, start, 0);
            start < end <= |jobs| && |ListPiece(JobRows(jobs[start..end]))| <= MAX_PAYLOAD
  {
    hide RowOk, ChunkEnd, PutRows, PutVarint, JobRows, Weight, PutFields, JobFields, RestSize, Scale;
    NoWeight(jobs, start);
    ChunkEndMeans(jobs, start, start, 0);
    var end := ChunkEnd(jobs, start, start, 0);
    var chunk, last := jobs[start..end], jobs[end - 1];
    var before := jobs[start..end - 1];
    assert chunk[..|chunk| - 1] == before && chunk[|chunk| - 1] == last;
    forall i | 0 <= i < |before| ensures RowOk(before[i], PAYLOAD_LIMIT) { assert before[i] == jobs[start + i]; }
    RowsSize(before, PAYLOAD_LIMIT);
    LastRow(chunk);
    assert RowOk(last, PAYLOAD_LIMIT);
    LastFits(last);
    RowsCount(chunk);
    Scales();
    VarintAtMost(|chunk|, 2);
  }

  lemma NoWeight(jobs: seq<JobImage>, start: nat)
    requires start <= |jobs|
    ensures Weight(jobs[start..start]) == 0
  {
  }

  lemma RowsCount(jobs: seq<JobImage>)
    ensures |JobRows(jobs)| == |jobs|
  {
  }

  lemma LastFits(j: JobImage)
    requires RowOk(j, PAYLOAD_LIMIT)
    ensures |PutFields(JobFields(j))| <= PAYLOAD_LIMIT + 4 + ROW_REST
  {
    hide PutFields, JobFields, PutVarint, RestSize, Scale;
    JobRowSize(j);
    RestIsBounded(j, PAYLOAD_LIMIT);
    Scales();
    VarintAtMost(|j.job.payload|, 4);
  }

  // --- and no larger one is -------------------------------------------------------------------------------------

  function Zeros(n: nat): (r: Bytes)
    ensures |r| == n
  {
    seq(n, _ => 0)
  }

  /** A job that takes all its fields can take. */
  function Heavy(i: nat, payload: nat): JobImage {
    var u32, time := RecordCodec.U32 - 1, RecordCodec.MAX_TIME;
    JobImage(0x8000_0000_0000_0000 + i, u32,
             Job([0], Zeros(payload), -RecordCodec.I32, u32, u32, u32, u32, Succeeded, time, time, time, time,
                 0x8000_0000_0000_0000 + i, Zeros(256), Zeros(1024)))
  }

  lemma HeavyIsOk(i: nat, payload: nat)
    requires i < 0x1_0000 && payload <= PAYLOAD_LIMIT + 1
    ensures RowOk(Heavy(i, payload), payload)
    ensures |PutFields(JobFields(Heavy(i, payload)))| == payload + |PutVarint(payload)| + ROW_REST
  {
    hide PutVarint, Scale, PutFields, JobFields;
    var j := Heavy(i, payload);
    JobRowSize(j);
    RestIsBounded(j, payload);
    Scales();
    VarintAtLeast(j.id, 9);
    VarintAtLeast(j.queue, 4);
    VarintAtLeast(ZigZag(j.job.priority), 4);
    VarintAtLeast(j.job.attempts, 4);
    VarintAtLeast(ZigZag(j.job.runAt), 7);
    VarintAtLeast(|j.job.idemKey|, 1);
    VarintAtLeast(|j.job.lastError|, 1);
  }

  /** So many heavy jobs in a row, after so many others. */
  function Block(first: nat, n: nat, payload: nat): (r: seq<JobImage>)
    ensures |r| == n
  {
    if n == 0 then [] else Block(first, n - 1, payload) + [Heavy(first + n - 1, payload)]
  }

  lemma {:induction false} BlockSize(jobs: seq<JobImage>, first: nat, n: nat, payload: nat, row: nat)
    requires first + n <= 0x1_0000 && payload <= PAYLOAD_LIMIT + 1 && row == payload + |PutVarint(payload)| + ROW_REST
    ensures var all := jobs + Block(first, n, payload);
            && Weight(all) == Weight(jobs) + n * (payload + 256)
            && |PutRows(JobRows(all))| == |PutRows(JobRows(jobs))| + n * row
    decreases n
  {
    hide PutRows, Heavy, PutVarint, JobRows;
    var all := jobs + Block(first, n, payload);
    if n == 0 {
      assert all == jobs;
    } else {
      BlockSize(jobs, first, n - 1, payload, row);
      var before, last := jobs + Block(first, n - 1, payload), Heavy(first + n - 1, payload);
      assert all == before + [last] && all[..|all| - 1] == before;
      HeavyIsOk(first + n - 1, payload);
      HeavyPayload(first + n - 1, payload);
      LastRow(all);
      assert n * row == (n - 1) * row + row && n * (payload + 256) == (n - 1) * (payload + 256) + (payload + 256);
    }
  }

  lemma HeavyPayload(i: nat, payload: nat)
    ensures |Heavy(i, payload).job.payload| == payload
  {
  }

  lemma {:induction false} BlockIsOk(first: nat, n: nat, payload: nat, cap: nat)
    requires first + n <= 0x1_0000 && payload <= PAYLOAD_LIMIT + 1 && payload <= cap
    ensures forall i | 0 <= i < n :: RowOk(Block(first, n, payload)[i], cap)
    decreases n
  {
    hide Heavy;
    if n > 0 {
      BlockIsOk(first, n - 1, payload, cap);
      HeavyIsOk(first + n - 1, payload);
    }
  }

  /** The fullest chunk: as many jobs as there may be, with payloads just long enough for
      their lengths to take another byte, and the largest payload behind them. */
  function Fullest(): (r: seq<JobImage>)
    ensures |r| == ENTRIES_PER_CHUNK
  {
    Block(0, 161, 0x4000) + Block(161, 3933, 0x80) + Block(4094, 1, 4735) + Block(4095, 1, PAYLOAD_LIMIT + 1)
  }

  lemma FullestIsOk(cap: nat)
    requires cap > PAYLOAD_LIMIT
    ensures forall i | 0 <= i < |Fullest()| :: RowOk(Fullest()[i], cap)
  {
    hide RowOk, Block;
    BlockIsOk(0, 161, 0x4000, cap);
    BlockIsOk(161, 3933, 0x80, cap);
    BlockIsOk(4094, 1, 4735, cap);
    BlockIsOk(4095, 1, PAYLOAD_LIMIT + 1, cap);
  }

  lemma PayloadLengths()
    ensures |PutVarint(0x4000)| == 3 && |PutVarint(0x80)| == 2 && |PutVarint(4735)| == 2 &&
            |PutVarint(PAYLOAD_LIMIT + 1)| == 4
    ensures |PutVarint(ENTRIES_PER_CHUNK)| == 2
  {
    hide PutVarint, Scale;
    Scales();
    VarintAtMost(0x4000, 3);
    VarintAtLeast(0x4000, 2);
    VarintAtMost(0x80, 2);
    VarintAtLeast(0x80, 1);
    VarintAtMost(4735, 2);
    VarintAtLeast(4735, 1);
    VarintAtMost(PAYLOAD_LIMIT + 1, 4);
    VarintAtLeast(PAYLOAD_LIMIT + 1, 3);
    VarintAtMost(ENTRIES_PER_CHUNK, 2);
    VarintAtLeast(ENTRIES_PER_CHUNK, 1);
  }

  lemma FullestSize()
    ensures Weight(Fullest()[..ENTRIES_PER_CHUNK - 1]) == TARGET_BYTES - 1
    ensures |ListPiece(JobRows(Fullest()))| == MAX_PAYLOAD + 1
  {
    hide PutVarint, Block, PutRows, JobRows, Weight;
    PayloadLengths();
    NoWeight([], 0);
    NoRows();
    var a, b, c := Block(0, 161, 0x4000), Block(161, 3933, 0x80), Block(4094, 1, 4735);
    BlockSize([], 0, 161, 0x4000, 0x4000 + 3 + ROW_REST);
    assert [] + a == a;
    BlockSize(a, 161, 3933, 0x80, 0x80 + 2 + ROW_REST);
    BlockSize(a + b, 4094, 1, 4735, 4735 + 2 + ROW_REST);
    assert Fullest()[..ENTRIES_PER_CHUNK - 1] == a + b + c;
    BlockSize(a + b + c, 4095, 1, PAYLOAD_LIMIT + 1, PAYLOAD_LIMIT + 1 + 4 + ROW_REST);
    RowsCount(Fullest());
  }

  /** The chunk that starts here fits into a record, if the jobs keep to the cap. */
  ghost predicate FitsAt(jobs: seq<JobImage>, start: nat, cap: nat) {
    start < |jobs| && (forall i | 0 <= i < |jobs| :: RowOk(jobs[i], cap)) ==>
      |ListPiece(JobRows(jobs[start..ChunkEnd(jobs, start, start, 0)]))| <= MAX_PAYLOAD
  }

  /** Every chunk of every list of jobs fits into a record if and only if payloads are capped
      at the limit, which lies between the 48 and the 64 MiB that can be configured. */
  lemma PayloadLimitIsExact(cap: nat)
    ensures (forall jobs: seq<JobImage>, start: nat :: FitsAt(jobs, start, cap)) <==> cap <= PAYLOAD_LIMIT
  {
    hide RowOk, ChunkEnd, ListPiece, JobRows, Fullest;
    if cap <= PAYLOAD_LIMIT {
      forall jobs: seq<JobImage>, start: nat ensures FitsAt(jobs, start, cap) {
        if start < |jobs| && (forall i | 0 <= i < |jobs| :: RowOk(jobs[i], cap)) {
          forall i | 0 <= i < |jobs| ensures RowOk(jobs[i], PAYLOAD_LIMIT) { SmallerCap(jobs[i], cap); }
          JobsChunkFits(jobs, start);
        }
      }
    } else {
      var jobs := Fullest();
      FullestIsOk(cap);
      FullestSize();
      NoWeight(jobs, 0);
      ChunkReaches(jobs, 0);
      assert jobs[0..ENTRIES_PER_CHUNK] == jobs;
      assert !FitsAt(jobs, 0, cap);
    }
  }

  lemma SmallerCap(j: JobImage, cap: nat)
    requires RowOk(j, cap) && cap <= PAYLOAD_LIMIT
    ensures RowOk(j, PAYLOAD_LIMIT)
  {
  }

  /** Two jobs are enough to overflow a record when the second has the largest payload that
      can be configured. */
  lemma LargestPayloadsDoNotFit(jobs: seq<JobImage>)
    requires |jobs| == 2 && RowOk(jobs[0], 0x400_0000) && RowOk(jobs[1], 0x400_0000)
    requires 0x1_0000 < |jobs[0].job.payload| < TARGET_BYTES - 256 && |jobs[1].job.payload| == 0x400_0000
    ensures ChunkEnd(jobs, 0, 0, 0) == 2 && |ListPiece(JobRows(jobs))| > MAX_PAYLOAD
  {
    hide RowOk, PutVarint, PutFields, JobFields, PutRows, JobRows, RestSize;
    assert jobs[..1] == [jobs[0]] && [jobs[0]][..0] == [] && jobs[0..0] == [];
    assert Weight([jobs[0]]) == |jobs[0].job.payload| + 256;
    ChunkReaches(jobs, 0);
    NoRows();
    LastRow(jobs);
    LastRow([jobs[0]]);
    JobRowSize(jobs[0]);
    JobRowSize(jobs[1]);
  }
}
