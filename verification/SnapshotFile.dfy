/**
 Snapshot files: a header, then the pieces of an image framed like log records, the last
 of them an end chunk with the totals.

 A file is complete or it is rejected: what was written loads, in whatever chunks and
 through whatever reads, and of all the prefixes of bytes that load, no proper one does.
 */
module SnapshotFiles {
  import opened Wrappers
  import opened LogFormat
  import opened Codec
  import opened Jobs
  import opened Images
  import opened ChunkSizes
  import opened MetaSizes
  import opened JobRuns

  const SNAPSHOT_HEADER: nat := 40
  const SNAPSHOT_MAGIC: Bytes := [0x42, 0x41, 0x54, 0x4F, 0x4E, 0x53, 0x4E, 0x50]
  const SNAPSHOT_VERSION: nat := 1

  const META: Byte := 1
  const JOBS: Byte := 2
  const KEYS: Byte := 3
  const END: Byte := 255

  const WRITE_BUFFER: nat := 0x10_0000
  const READ_SIZE: nat := 0x4_0000

  datatype Chunk = Chunk(kind: Byte, payload: Bytes)

  // --- the header ---------------------------------------------------------------------------------

  function HeaderFields(lsn: Lsn, created: Lsn): (r: Bytes)
    ensures |r| == 32
  {
    SNAPSHOT_MAGIC + Store(SNAPSHOT_VERSION, 4) + Store(0, 4) + Store(lsn, 8) + Store(created, 8)
  }

  function EncodeHeader(f: Format, lsn: Lsn, created: Lsn): (r: Bytes)
    ensures |r| == SNAPSHOT_HEADER
  {
    HeaderFields(lsn, created) + Store(f.crc(HeaderFields(lsn, created)), 4) + Store(0, 4)
  }

  /** An intact header of this version that belongs to the name the file has. */
  predicate HeaderOk(f: Format, lsn: nat, data: Bytes) {
    && |data| >= SNAPSHOT_HEADER && data[..8] == SNAPSHOT_MAGIC
    && Load(data[32..36]) == f.crc(data[..32]) && Load(data[36..40]) == 0
    && Load(data[8..12]) == SNAPSHOT_VERSION && Load(data[16..24]) == lsn
  }

  lemma HeaderRoundTrip(f: Format, lsn: Lsn, created: Lsn, rest: Bytes)
    ensures HeaderOk(f, lsn, EncodeHeader(f, lsn, created) + rest)
  {
    var fields := HeaderFields(lsn, created);
    var data := EncodeHeader(f, lsn, created) + rest;
    Powers();
    assert data[..32] == fields;
    assert data[..8] == SNAPSHOT_MAGIC;
    assert data[8..12] == Store(SNAPSHOT_VERSION, 4);
    assert data[16..24] == Store(lsn, 8);
    assert data[32..36] == Store(f.crc(fields), 4);
    assert data[36..40] == Store(0, 4);
    LoadStore(SNAPSHOT_VERSION, 4);
    LoadStore(lsn, 8);
    LoadStore(f.crc(fields), 4);
    LoadStore(0, 4);
  }

  // --- loading ------------------------------------------------------------------------------------

  function AddChunk(b: Builder, kind: Byte, payload: Bytes): Option<Builder> {
    if kind == META then AddMeta(b, payload)
    else if kind == JOBS then AddList(JobEntry, b, payload)
    else if kind == KEYS then AddList(KeyEntry, b, payload)
    else None
  }

  /** The totals an end chunk carries are those of what came before it. */
  predicate EndMatches(payload: Bytes, chunks: nat, b: Builder) {
    var t := GetFields(COUNTERS, payload);
    t.Got? && t.rest == [] && t.value == [Nat(chunks), Nat(b.jobsAdded), Nat(b.keysAdded)]
  }

  function LoadChunks(f: Format, data: Bytes, number: nat, b: Builder): Option<Durable>
    requires number >= 1
    decreases |data|
  {
    var p := f.Parse(data);
    if !p.Ok? || p.rec.lsn != number then None
    else if p.rec.kind == END then
      if EndMatches(p.rec.payload, number - 1, b) && |data| == p.size then Finish(b) else None
    else
      var next := AddChunk(b, p.rec.kind, p.rec.payload);
      if next.None? then None else LoadChunks(f, data[p.size..], number + 1, next.value)
  }

  function LoadSnapshot(f: Format, lsn: nat, data: Bytes): Option<Durable> {
    if !HeaderOk(f, lsn, data) then None else LoadChunks(f, data[SNAPSHOT_HEADER..], 1, BLANK)
  }

  // --- no file loads in part -------------------------------------------------------------------------

  /** Cutting data inside its first record leaves nothing that parses; cutting after it
      leaves the record. */
  lemma ParseOfCut(f: Format, data: Bytes, k: nat)
    requires f.Parse(data).Ok? && k <= |data|
    ensures f.Parse(data[..k]) ==
            if k < f.Parse(data).size then (if k == 0 then EndOfData else Truncated) else f.Parse(data)
  {
    hide Format.Parse, Format.Encode;
    var p := f.Parse(data);
    f.ParseIsEncode(data, p.rec);
    var e := f.Encode(p.rec);
    if k < p.size {
      assert data[..k] == e[..k];
      if k > 0 { f.ParseCutShort(p.rec, k); } else { assert data[..0] == []; }
    } else {
      assert e <= data[..k];
      f.ParseIsEncode(data[..k], p.rec);
    }
  }

  lemma {:induction false} ChunksOfCut(f: Format, data: Bytes, k: nat, number: nat, b: Builder)
    requires number >= 1 && LoadChunks(f, data, number, b).Some? && k < |data|
    ensures LoadChunks(f, data[..k], number, b).None?
    decreases |data|
  {
    hide Format.Parse, AddChunk, Finish, EndMatches;
    ParseOfCut(f, data, k);
    var p := f.Parse(data);
    if k >= p.size && p.rec.kind != END {
      var next := AddChunk(b, p.rec.kind, p.rec.payload);
      ChunksOfCut(f, data[p.size..], k - p.size, number + 1, next.value);
      assert data[p.size..][..k - p.size] == data[..k][p.size..];
    }
  }

  /** Of bytes that load as a snapshot, whoever wrote them, no proper prefix loads under any
      name. */
  lemma NoProperPrefixLoads(f: Format, lsn: nat, data: Bytes, k: nat, name: nat)
    requires LoadSnapshot(f, lsn, data).Some? && k < |data|
    ensures LoadSnapshot(f, name, data[..k]).None?
  {
    hide LoadChunks;
    if k >= SNAPSHOT_HEADER {
      ChunksOfCut(f, data[SNAPSHOT_HEADER..], k - SNAPSHOT_HEADER, 1, BLANK);
      assert data[SNAPSHOT_HEADER..][..k - SNAPSHOT_HEADER] == data[..k][SNAPSHOT_HEADER..];
    }
  }

  /** And nothing longer loads either. */
  lemma NoExtensionLoads(f: Format, lsn: nat, data: Bytes, more: Bytes, name: nat)
    requires LoadSnapshot(f, lsn, data).Some? && more != []
    ensures LoadSnapshot(f, name, data + more).None?
  {
    hide LoadSnapshot;
    if LoadSnapshot(f, name, data + more).Some? {
      assert (data + more)[..|data|] == data;
      NoProperPrefixLoads(f, name, data + more, |data|, lsn);
    }
  }

  // --- whatever loads has been checked -----------------------------------------------------------------

  lemma {:induction false} LoadedChunksAreChecked(f: Format, data: Bytes, number: nat, b: Builder)
    requires number >= 1 && LoadChunks(f, data, number, b).Some? && (b == BLANK || (b.haveMeta && BuilderOk(b)))
    ensures var d := LoadChunks(f, data, number, b).value; Checked(d) && InOrder(d.idem)
    decreases |data|
  {
    hide Format.Parse, BuilderOk, Checked, InOrder, AddMeta, AddList, EndMatches;
    var p := f.Parse(data);
    if p.rec.kind == END {
      FinishKeepsOk(b);
    } else {
      var next := AddChunk(b, p.rec.kind, p.rec.payload);
      MetaComesFirst(b, p.rec.kind, p.rec.payload);
      if p.rec.kind == META { AddMetaKeepsOk(b, p.rec.payload); }
      if p.rec.kind == JOBS { AddListKeepsOk(JobEntry, b, p.rec.payload); }
      if p.rec.kind == KEYS { AddListKeepsOk(KeyEntry, b, p.rec.payload); }
      LoadedChunksAreChecked(f, data[p.size..], number + 1, next.value);
    }
  }

  lemma MetaComesFirst(b: Builder, kind: Byte, payload: Bytes)
    requires (b == BLANK || b.haveMeta) && AddChunk(b, kind, payload).Some?
    ensures AddChunk(b, kind, payload).value.haveMeta && (kind == META ==> b == BLANK) && (kind != META ==> b.haveMeta)
  {
    hide AddAll, GetFields, GetVarint;
    if kind == JOBS { ListKeepsMeta(JobEntry, b, payload); }
    if kind == KEYS { ListKeepsMeta(KeyEntry, b, payload); }
  }

  lemma ListKeepsMeta(e: Entry, b: Builder, piece: Bytes)
    requires AddList(e, b, piece).Some?
    ensures b.haveMeta && AddList(e, b, piece).value.haveMeta
  {
    hide AddAll, GetVarint;
    var count := GetVarint(piece[1..]);
    if count.Got? { AddAllKeepsMeta(e, b, count.value, count.rest); }
  }

  lemma {:induction false} AddAllKeepsMeta(e: Entry, b: Builder, count: nat, data: Bytes)
    requires AddAll(e, b, count, data).Got?
    ensures AddAll(e, b, count, data).value.haveMeta == b.haveMeta
    decreases count
  {
    hide Add, Shape, GetFields;
    if count > 0 {
      var f := GetFields(Shape(e), data);
      GetFieldsFits(Shape(e), data);
      AddKeepsMeta(e, b, f.value);
      AddAllKeepsMeta(e, Add(e, b, f.value).value, count - 1, f.rest);
    }
  }

  lemma AddKeepsMeta(e: Entry, b: Builder, f: seq<Field>)
    requires Shaped(e, f) && Add(e, b, f).Some?
    ensures Add(e, b, f).value.haveMeta == b.haveMeta
  {
    hide JobRange;
  }

  /** Whatever bytes load give a state whose jobs, queues, tokens and keys fit together. */
  lemma LoadedIsChecked(f: Format, lsn: nat, data: Bytes)
    requires LoadSnapshot(f, lsn, data).Some?
    ensures Checked(LoadSnapshot(f, lsn, data).value) && InOrder(LoadSnapshot(f, lsn, data).value.idem)
  {
    hide LoadChunks;
    LoadedChunksAreChecked(f, data[SNAPSHOT_HEADER..], 1, BLANK);
  }

  // --- what the totals tell ------------------------------------------------------------------------------

  /** The first end chunk, going from record to record, with the number of chunks before it. */
  function EndOfFile(f: Format, data: Bytes, before: nat): Option<(nat, Bytes)>
    decreases |data|
  {
    var p := f.Parse(data);
    if !p.Ok? then None
    else if p.rec.kind == END then Some((before, p.rec.payload))
    else EndOfFile(f, data[p.size..], before + 1)
  }

  lemma {:induction false} ChunksMatchTotals(f: Format, data: Bytes, number: nat, b: Builder)
    requires number >= 1 && LoadChunks(f, data, number, b).Some? && CountsRight(b)
    ensures var d, end := LoadChunks(f, data, number, b).value, EndOfFile(f, data, number - 1);
            end.Some? && GetFields(COUNTERS, end.value.1) == Got([Nat(end.value.0), Nat(|d.jobs|), Nat(|d.idem|)], [])
    decreases |data|
  {
    hide Format.Parse, AddMeta, AddList, GetFields, CountsRight;
    var p := f.Parse(data);
    if p.rec.kind == END {
      FinishKeepsCounts(b);
    } else {
      var next := AddChunk(b, p.rec.kind, p.rec.payload);
      if p.rec.kind == META { AddMetaKeepsCounts(b, p.rec.payload); }
      if p.rec.kind == JOBS { AddListKeepsCounts(JobEntry, b, p.rec.payload); }
      if p.rec.kind == KEYS { AddListKeepsCounts(KeyEntry, b, p.rec.payload); }
      ChunksMatchTotals(f, data[p.size..], number + 1, next.value);
    }
  }

  /** Whatever bytes load: the totals of the end chunk are the number of chunks before it and
      the numbers of jobs and keys in the loaded state. */
  lemma TotalsAreTheContents(f: Format, lsn: nat, data: Bytes)
    requires LoadSnapshot(f, lsn, data).Some?
    ensures var d, end := LoadSnapshot(f, lsn, data).value, EndOfFile(f, data[SNAPSHOT_HEADER..], 0);
            end.Some? && GetFields(COUNTERS, end.value.1) == Got([Nat(end.value.0), Nat(|d.jobs|), Nat(|d.idem|)], [])
  {
    hide LoadChunks, EndOfFile, GetFields;
    ChunksMatchTotals(f, data[SNAPSHOT_HEADER..], 1, BLANK);
  }

  // --- what is written ----------------------------------------------------------------------------------

  /** How the jobs and the keys are cut into chunks. */
  datatype Split = Split(jobs: seq<nat>, keys: seq<nat>)

  function Sum(sizes: seq<nat>): nat { if sizes == [] then 0 else sizes[0] + Sum(sizes[1..]) }

  function JobsChunk(jobs: seq<JobImage>): Chunk { Chunk(JOBS, ListPiece(JobRows(jobs))) }

  function KeysChunk(keys: seq<IdemEntry>): Chunk { Chunk(KEYS, ListPiece(KeyRows(keys))) }

  function JobChunks(jobs: seq<JobImage>, n: nat, sizes: seq<nat>): seq<Chunk>
    requires n + Sum(sizes) == |jobs|
    decreases |sizes|
  {
    if sizes == [] then [] else [JobsChunk(jobs[n..n + sizes[0]])] + JobChunks(jobs, n + sizes[0], sizes[1..])
  }

  function KeyChunks(keys: seq<IdemEntry>, n: nat, sizes: seq<nat>): seq<Chunk>
    requires n + Sum(sizes) == |keys|
    decreases |sizes|
  {
    if sizes == [] then [] else [KeysChunk(keys[n..n + sizes[0]])] + KeyChunks(keys, n + sizes[0], sizes[1..])
  }

  predicate Splits(image: Image, split: Split) { Sum(split.jobs) == |image.jobs| && Sum(split.keys) == |image.idem| }

  /** All chunks but the last. */
  function Contents(image: Image, split: Split): seq<Chunk>
    requires Splits(image, split)
  {
    [Chunk(META, MetaPiece(image))] + JobChunks(image.jobs, 0, split.jobs) + KeyChunks(image.idem, 0, split.keys)
  }

  function EndChunk(chunks: nat, image: Image): Chunk {
    Chunk(END, PutFields([Nat(chunks), Nat(|image.jobs|), Nat(|image.idem|)]))
  }

  function AllChunks(image: Image, split: Split): seq<Chunk>
    requires Splits(image, split)
  {
    Contents(image, split) + [EndChunk(|Contents(image, split)|, image)]
  }

  function Number(chunks: seq<Chunk>, first: nat): (r: seq<Rec>)
    requires first + |chunks| < U64
    ensures |r| == |chunks|
  {
    if chunks == [] then [] else [Rec(first, chunks[0].kind, chunks[0].payload)] + Number(chunks[1..], first + 1)
  }

  /** The bytes of a snapshot file. */
  function Saved(f: Format, lsn: Lsn, created: Lsn, image: Image, split: Split): Bytes
    requires Splits(image, split) && |AllChunks(image, split)| + 1 < U64
  {
    EncodeHeader(f, lsn, created) + f.EncodeAll(Number(AllChunks(image, split), 1))
  }

  ghost predicate AllFit(chunks: seq<Chunk>) { forall i | 0 <= i < |chunks| :: |chunks[i].payload| <= MAX_PAYLOAD }

  // --- what was written loads -----------------------------------------------------------------------------

  function AddChunks(b: Builder, chunks: seq<Chunk>): Option<Builder>
    decreases |chunks|
  {
    if chunks == [] then Some(b)
    else
      var next := AddChunk(b, chunks[0].kind, chunks[0].payload);
      if next.None? then None else AddChunks(next.value, chunks[1..])
  }

  lemma {:induction false} AddChunksAppend(b: Builder, x: seq<Chunk>, y: seq<Chunk>)
    ensures AddChunks(b, x + y) == (var m := AddChunks(b, x); if m.None? then None else AddChunks(m.value, y))
    decreases |x|
  {
    hide AddChunk;
    if x == [] {
      assert x + y == y;
    } else {
      assert (x + y)[1..] == x[1..] + y && (x + y)[0] == x[0];
      var next := AddChunk(b, x[0].kind, x[0].payload);
      if next.Some? { AddChunksAppend(next.value, x[1..], y); }
    }
  }

  /** Loading goes through framed chunks one by one. */
  lemma {:induction false} LoadsThrough(f: Format, chunks: seq<Chunk>, number: nat, b: Builder, tail: Bytes)
    requires number >= 1 && number + |chunks| < U64 && AllFit(chunks) &&
             forall i | 0 <= i < |chunks| :: chunks[i].kind != END
    requires AddChunks(b, chunks).Some?
    ensures LoadChunks(f, f.EncodeAll(Number(chunks, number)) + tail, number, b) ==
            LoadChunks(f, tail, number + |chunks|, AddChunks(b, chunks).value)
    decreases |chunks|
  {
    hide Format.Parse, Format.Encode, AddChunk, Finish, EndMatches;
    if chunks == [] {
      assert f.EncodeAll(Number(chunks, number)) + tail == tail;
    } else {
      var rec, rest := Rec(number, chunks[0].kind, chunks[0].payload), chunks[1..];
      var more := f.EncodeAll(Number(rest, number + 1)) + tail;
      var data := f.EncodeAll(Number(chunks, number)) + tail;
      assert Number(chunks, number)[1..] == Number(rest, number + 1);
      assert data == f.Encode(rec) + more;
      f.ParseIsEncode(data, rec);
      var size := RECORD_HEADER + |rec.payload|;
      assert data[size..] == more;
      LoadsThrough(f, rest, number + 1, AddChunk(b, rec.kind, rec.payload).value, tail);
    }
  }

  lemma {:induction false} JobChunksAdd(image: Image, n: nat, sizes: seq<nat>)
    requires Encodable(image) && n + Sum(sizes) == |image.jobs|
    ensures AddChunks(Stage(image, true, |image.queues|, n, 0), JobChunks(image.jobs, n, sizes)) ==
            Some(Stage(image, true, |image.queues|, |image.jobs|, 0))
    decreases |sizes|
  {
    hide Encodable, Stage, AddList, ListPiece;
    if sizes != [] {
      JobsRoundTrip(image, n, sizes[0]);
      JobChunksAdd(image, n + sizes[0], sizes[1..]);
      assert JobChunks(image.jobs, n, sizes)[1..] == JobChunks(image.jobs, n + sizes[0], sizes[1..]);
    }
  }

  lemma {:induction false} KeyChunksAdd(image: Image, n: nat, sizes: seq<nat>)
    requires Encodable(image) && n + Sum(sizes) == |image.idem|
    ensures AddChunks(Stage(image, true, |image.queues|, |image.jobs|, n), KeyChunks(image.idem, n, sizes))
            == Some(Stage(image, true, |image.queues|, |image.jobs|, |image.idem|))
    decreases |sizes|
  {
    hide Encodable, Stage, AddList, ListPiece;
    if sizes != [] {
      KeysRoundTrip(image, n, sizes[0]);
      KeyChunksAdd(image, n + sizes[0], sizes[1..]);
      assert KeyChunks(image.idem, n, sizes)[1..] == KeyChunks(image.idem, n + sizes[0], sizes[1..]);
    }
  }

  lemma ContentsAdd(image: Image, split: Split)
    requires Encodable(image) && Splits(image, split)
    ensures AddChunks(BLANK, Contents(image, split)) ==
            Some(Stage(image, true, |image.queues|, |image.jobs|, |image.idem|))
  {
    hide Encodable, Stage, AddMeta, MetaPiece;
    var meta, jobs, keys := [Chunk(META, MetaPiece(image))], JobChunks(image.jobs, 0, split.jobs),
      KeyChunks(image.idem, 0, split.keys);
    MetaRoundTrip(image);
    assert AddChunks(BLANK, meta) == Some(Stage(image, true, |image.queues|, 0, 0));
    hide AddChunks;
    JobChunksAdd(image, 0, split.jobs);
    KeyChunksAdd(image, 0, split.keys);
    AddChunksAppend(BLANK, meta, jobs);
    AddChunksAppend(BLANK, meta + jobs, keys);
  }

  lemma {:induction false} JobChunkKinds(jobs: seq<JobImage>, n: nat, sizes: seq<nat>)
    requires n + Sum(sizes) == |jobs|
    ensures |JobChunks(jobs, n, sizes)| == |sizes| &&
            forall i | 0 <= i < |JobChunks(jobs, n, sizes)| :: JobChunks(jobs, n, sizes)[i].kind == JOBS
    decreases |sizes|
  {
    hide ListPiece, JobRows;
    if sizes != [] {
      JobChunkKinds(jobs, n + sizes[0], sizes[1..]);
      var rest := JobChunks(jobs, n + sizes[0], sizes[1..]);
      assert JobChunks(jobs, n, sizes) == [JobsChunk(jobs[n..n + sizes[0]])] + rest;
    }
  }

  lemma {:induction false} KeyChunkKinds(keys: seq<IdemEntry>, n: nat, sizes: seq<nat>)
    requires n + Sum(sizes) == |keys|
    ensures |KeyChunks(keys, n, sizes)| == |sizes| &&
            forall i | 0 <= i < |KeyChunks(keys, n, sizes)| :: KeyChunks(keys, n, sizes)[i].kind == KEYS
    decreases |sizes|
  {
    hide ListPiece, KeyRows;
    if sizes != [] {
      KeyChunkKinds(keys, n + sizes[0], sizes[1..]);
      var rest := KeyChunks(keys, n + sizes[0], sizes[1..]);
      assert KeyChunks(keys, n, sizes) == [KeysChunk(keys[n..n + sizes[0]])] + rest;
    }
  }

  lemma ContentKinds(image: Image, split: Split)
    requires Splits(image, split)
    ensures |Contents(image, split)| == 1 + |split.jobs| + |split.keys|
    ensures forall i | 0 <= i < |Contents(image, split)| :: Contents(image, split)[i].kind != END
  {
    hide JobChunks, KeyChunks, MetaPiece;
    JobChunkKinds(image.jobs, 0, split.jobs);
    KeyChunkKinds(image.idem, 0, split.keys);
  }

  lemma EndLoads(f: Format, image: Image, number: nat)
    requires Encodable(image) && 1 <= number < U64 - 1 && |EndChunk(number - 1, image).payload| <= MAX_PAYLOAD
    ensures LoadChunks(f, f.EncodeAll(Number([EndChunk(number - 1, image)], number)), number,
                       Stage(image, true, |image.queues|, |image.jobs|, |image.idem|))
            == Some(Described(image).(idem := ByExpiry(image.idem)))
  {
    hide Format.Parse, Format.Encode, PutFields, Finish;
    var totals := [Nat(number - 1), Nat(|image.jobs|), Nat(|image.idem|)];
    var end := EndChunk(number - 1, image);
    var rec := Rec(number, END, end.payload);
    var data := f.EncodeAll(Number([end], number));
    assert Number([end], number) == [rec];
    assert [rec][1..] == [] && f.Encode(rec) + [] == f.Encode(rec);
    assert f.EncodeAll([rec]) == f.Encode(rec) + f.EncodeAll([]);
    f.ParseIsEncode(data, rec);
    FieldsRoundTrip(totals, []);
    assert PutFields(totals) + [] == PutFields(totals);
    assert Kinds(totals) == COUNTERS;
    FinishRoundTrip(image);
  }

  lemma {:induction false} NumberAppend(x: seq<Chunk>, y: seq<Chunk>, first: nat)
    requires first + |x| + |y| < U64
    ensures Number(x + y, first) == Number(x, first) + Number(y, first + |x|)
  {
    if x == [] {
      assert x + y == y;
    } else {
      assert (x + y)[1..] == x[1..] + y && (x + y)[0] == x[0];
      NumberAppend(x[1..], y, first + 1);
    }
  }

  /** What write_snapshot() writes loads again, however the image is cut into chunks: the
      state that was captured, with its keys in order of expiry. */
  lemma SnapshotRoundTrip(f: Format, lsn: Lsn, created: Lsn, image: Image, split: Split)
    requires Encodable(image) && Splits(image, split) && |AllChunks(image, split)| + 1 < U64 &&
             AllFit(AllChunks(image, split))
    ensures LoadSnapshot(f, lsn, Saved(f, lsn, created, image, split)) ==
            Some(Described(image).(idem := ByExpiry(image.idem)))
  {
    hide Encodable, Contents, Stage, LoadChunks, HeaderOk, Number, Format.EncodeAll, EncodeHeader, EndChunk, Described;
    var contents := Contents(image, split);
    var n := |contents|;
    var end := EndChunk(n, image);
    var last := f.EncodeAll(Number([end], n + 1));
    var data := Saved(f, lsn, created, image, split);
    NumberAppend(contents, [end], 1);
    f.EncodeAllAppend(Number(contents, 1), Number([end], 1 + n));
    var body := f.EncodeAll(Number(contents, 1)) + last;
    assert data == EncodeHeader(f, lsn, created) + body;
    assert data[SNAPSHOT_HEADER..] == body;
    HeaderRoundTrip(f, lsn, created, body);
    ContentsAdd(image, split);
    ContentKinds(image, split);
    PartsFit(contents, end);
    LoadsThrough(f, contents, 1, BLANK, last);
    EndLoads(f, image, n + 1);
  }

  /** A file with a jobs chunk that ends where its count should be loads, since its totals
      count no jobs either. */
  lemma UnreadableCountLoads(f: Format, lsn: Lsn, created: Lsn)
    ensures var image := Image(1, 1, [], [], []);
            var chunks := [Chunk(META, MetaPiece(image)), Chunk(JOBS, [VERSION]), EndChunk(2, image)];
            LoadSnapshot(f, lsn, EncodeHeader(f, lsn, created) + f.EncodeAll(Number(chunks, 1))) == Some(EMPTY)
  {
    hide LoadChunks, HeaderOk, Format.EncodeAll, EncodeHeader, AddList, AddMeta, Number, PutFields;
    var image := Image(1, 1, [], [], []);
    var meta, bare, end := Chunk(META, MetaPiece(image)), Chunk(JOBS, [VERSION]), EndChunk(2, image);
    NumberAppend([meta, bare], [end], 1);
    f.EncodeAllAppend(Number([meta, bare], 1), Number([end], 3));
    assert [meta, bare] + [end] == [meta, bare, end];
    var last := f.EncodeAll(Number([end], 3));
    var body := f.EncodeAll(Number([meta, bare], 1)) + last;
    assert (EncodeHeader(f, lsn, created) + body)[SNAPSHOT_HEADER..] == body;
    HeaderRoundTrip(f, lsn, created, body);
    BareIsTaken(image);
    EmptyPieces(image);
    LoadsThrough(f, [meta, bare], 1, BLANK, last);
    EndLoads(f, image, 3);
    assert ByExpiry([]) == [];
  }

  lemma BareIsTaken(image: Image)
    requires image == Image(1, 1, [], [], [])
    ensures AddChunks(BLANK, [Chunk(META, MetaPiece(image)), Chunk(JOBS, [VERSION])]) ==
            Some(Stage(image, true, 0, 0, 0))
  {
    hide AddList, AddMeta, MetaPiece;
    var meta, bare, stage := Chunk(META, MetaPiece(image)), Chunk(JOBS, [VERSION]), Stage(image, true, 0, 0, 0);
    MetaRoundTrip(image);
    UnreadableCountPasses(JobEntry, stage);
    assert [meta, bare][1..] == [bare] && [bare][1..] == [];
    assert AddChunks(stage, []) == Some(stage);
    assert AddChunks(stage, [bare]) == Some(stage);
  }

  lemma EmptyPieces(image: Image)
    requires image == Image(1, 1, [], [], [])
    ensures |MetaPiece(image)| <= MAX_PAYLOAD && |EndChunk(2, image).payload| <= MAX_PAYLOAD &&
            Described(image) == EMPTY
  {
    hide PutVarint;
    EndIsShort(2, image);
    var a, b, c := Nat(1), Nat(1), Nat(0);
    assert [a, b, c] == [a] + ([b] + ([c] + []));
    OneField(a, [b] + ([c] + []));
    OneField(b, [c] + []);
    OneField(c, []);
    VarintIsShort(1);
    VarintIsShort(0);
  }

  lemma PartsFit(contents: seq<Chunk>, end: Chunk)
    requires AllFit(contents + [end])
    ensures AllFit(contents) && |end.payload| <= MAX_PAYLOAD
  {
    var all := contents + [end];
    assert forall i | 0 <= i < |contents| :: contents[i] == all[i];
    assert all[|contents|] == end;
  }

  // --- the chunks the writer makes -----------------------------------------------------------------------------

  function JobSizes(jobs: seq<JobImage>, start: nat): seq<nat>
    requires start <= |jobs|
    decreases |jobs| - start
  {
    if start == |jobs| then [] else var end := ChunkEnd(jobs, start, start, 0); [end - start] + JobSizes(jobs, end)
  }

  function KeySizes(n: nat, total: nat): seq<nat>
    requires n <= total
    decreases total - n
  {
    if n == total then []
    else var k := if total - n < ENTRIES_PER_CHUNK then total - n else ENTRIES_PER_CHUNK; [k] + KeySizes(n + k, total)
  }

  lemma {:induction false} JobSizesSum(jobs: seq<JobImage>, start: nat)
    requires start <= |jobs|
    ensures start + Sum(JobSizes(jobs, start)) == |jobs| && |JobSizes(jobs, start)| <= |jobs| - start
    decreases |jobs| - start
  {
    hide ChunkEnd;
    if start < |jobs| { JobSizesSum(jobs, ChunkEnd(jobs, start, start, 0)); }
  }

  lemma {:induction false} KeySizesSum(n: nat, total: nat)
    requires n <= total
    ensures n + Sum(KeySizes(n, total)) == total && |KeySizes(n, total)| <= total - n
    decreases total - n
  {
    if n < total { KeySizesSum(if total - n < ENTRIES_PER_CHUNK then total else n + ENTRIES_PER_CHUNK, total); }
  }

  /** Every chunk of keys is full, but for the last, which is not empty. */
  lemma {:induction false} KeySizesFill(n: nat, total: nat, i: nat)
    requires n <= total && i < |KeySizes(n, total)|
    ensures var sizes := KeySizes(n, total);
            if i < |sizes| - 1 then sizes[i] == ENTRIES_PER_CHUNK else 0 < sizes[i] <= ENTRIES_PER_CHUNK
    decreases total - n
  {
    if i > 0 { KeySizesFill(n + ENTRIES_PER_CHUNK, total, i - 1); }
  }

  function SplitOf(image: Image): (split: Split)
    ensures Splits(image, split) && |split.jobs| <= |image.jobs| && |split.keys| <= |image.idem|
  {
    JobSizesSum(image.jobs, 0);
    KeySizesSum(0, |image.idem|);
    Split(JobSizes(image.jobs, 0), KeySizes(0, |image.idem|))
  }

  /** An image whose chunks all fit: payloads and queues keep to their limits, and names, keys
      and messages to the bounds the Engine sets. */
  ghost predicate Writable(image: Image) {
    && Encodable(image) && |image.jobs| + |image.idem| < U64 - 4 && |image.queues| <= QUEUE_LIMIT
    && (forall i | 0 <= i < |image.queues| :: |image.queues[i].name| <= MAX_QUEUE_NAME)
    && (forall i | 0 <= i < |image.jobs| :: Bounded(image.jobs[i], PAYLOAD_LIMIT))
    && (forall i | 0 <= i < |image.idem| :: |image.idem[i].key| <= 256)
  }

  lemma {:induction false} JobChunksFit(jobs: seq<JobImage>, start: nat)
    requires start <= |jobs| && |jobs| < U64 && forall i | 0 <= i < |jobs| :: RowOk(jobs[i], PAYLOAD_LIMIT)
    ensures start + Sum(JobSizes(jobs, start)) == |jobs| && AllFit(JobChunks(jobs, start, JobSizes(jobs, start)))
    decreases |jobs| - start
  {
    hide ChunkEnd, RowOk, ListPiece, JobRows;
    JobSizesSum(jobs, start);
    if start < |jobs| {
      var end := ChunkEnd(jobs, start, start, 0);
      JobsChunkFits(jobs, start);
      JobChunksFit(jobs, end);
      var rest := JobChunks(jobs, end, JobSizes(jobs, end));
      assert JobSizes(jobs, start)[1..] == JobSizes(jobs, end);
      assert JobChunks(jobs, start, JobSizes(jobs, start)) == [JobsChunk(jobs[start..end])] + rest;
    }
  }

  lemma KeyRowSize(e: IdemEntry)
    requires KeyFits(e) && |e.key| <= 256
    ensures |PutFields(KeyFields(e))| <= 286
  {
    hide PutVarint, PutFields;
    var fs := KeyFields(e);
    assert fs == [fs[0]] + ([fs[1]] + ([fs[2]] + []));
    OneField(fs[0], [fs[1]] + ([fs[2]] + []));
    OneField(fs[1], [fs[2]] + []);
    OneField(fs[2], []);
    NoFields();
    VarintIsShort(|e.key|);
    VarintIsShort(e.jobId);
    VarintIsShort(ZigZag(e.expiresAt));
  }

  lemma {:induction false} KeyRowsSize(keys: seq<IdemEntry>)
    requires forall i | 0 <= i < |keys| :: KeyFits(keys[i]) && |keys[i].key| <= 256
    ensures |PutRows(KeyRows(keys))| <= 286 * |keys|
    decreases |keys|
  {
    hide KeyFits, KeyFields, PutFields;
    if keys != [] {
      KeyRowSize(keys[0]);
      KeyRowsSize(keys[1..]);
      assert KeyRows(keys)[1..] == KeyRows(keys[1..]);
    }
  }

  lemma {:induction false} KeyChunksFit(keys: seq<IdemEntry>, n: nat)
    requires n <= |keys| && |keys| < U64 && forall i | 0 <= i < |keys| :: KeyFits(keys[i]) && |keys[i].key| <= 256
    ensures n + Sum(KeySizes(n, |keys|)) == |keys| && AllFit(KeyChunks(keys, n, KeySizes(n, |keys|)))
    decreases |keys| - n
  {
    hide KeyFits, PutRows, PutVarint;
    KeySizesSum(n, |keys|);
    if n < |keys| {
      var end := if |keys| - n < ENTRIES_PER_CHUNK then |keys| else n + ENTRIES_PER_CHUNK;
      var chunk := keys[n..end];
      forall i | 0 <= i < |chunk| ensures KeyFits(chunk[i]) && |chunk[i].key| <= 256 { assert chunk[i] == keys[n + i]; }
      KeyRowsSize(chunk);
      VarintIsShort(|chunk|);
      KeyChunksFit(keys, end);
      var rest := KeyChunks(keys, end, KeySizes(end, |keys|));
      assert KeySizes(n, |keys|)[1..] == KeySizes(end, |keys|);
      assert KeyChunks(keys, n, KeySizes(n, |keys|)) == [KeysChunk(chunk)] + rest;
    }
  }

  /** Every chunk of a writable image fits into a record. */
  lemma EveryChunkFits(image: Image)
    requires Writable(image)
    ensures AllFit(AllChunks(image, SplitOf(image))) && |AllChunks(image, SplitOf(image))| + 1 < U64
  {
    hide Encodable, RowOk, MetaPiece, JobChunks, KeyChunks, KeySizes, JobSizes, PutFields;
    var split := SplitOf(image);
    KeysAreFit(image);
    WritableMeta(image);
    WritableRows(image);
    JobChunksFit(image.jobs, 0);
    KeyChunksFit(image.idem, 0);
    ContentKinds(image, split);
    EndIsShort(|Contents(image, split)|, image);
  }

  lemma EndIsShort(chunks: nat, image: Image)
    requires chunks < U64 && |image.jobs| < U64 && |image.idem| < U64
    ensures |EndChunk(chunks, image).payload| <= 30
  {
    hide PutVarint, PutFields;
    var a, b, c := Nat(chunks), Nat(|image.jobs|), Nat(|image.idem|);
    assert [a, b, c] == [a] + ([b] + ([c] + []));
    OneField(a, [b] + ([c] + []));
    OneField(b, [c] + []);
    OneField(c, []);
    NoFields();
    VarintIsShort(chunks);
    VarintIsShort(|image.jobs|);
    VarintIsShort(|image.idem|);
  }

  lemma WritableMeta(image: Image)
    requires Writable(image)
    ensures |MetaPiece(image)| <= MAX_PAYLOAD
  {
    hide MetaPiece, ImageJobOk, KeyOk;
    forall i | 0 <= i < |image.queues| ensures Named(image.queues[i]) { assert QueueOk(image.queues, i); }
    MetaFits(image);
  }

  /** The jobs of a writable image are within their widths: the number of queues is. */
  lemma WritableRows(image: Image)
    requires Writable(image)
    ensures forall i | 0 <= i < |image.jobs| :: RowOk(image.jobs[i], PAYLOAD_LIMIT)
  {
    hide QueueOk, KeyOk;
    forall i | 0 <= i < |image.jobs| ensures RowOk(image.jobs[i], PAYLOAD_LIMIT) { assert ImageJobOk(image, i); }
  }

  lemma KeysAreFit(image: Image)
    requires Encodable(image)
    ensures |image.jobs| < U64 && |image.idem| < U64 && forall i | 0 <= i < |image.idem| :: KeyFits(image.idem[i])
  {
    forall i | 0 <= i < |image.idem| ensures KeyFits(image.idem[i]) { assert KeyOk(image.idem, i); }
  }

  // --- the writer as it runs --------------------------------------------------------------------------------

  /** Appends chunks to a file through a bounded buffer. */
  class ChunkWriter {
    var file: Bytes
    var buffer: Bytes
    var sequence: nat
    var bytes: nat

    ghost predicate Valid()
      reads this
    {
      bytes == |file|
    }

    ghost function Written(): Bytes
      reads this
    {
      file + buffer
    }

    constructor ()
      ensures Valid() && Written() == [] && sequence == 0
    {
      file, buffer, sequence, bytes := [], [], 0, 0;
    }

    method Flush()
      requires Valid()
      modifies this
      ensures Valid() && Written() == old(Written()) && buffer == [] && sequence == old(sequence)
    {
      file := file + buffer;
      bytes := bytes + |buffer|;
      buffer := [];
      assert file + buffer == file;
    }

    method AddRaw(raw: Bytes)
      requires Valid()
      modifies this
      ensures Valid() && Written() == old(Written()) + raw && sequence == old(sequence)
    {
      ConcatAssociates(file, buffer, raw);
      buffer := buffer + raw;
    }

    method Add(f: Format, c: Chunk)
      requires Valid() && sequence + 1 < U64 && |c.payload| <= MAX_PAYLOAD
      modifies this
      ensures Valid() && sequence == old(sequence) + 1 && Written() ==
              old(Written()) + f.Encode(Rec(sequence, c.kind, c.payload))
    {
      hide Format.Encode;
      sequence := sequence + 1;
      AddRaw(f.Encode(Rec(sequence, c.kind, c.payload)));
      if |buffer| >= WRITE_BUFFER { Flush(); }
    }
  }

  /** One more chunk. */
  lemma EncodeNext(f: Format, done: seq<Chunk>, c: Chunk)
    requires |done| + 2 < U64
    ensures f.EncodeAll(Number(done + [c], 1)) == f.EncodeAll(Number(done, 1)) +
            f.Encode(Rec(|done| + 1, c.kind, c.payload))
  {
    hide Format.Encode;
    var rec := Rec(|done| + 1, c.kind, c.payload);
    NumberAppend(done, [c], 1);
    assert Number([c], 1 + |done|) == [rec];
    f.EncodeAllAppend(Number(done, 1), [rec]);
    assert [rec][1..] == [] && f.Encode(rec) + [] == f.Encode(rec);
    assert f.EncodeAll([rec]) == f.Encode(rec) + f.EncodeAll([]);
  }

  /** The chunks written so far, after the header. */
  ghost predicate Wrote(f: Format, w: ChunkWriter, header: Bytes, done: seq<Chunk>)
    reads w
  {
    w.Valid() && w.sequence == |done| && |done| + 2 < U64 && w.Written() == header + f.EncodeAll(Number(done, 1))
  }

  /** One chunk, unless it is too large for a record: there append_record() ends the process. */
  method WriteChunk(f: Format, w: ChunkWriter, c: Chunk, ghost header: Bytes, ghost done: seq<Chunk>)
    returns (alive: bool)
    requires Wrote(f, w, header, done) && |done| + 3 < U64
    modifies w
    ensures alive <==> |c.payload| <= MAX_PAYLOAD
    ensures alive ==> Wrote(f, w, header, done + [c])
  {
    hide Format.Encode, Format.EncodeAll, Number;
    if |c.payload| > MAX_PAYLOAD { return false; }
    EncodeNext(f, done, c);
    ConcatAssociates(header, f.EncodeAll(Number(done, 1)), f.Encode(Rec(|done| + 1, c.kind, c.payload)));
    w.Add(f, c);
    return true;
  }

  /** The chunks of a list that have been written, and those to come. */
  ghost predicate Progress(before: seq<Chunk>, done: seq<Chunk>, rest: seq<Chunk>, all: seq<Chunk>) {
    before <= done && done + rest == before + all && AllFit(done[|before|..])
  }

  lemma NextChunkGoes(before: seq<Chunk>, done: seq<Chunk>, c: Chunk, rest: seq<Chunk>, all: seq<Chunk>)
    requires Progress(before, done, [c] + rest, all)
    ensures if |c.payload| <= MAX_PAYLOAD then Progress(before, done + [c], rest, all) else !AllFit(all)
  {
    var k := |done| - |before|;
    assert (done + ([c] + rest))[|done|] == c && (before + all)[|done|] == all[k];
    assert done + [c] + rest == done + ([c] + rest);
    assert (done + [c])[|before|..] == done[|before|..] + [c];
  }

  lemma AllGone(before: seq<Chunk>, done: seq<Chunk>, all: seq<Chunk>)
    requires Progress(before, done, [], all)
    ensures done == before + all && AllFit(all)
  {
    assert done + [] == done && (before + all)[|before|..] == all;
  }

  lemma NothingGone(before: seq<Chunk>, all: seq<Chunk>)
    ensures Progress(before, before, all, all)
  {
  }

  method PickEnd(jobs: seq<JobImage>, start: nat) returns (end: nat)
    requires start <= |jobs|
    ensures end == ChunkEnd(jobs, start, start, 0)
  {
    end := start;
    var bytes: nat := 0;
    while end < |jobs| && end - start < ENTRIES_PER_CHUNK && bytes < TARGET_BYTES
      invariant start <= end <= |jobs| && ChunkEnd(jobs, start, end, bytes) == ChunkEnd(jobs, start, start, 0)
    {
      bytes := bytes + |jobs[end].job.payload| + 256;
      end := end + 1;
    }
  }

  /** The jobs, in chunks that end at the count limit or once they are big enough. */
  method WriteJobs(f: Format, w: ChunkWriter, jobs: seq<JobImage>, ghost header: Bytes, ghost before: seq<Chunk>)
    returns (alive: bool, ghost done: seq<Chunk>)
    requires Wrote(f, w, header, before) && |before| + |jobs| + 3 < U64
    modifies w
    ensures Sum(JobSizes(jobs, 0)) == |jobs| && (alive <==> AllFit(JobChunks(jobs, 0, JobSizes(jobs, 0))))
    ensures alive ==> done == before + JobChunks(jobs, 0, JobSizes(jobs, 0)) && Wrote(f, w, header, done)
  {
    hide Wrote, ListPiece, JobRows, JobSizes, JobChunks, ChunkEnd, Progress, AllFit;
    var start := 0;
    done := before;
    JobSizesSum(jobs, 0);
    ghost var all := JobChunks(jobs, 0, JobSizes(jobs, 0));
    NothingGone(before, all);
    while start < |jobs|
      invariant start <= |jobs| && Wrote(f, w, header, done) && |done| <= |before| + start
      invariant start + Sum(JobSizes(jobs, start)) == |jobs|
      invariant Progress(before, done, JobChunks(jobs, start, JobSizes(jobs, start)), all)
    {
      var end := PickEnd(jobs, start);
      NextJobsChunk(jobs, start, end);
      ghost var rest := JobChunks(jobs, end, JobSizes(jobs, end));
      NextChunkGoes(before, done, JobsChunk(jobs[start..end]), rest, all);
      alive := WriteChunk(f, w, JobsChunk(jobs[start..end]), header, done);
      if !alive { return; }
      done := done + [JobsChunk(jobs[start..end])];
      start := end;
    }
    NoMoreJobs(jobs);
    AllGone(before, done, all);
    alive := true;
  }

  lemma NoMoreJobs(jobs: seq<JobImage>)
    ensures Sum(JobSizes(jobs, |jobs|)) == 0 && JobChunks(jobs, |jobs|, JobSizes(jobs, |jobs|)) == []
  {
  }

  lemma NextJobsChunk(jobs: seq<JobImage>, start: nat, end: nat)
    requires start < |jobs| && end == ChunkEnd(jobs, start, start, 0)
    ensures start < end <= |jobs|
    ensures start + Sum(JobSizes(jobs, start)) == |jobs| && end + Sum(JobSizes(jobs, end)) == |jobs|
    ensures JobChunks(jobs, start, JobSizes(jobs, start)) ==
            [JobsChunk(jobs[start..end])] + JobChunks(jobs, end, JobSizes(jobs, end))
  {
    hide ChunkEnd, ListPiece, JobRows;
    JobSizesSum(jobs, start);
    JobSizesSum(jobs, end);
    assert JobSizes(jobs, start)[1..] == JobSizes(jobs, end);
  }

  /** The keys, in chunks of the count limit. */
  method WriteKeys(f: Format, w: ChunkWriter, keys: seq<IdemEntry>, ghost header: Bytes, ghost before: seq<Chunk>)
    returns (alive: bool, ghost done: seq<Chunk>)
    requires Wrote(f, w, header, before) && |before| + |keys| + 3 < U64
    modifies w
    ensures Sum(KeySizes(0, |keys|)) == |keys| && (alive <==> AllFit(KeyChunks(keys, 0, KeySizes(0, |keys|))))
    ensures alive ==> done == before + KeyChunks(keys, 0, KeySizes(0, |keys|)) && Wrote(f, w, header, done)
  {
    hide Wrote, ListPiece, KeyRows, KeySizes, KeyChunks, Progress, AllFit;
    var start := 0;
    done := before;
    KeySizesSum(0, |keys|);
    ghost var all := KeyChunks(keys, 0, KeySizes(0, |keys|));
    NothingGone(before, all);
    while start < |keys|
      invariant start <= |keys| && Wrote(f, w, header, done) && |done| <= |before| + start
      invariant start + Sum(KeySizes(start, |keys|)) == |keys|
      invariant Progress(before, done, KeyChunks(keys, start, KeySizes(start, |keys|)), all)
    {
      var end := start + if |keys| - start < ENTRIES_PER_CHUNK then |keys| - start else ENTRIES_PER_CHUNK;
      NextKeysChunk(keys, start, end);
      ghost var rest := KeyChunks(keys, end, KeySizes(end, |keys|));
      NextChunkGoes(before, done, KeysChunk(keys[start..end]), rest, all);
      alive := WriteChunk(f, w, KeysChunk(keys[start..end]), header, done);
      if !alive { return; }
      done := done + [KeysChunk(keys[start..end])];
      start := end;
    }
    NoMoreKeys(keys);
    AllGone(before, done, all);
    alive := true;
  }

  lemma NoMoreKeys(keys: seq<IdemEntry>)
    ensures Sum(KeySizes(|keys|, |keys|)) == 0 && KeyChunks(keys, |keys|, KeySizes(|keys|, |keys|)) == []
  {
  }

  lemma NextKeysChunk(keys: seq<IdemEntry>, start: nat, end: nat)
    requires start < |keys|
    requires end == start + (if |keys| - start < ENTRIES_PER_CHUNK then |keys| - start else ENTRIES_PER_CHUNK)
    ensures start + Sum(KeySizes(start, |keys|)) == |keys| && end + Sum(KeySizes(end, |keys|)) == |keys|
    ensures KeyChunks(keys, start, KeySizes(start, |keys|)) ==
            [KeysChunk(keys[start..end])] + KeyChunks(keys, end, KeySizes(end, |keys|))
  {
    hide ListPiece, KeyRows;
    KeySizesSum(start, |keys|);
    KeySizesSum(end, |keys|);
    assert KeySizes(start, |keys|)[1..] == KeySizes(end, |keys|);
  }

  lemma WroteMeans(f: Format, w: ChunkWriter, header: Bytes, done: seq<Chunk>)
    requires Wrote(f, w, header, done)
    ensures w.Valid() && w.sequence == |done| && |done| + 2 < U64 &&
            w.Written() == header + f.EncodeAll(Number(done, 1))
  {
  }

  lemma WroteNothing(f: Format, w: ChunkWriter, header: Bytes)
    requires w.Valid() && w.sequence == 0 && w.Written() == header
    ensures Wrote(f, w, header, [])
  {
    assert header + [] == header;
  }

  /** The file is written out if and only if every chunk fits into a record. */
  method WriteChunks(f: Format, w: ChunkWriter, image: Image, ghost header: Bytes) returns (alive: bool)
    requires |image.jobs| + |image.idem| < U64 - 4 && w.Valid() && w.sequence == 0 && w.Written() == header
    modifies w
    ensures |AllChunks(image, SplitOf(image))| + 1 < U64
    ensures alive <==> AllFit(AllChunks(image, SplitOf(image)))
    ensures alive ==> w.file == header + f.EncodeAll(Number(AllChunks(image, SplitOf(image)), 1))
  {
    hide Wrote, Format.EncodeAll, MetaPiece, JobChunks, KeyChunks, JobSizes, KeySizes, Number, PutFields, AllFit;
    ghost var split := SplitOf(image);
    ContentKinds(image, split);
    JobChunkKinds(image.jobs, 0, split.jobs);
    WroteNothing(f, w, header);
    var meta := Chunk(META, MetaPiece(image));
    FitsByParts(image, split);
    alive := WriteChunk(f, w, meta, header, []);
    if !alive { return; }
    assert [] + [meta] == [meta];
    ghost var done;
    alive, done := WriteJobs(f, w, image.jobs, header, [meta]);
    if !alive { return; }
    alive, done := WriteKeys(f, w, image.idem, header, done);
    if !alive { return; }
    assert done == Contents(image, split);
    WroteMeans(f, w, header, done);
    EndIsShort(|done|, image);
    alive := WriteChunk(f, w, EndChunk(w.sequence, image), header, done);
    WroteMeans(f, w, header, AllChunks(image, split));
    w.Flush();
    assert w.file + [] == w.file;
  }

  lemma FitsByParts(image: Image, split: Split)
    requires Splits(image, split) && |split.jobs| <= |image.jobs| && |split.keys| <= |image.idem|
    requires |image.jobs| + |image.idem| < U64 - 4
    ensures AllFit(AllChunks(image, split)) <==>
            && |MetaPiece(image)| <= MAX_PAYLOAD && AllFit(JobChunks(image.jobs, 0, split.jobs))
            && AllFit(KeyChunks(image.idem, 0, split.keys))
  {
    hide AllFit, MetaPiece, JobChunks, KeyChunks, PutFields;
    var meta, jobs, keys := [Chunk(META, MetaPiece(image))], JobChunks(image.jobs, 0, split.jobs),
      KeyChunks(image.idem, 0, split.keys);
    ContentKinds(image, split);
    EndIsShort(|Contents(image, split)|, image);
    var end := [EndChunk(|Contents(image, split)|, image)];
    FitsAppend(meta + jobs + keys, end);
    FitsAppend(meta + jobs, keys);
    FitsAppend(meta, jobs);
    FitsAlone(meta[0]);
    FitsAlone(end[0]);
  }

  lemma FitsAppend(a: seq<Chunk>, b: seq<Chunk>)
    ensures AllFit(a + b) <==> AllFit(a) && AllFit(b)
  {
    forall i | 0 <= i < |b| ensures (a + b)[|a| + i] == b[i] { }
    forall i | 0 <= i < |a| ensures (a + b)[i] == a[i] { }
  }

  lemma FitsAlone(c: Chunk)
    ensures AllFit([c]) <==> |c.payload| <= MAX_PAYLOAD
  {
    assert [c][0] == c;
  }

  /** write_snapshot(), up to the contents of the file; nothing is left if a chunk is too large
      for a record. */
  method WriteSnapshot(f: Format, lsn: Lsn, created: Lsn, image: Image) returns (file: Option<Bytes>)
    requires Encodable(image) && |image.jobs| + |image.idem| < U64 - 4
    ensures |AllChunks(image, SplitOf(image))| + 1 < U64
    ensures file == if AllFit(AllChunks(image, SplitOf(image))) then Some(Saved(f, lsn, created, image, SplitOf(image)))
                    else None
    ensures file.Some? ==> LoadSnapshot(f, lsn, file.value) == Some(Described(image).(idem := ByExpiry(image.idem)))
    ensures Writable(image) ==> file.Some?
  {
    hide Encodable, LoadSnapshot, Format.EncodeAll, AllChunks, EncodeHeader, SplitOf, Number, MetaPiece, RowOk,
         Described, AllFit, Writable;
    var w := new ChunkWriter();
    var header := EncodeHeader(f, lsn, created);
    w.AddRaw(header);
    assert [] + header == header;
    var alive := WriteChunks(f, w, image, header);
    if Writable(image) { EveryChunkFits(image); }
    if !alive { return None; }
    SnapshotRoundTrip(f, lsn, created, image, SplitOf(image));
    return Some(w.file);
  }

  // --- the reader as it runs ---------------------------------------------------------------------------------

  /** Sequential access to a file through a window that holds what has been read ahead. */
  class ChunkReader {
    const contents: Bytes
    var next: nat
    var buffer: Bytes
    var pos: nat

    ghost predicate Valid()
      reads this
    {
      next <= |contents| && pos <= |buffer|
    }

    /** What is still to come, in the window or not. */
    ghost function Unread(): Bytes
      requires Valid()
      reads this
    {
      buffer[pos..] + contents[next..]
    }

    constructor (file: Bytes)
      ensures Valid() && Unread() == file
    {
      contents, next, buffer, pos := file, 0, [], 0;
      new;
      assert file[0..] == file && [] + file == file;
    }

    /** A read gives any number of bytes up to the maximum; none only at the end. */
    method Read(max: nat) returns (got: nat)
      requires Valid() && max > 0
      modifies this
      ensures Valid() && got <= max && pos == old(pos) && Unread() == old(Unread())
      ensures next == old(next) + got && |buffer| == |old(buffer)| + got && (got == 0 <==> old(next) == |contents|)
    {
      var most := if max < |contents| - next then max else |contents| - next;
      got :| 0 <= got <= most && (got == 0 ==> most == 0);
      assert contents[next..] == contents[next..next + got] + contents[next + got..];
      assert (buffer + contents[next..next + got])[pos..] == buffer[pos..] + contents[next..next + got];
      ConcatAssociates(buffer[pos..], contents[next..next + got], contents[next + got..]);
      buffer := buffer + contents[next..next + got];
      next := next + got;
    }

    /** Makes n unread bytes available if the file has them. */
    method Ensure(n: nat) returns (have: bool)
      requires Valid()
      modifies this
      ensures Valid() && Unread() == old(Unread()) && have == (n <= |Unread()|) && (have ==> n <= |buffer| - pos)
    {
      while |buffer| - pos < n
        invariant Valid() && Unread() == old(Unread())
        decreases |contents| - next
      {
        if pos >= WRITE_BUFFER {
          assert buffer[pos..][0..] == buffer[pos..];
          buffer, pos := buffer[pos..], 0;
        }
        var got := Read(if READ_SIZE < n then n else READ_SIZE);
        if got == 0 { return false; }
      }
      return true;
    }

    function Peek(n: nat): (r: Bytes)
      requires Valid() && n <= |buffer| - pos
      reads this
      ensures r == Unread()[..n]
    {
      buffer[pos..pos + n]
    }

    method Consume(n: nat)
      requires Valid() && n <= |buffer| - pos
      modifies this
      ensures Valid() && Unread() == old(Unread())[n..]
    {
      assert buffer[pos..][n..] == buffer[pos + n..];
      pos := pos + n;
    }
  }

  /** A record is read from its own bytes alone. */
  lemma ParseIsLocal(f: Format, data: Bytes, total: nat)
    requires |data| >= RECORD_HEADER && total == RECORD_HEADER + Load(data[..4]) && Load(data[..4]) <= MAX_PAYLOAD &&
             total <= |data|
    ensures f.Parse(data[..total]) == f.Parse(data)
  {
    var cut := data[..total];
    assert cut[..4] == data[..4] && cut[4..8] == data[4..8] && cut[8..total] == data[8..total];
    assert cut[9..17] == data[9..17] && cut[17..total] == data[17..total];
  }

  lemma HeaderIsLocal(f: Format, lsn: nat, data: Bytes)
    requires |data| >= SNAPSHOT_HEADER
    ensures HeaderOk(f, lsn, data[..SNAPSHOT_HEADER]) == HeaderOk(f, lsn, data)
  {
    var cut := data[..SNAPSHOT_HEADER];
    assert cut[..8] == data[..8] && cut[..32] == data[..32] && cut[32..36] == data[32..36] &&
           cut[36..40] == data[36..40];
    assert cut[8..12] == data[8..12] && cut[16..24] == data[16..24];
  }

  /** The next whole record of the file, if it has one. */
  method NextChunk(f: Format, reader: ChunkReader) returns (p: Parsed)
    requires reader.Valid()
    modifies reader
    ensures reader.Valid() && reader.Unread() == old(reader.Unread())
    ensures p.Ok? <==> f.Parse(reader.Unread()).Ok?
    ensures p.Ok? ==> p == f.Parse(reader.Unread()) && p.size <= |reader.buffer| - reader.pos
  {
    ghost var data := reader.Unread();
    var have := reader.Ensure(RECORD_HEADER);
    if !have { return Truncated; }
    var head := reader.Peek(4);
    assert head == data[..4];
    var length := Load(head);
    if length > MAX_PAYLOAD { return BadLength; }
    have := reader.Ensure(RECORD_HEADER + length);
    if !have { return Truncated; }
    ParseIsLocal(f, data, RECORD_HEADER + length);
    p := f.Parse(reader.Peek(RECORD_HEADER + length));
  }

  /** load_snapshot(): chunk by chunk into a builder, through any window of reads. */
  method LoadFile(f: Format, lsn: nat, file: Bytes) returns (r: Option<Durable>)
    ensures r == LoadSnapshot(f, lsn, file)
  {
    hide Format.Parse, AddMeta, AddList, Finish, EndMatches, HeaderOk;
    var reader := new ChunkReader(file);
    var have := reader.Ensure(SNAPSHOT_HEADER);
    if !have {
      ShortHeader(f, lsn, file);
      return None;
    }
    HeaderIsLocal(f, lsn, file);
    if !HeaderOk(f, lsn, reader.Peek(SNAPSHOT_HEADER)) { return None; }
    reader.Consume(SNAPSHOT_HEADER);

    var builder := new StateBuilder();
    var number := 1;
    while true
      invariant number >= 1 && reader.Valid() && fresh(reader) && fresh(builder)
      invariant LoadSnapshot(f, lsn, file) == LoadChunks(f, reader.Unread(), number, builder.Built())
      decreases |reader.Unread()|
    {
      var p := NextChunk(f, reader);
      if !p.Ok? || p.rec.lsn != number { return None; }
      if p.rec.kind == END {
        if !EndMatches(p.rec.payload, number - 1, builder.Built()) { return None; }
        reader.Consume(p.size);
        var trailing := reader.Ensure(1);
        if trailing { return None; }
        return Finish(builder.Built());
      }
      var added := false;
      if p.rec.kind == META { added := builder.TakeMeta(p.rec.payload); }
      if p.rec.kind == JOBS { added := builder.TakeList(JobEntry, p.rec.payload); }
      if p.rec.kind == KEYS { added := builder.TakeList(KeyEntry, p.rec.payload); }
      if !added { return None; }
      reader.Consume(p.size);
      number := number + 1;
    }
  }

  lemma ShortHeader(f: Format, lsn: nat, data: Bytes)
    requires |data| < SNAPSHOT_HEADER
    ensures !HeaderOk(f, lsn, data)
  {
  }
}
