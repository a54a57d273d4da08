/**
 What a snapshot file that loads must be, and the damage that keeps a file from loading.
 */
module SnapshotDamage {
  import opened Wrappers
  import opened Jobs
  import opened LogFormat
  import opened Images
  import opened SnapshotFiles
  import opened CrcErrors

  // --- the files that load ------------------------------------------------------------------------------

  function ChunksOf(recs: seq<Rec>): (r: seq<Chunk>)
    ensures |r| == |recs|
  {
    if recs == [] then [] else [Chunk(recs[0].kind, recs[0].payload)] + ChunksOf(recs[1..])
  }

  /** Intact records, numbered in a row, the last of which and no other is an end chunk. */
  ghost predicate WellNumbered(recs: seq<Rec>, number: nat) {
    && recs != []
    && (forall i | 0 <= i < |recs| :: recs[i].lsn == number + i && |recs[i].payload| <= MAX_PAYLOAD)
    && (forall i | 0 <= i < |recs| :: recs[i].kind == END <==> i == |recs| - 1)
  }

  /** The chunks before the end chunk build d on top of b, and the end chunk counts them right. */
  ghost predicate Builds(recs: seq<Rec>, number: nat, b: Builder, d: Durable)
    requires recs != [] && number >= 1
  {
    var n := |recs| - 1;
    var built := AddChunks(b, ChunksOf(recs[..n]));
    built.Some? && EndMatches(recs[n].payload, number - 1 + n, built.value) && Finish(built.value) == Some(d)
  }

  ghost predicate Framed(f: Format, data: Bytes, number: nat, b: Builder, d: Durable, recs: seq<Rec>)
    requires number >= 1
  {
    WellNumbered(recs, number) && data == f.EncodeAll(recs) && Builds(recs, number, b, d)
  }

  lemma {:induction false} FramedLoads(f: Format, data: Bytes, number: nat, b: Builder, d: Durable, recs: seq<Rec>)
    requires number >= 1 && Framed(f, data, number, b, d, recs)
    ensures LoadChunks(f, data, number, b) == Some(d)
    decreases |recs|
  {
    hide Format.Parse, Format.Encode, AddChunk, Finish, EndMatches;
    f.ParseIsEncode(data, recs[0]);
    var size := RECORD_HEADER + |recs[0].payload|;
    if |recs| == 1 {
      assert recs[..0] == [];
      assert recs[1..] == [];
      assert |data| == size;
    } else {
      assert data[size..] == f.EncodeAll(recs[1..]);
      Behind(recs, number, b, d);
      FramedLoads(f, data[size..], number + 1, AddChunk(b, recs[0].kind, recs[0].payload).value, d, recs[1..]);
    }
  }

  lemma Behind(recs: seq<Rec>, number: nat, b: Builder, d: Durable)
    requires number >= 1 && WellNumbered(recs, number) && |recs| > 1
    ensures WellNumbered(recs[1..], number + 1)
    ensures var next := AddChunk(b, recs[0].kind, recs[0].payload);
            Builds(recs, number, b, d) <==> next.Some? && Builds(recs[1..], number + 1, next.value, d)
  {
    hide AddChunk, Finish, EndMatches;
    var rest, n := recs[1..], |recs| - 1;
    assert recs[..n][1..] == rest[..n - 1];
    assert ChunksOf(recs[..n])[1..] == ChunksOf(rest[..n - 1]);
  }

  lemma {:induction false} LoadedIsFramed(f: Format, data: Bytes, number: nat, b: Builder) returns (recs: seq<Rec>)
    requires number >= 1 && LoadChunks(f, data, number, b).Some?
    ensures Framed(f, data, number, b, LoadChunks(f, data, number, b).value, recs)
    decreases |data|
  {
    hide Format.Parse, Format.Encode, AddChunk, Finish, EndMatches;
    var p := f.Parse(data);
    f.ParseIsEncode(data, p.rec);
    var d := LoadChunks(f, data, number, b).value;
    if p.rec.kind == END {
      recs := [p.rec];
      assert recs[..0] == [] && recs[1..] == [];
      assert f.EncodeAll(recs) == f.Encode(p.rec) + [];
      assert data == f.Encode(p.rec);
    } else {
      var next := AddChunk(b, p.rec.kind, p.rec.payload);
      var rest := LoadedIsFramed(f, data[p.size..], number + 1, next.value);
      recs := [p.rec] + rest;
      assert recs[1..] == rest;
      assert data == f.Encode(p.rec) + data[p.size..];
      InFront(p.rec, rest, number);
      Behind(recs, number, b, d);
    }
  }

  lemma InFront(first: Rec, rest: seq<Rec>, number: nat)
    requires WellNumbered(rest, number + 1)
    requires first.lsn == number && |first.payload| <= MAX_PAYLOAD && first.kind != END
    ensures WellNumbered([first] + rest, number)
  {
    var recs := [first] + rest;
    forall i | 0 <= i < |recs|
      ensures recs[i].lsn == number + i && |recs[i].payload| <= MAX_PAYLOAD &&
              (recs[i].kind == END <==> i == |recs| - 1)
    {
      if i > 0 { assert recs[i] == rest[i - 1]; }
    }
  }

  /** A file loads as d exactly if its header is intact and has the number in the file's name, and the
      rest is the chunks that build d, numbered from one, and one end chunk that counts them. */
  lemma LoadsIff(f: Format, lsn: nat, data: Bytes, d: Durable)
    ensures LoadSnapshot(f, lsn, data) == Some(d)
            <==> HeaderOk(f, lsn, data) && exists recs :: Framed(f, data[SNAPSHOT_HEADER..], 1, BLANK, d, recs)
  {
    hide HeaderOk, LoadChunks, Framed;
    if HeaderOk(f, lsn, data) {
      HeaderIsLong(f, lsn, data);
      var body := data[SNAPSHOT_HEADER..];
      if LoadSnapshot(f, lsn, data) == Some(d) {
        var recs := LoadedIsFramed(f, body, 1, BLANK);
      }
      if recs :| Framed(f, body, 1, BLANK, d, recs) {
        FramedLoads(f, body, 1, BLANK, d, recs);
      }
    }
  }

  lemma HeaderIsLong(f: Format, lsn: nat, data: Bytes)
    requires HeaderOk(f, lsn, data)
    ensures |data| >= SNAPSHOT_HEADER
  {
  }

  /** A file loads under one name only. */
  lemma OneName(f: Format, lsn: nat, other: nat, data: Bytes)
    requires LoadSnapshot(f, lsn, data).Some? && other != lsn
    ensures LoadSnapshot(f, other, data).None?
  {
  }

  // --- records taken from a file and put together otherwise --------------------------------------------------

  /** The bytes tell which records they are. */
  lemma {:induction false} EncodedOnce(f: Format, a: seq<Rec>, b: seq<Rec>)
    requires forall i | 0 <= i < |a| :: |a[i].payload| <= MAX_PAYLOAD
    requires forall i | 0 <= i < |b| :: |b[i].payload| <= MAX_PAYLOAD
    requires f.EncodeAll(a) == f.EncodeAll(b)
    ensures a == b
    decreases |a|
  {
    hide Format.Parse, Format.Encode;
    var data := f.EncodeAll(a);
    if a == [] || b == [] {
      assert |a| > 0 ==> |data| >= RECORD_HEADER;
      assert |b| > 0 ==> |data| >= RECORD_HEADER;
    } else {
      f.ParseIsEncode(data, a[0]);
      f.ParseIsEncode(data, b[0]);
      assert a[0] == b[0];
      var size := RECORD_HEADER + |a[0].payload|;
      assert data[size..] == f.EncodeAll(a[1..]) && data[size..] == f.EncodeAll(b[1..]);
      EncodedOnce(f, a[1..], b[1..]);
      assert a == [a[0]] + a[1..] && b == [b[0]] + b[1..];
    }
  }

  lemma LoadedIsNumbered(f: Format, lsn: nat, header: Bytes, recs: seq<Rec>)
    requires |header| == SNAPSHOT_HEADER && forall i | 0 <= i < |recs| :: |recs[i].payload| <= MAX_PAYLOAD
    requires LoadSnapshot(f, lsn, header + f.EncodeAll(recs)).Some?
    ensures WellNumbered(recs, 1)
  {
    hide HeaderOk, LoadChunks, Format.Encode, Format.EncodeAll, Builds;
    var data := header + f.EncodeAll(recs);
    assert data[SNAPSHOT_HEADER..] == f.EncodeAll(recs);
    var all := LoadedIsFramed(f, f.EncodeAll(recs), 1, BLANK);
    EncodedOnce(f, recs, all);
  }

  /** Leaving out, repeating or moving records of a file that loads gives one that does not,
      whatever its header and its name. */
  lemma RearrangedIsRefused(f: Format, lsn: nat, header: Bytes, recs: seq<Rec>, name: nat, head: Bytes,
                            picked: seq<Rec>)
    requires |header| == |head| == SNAPSHOT_HEADER
    requires LoadSnapshot(f, lsn, header + f.EncodeAll(recs)).Some?
    requires forall i | 0 <= i < |recs| :: |recs[i].payload| <= MAX_PAYLOAD
    requires (forall i | 0 <= i < |picked| :: picked[i] in recs) && picked != recs
    ensures LoadSnapshot(f, name, head + f.EncodeAll(picked)).None?
  {
    hide *;
    LoadedIsNumbered(f, lsn, header, recs);
    if LoadSnapshot(f, name, head + f.EncodeAll(picked)).Some? {
      LoadedIsNumbered(f, name, head, picked);
      SameRow(recs, picked);
    }
  }

  lemma SameRow(recs: seq<Rec>, picked: seq<Rec>)
    requires WellNumbered(recs, 1) && WellNumbered(picked, 1)
    requires forall i | 0 <= i < |picked| :: picked[i] in recs
    ensures picked == recs
  {
    forall i | 0 <= i < |picked| ensures i < |recs| && picked[i] == recs[i] {
      var j :| 0 <= j < |recs| && recs[j] == picked[i];
      assert recs[j].lsn == 1 + j && picked[i].lsn == 1 + i;
    }
    var last := |picked| - 1;
    var j :| 0 <= j < |recs| && recs[j] == picked[last];
    assert recs[j].lsn == 1 + j && picked[last].lsn == 1 + last;
  }

  // --- flipped bytes --------------------------------------------------------------------------------------

  /** The i-th byte is one of the four that give the length of a record. */
  ghost predicate InLength(data: Bytes, i: nat)
    decreases |data|
  {
    var p := FORMAT.Parse(data);
    p.Ok? && (i < 4 || (i >= p.size && InLength(data[p.size..], i - p.size)))
  }

  lemma {:induction false} FlippedChunk(data: Bytes, data': Bytes, i: nat, number: nat, b: Builder)
    requires number >= 1 && LoadChunks(FORMAT, data, number, b).Some?
    requires DifferAt(data, data', i, 1) && !InLength(data, i)
    ensures LoadChunks(FORMAT, data', number, b).None?
    decreases |data|
  {
    hide Format.Parse, AddChunk, Finish, EndMatches;
    var p := FORMAT.Parse(data);
    if i < p.size {
      DamagedRecord(data, data', i, 1);
    } else {
      SameFirst(data, data', i);
      var rest, rest' := data[p.size..], data'[p.size..];
      assert p.rec.kind != END;
      RestDiffers(data, data', i, p.size);
      FlippedChunk(rest, rest', i - p.size, number + 1, AddChunk(b, p.rec.kind, p.rec.payload).value);
    }
  }

  lemma RestDiffers(data: Bytes, data': Bytes, i: nat, size: nat)
    requires DifferAt(data, data', i, 1) && size <= i
    ensures DifferAt(data[size..], data'[size..], i - size, 1)
  {
    SamePart(data, data', i, 1, 0, size);
    SamePart(data, data', i, 1, size, i);
    SamePart(data, data', i, 1, i + 1, |data|);
    var x, y := data[size..], data'[size..];
    assert data == data[0..size] + x && data' == data'[0..size] + y;
    assert x[..i - size] == data[size..i] && y[..i - size] == data'[size..i];
    assert x[i - size + 1..] == data[i + 1..|data|] && y[i - size + 1..] == data'[i + 1..|data|];
  }

  /** A record is read from its own bytes alone. */
  lemma SameFirst(data: Bytes, data': Bytes, i: nat)
    requires FORMAT.Parse(data).Ok? && DifferAt(data, data', i, 1) && FORMAT.Parse(data).size <= i
    ensures FORMAT.Parse(data') == FORMAT.Parse(data)
  {
    hide Format.Parse, Format.Encode;
    var p := FORMAT.Parse(data);
    FORMAT.ParseIsEncode(data, p.rec);
    SamePart(data, data', i, 1, 0, p.size);
    assert data[0..p.size] == data[..p.size] && data'[0..p.size] == data'[..p.size];
    FORMAT.ParseIsEncode(data', p.rec);
  }

  lemma FlippedHeader(lsn: nat, data: Bytes, data': Bytes, i: nat)
    requires HeaderOk(FORMAT, lsn, data) && DifferAt(data, data', i, 1) && i < SNAPSHOT_HEADER
    ensures !HeaderOk(FORMAT, lsn, data')
  {
    hide Checksum;
    if i < 32 {
      SamePart(data, data', i, 1, 32, 36);
      SamePart(data, data', i, 1, 0, i);
      SamePart(data, data', i, 1, i + 1, 32);
      SamePart(data, data', i, 1, i + 1, |data|);
      var a, b := data[0..i], data[i + 1..32];
      assert data[..32] == a + [data[i]] + b && data'[..32] == a + [data'[i]] + b;
      assert data == data[0..i] + [data[i]] + data[i + 1..|data|];
      assert data' == data'[0..i] + [data'[i]] + data'[i + 1..|data|];
      ChecksumSees(a, [data[i]], [data'[i]], b);
    } else {
      var from := if i < 36 then 32 else 36;
      SamePart(data, data', i, 1, 0, 32);
      assert data[..32] == data[0..32] && data'[..32] == data'[0..32];
      SamePart(data, data', i, 1, 0, from);
      SamePart(data, data', i, 1, from + 4, |data|);
      FourTell(data, data', from);
    }
  }

  lemma FourTell(data: Bytes, data': Bytes, from: nat)
    requires |data| == |data'| && from + 4 <= |data| && data != data'
    requires data[0..from] == data'[0..from] && data[from + 4..|data|] == data'[from + 4..|data|]
    ensures Load(data[from..from + 4]) != Load(data'[from..from + 4])
  {
    StoreLoad(data[from..from + 4]);
    StoreLoad(data'[from..from + 4]);
    assert data == data[0..from] + data[from..from + 4] + data[from + 4..|data|];
    assert data' == data'[0..from] + data'[from..from + 4] + data'[from + 4..|data|];
  }

  /** With the checksum the files have, changing one byte of a snapshot that loads, wherever it is but
      in the length of a chunk, gives a file that does not load. */
  lemma FlippedByteIsRefused(lsn: nat, data: Bytes, data': Bytes, i: nat)
    requires LoadSnapshot(FORMAT, lsn, data).Some? && DifferAt(data, data', i, 1)
    requires i >= SNAPSHOT_HEADER ==> !InLength(data[SNAPSHOT_HEADER..], i - SNAPSHOT_HEADER)
    ensures LoadSnapshot(FORMAT, lsn, data').None?
  {
    hide HeaderOk, LoadChunks;
    HeaderIsLong(FORMAT, lsn, data);
    if i < SNAPSHOT_HEADER {
      FlippedHeader(lsn, data, data', i);
    } else {
      RestDiffers(data, data', i, SNAPSHOT_HEADER);
      FlippedChunk(data[SNAPSHOT_HEADER..], data'[SNAPSHOT_HEADER..], i - SNAPSHOT_HEADER, 1, BLANK);
    }
  }
}
