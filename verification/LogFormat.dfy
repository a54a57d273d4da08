/**
 The on-disk format of the durable log: segment headers and records as bytes.

 The checksum is a parameter. Nothing is assumed about it here, so whatever is
 proved of the log holds for every checksum; module Crc32c defines the real one.
 */
module LogFormat {

  type Byte = n: int | 0 <= n < 0x100
  type Bytes = seq<Byte>
  type Word = n: int | 0 <= n < 0x1_0000_0000
  type Lsn = n: int | 0 <= n < 0x1_0000_0000_0000_0000

  const SEGMENT_HEADER: nat := 32
  const RECORD_HEADER: nat := 17
  const MAX_PAYLOAD: nat := 0x401_0000
  const FORMAT_VERSION: nat := 1
  const MAGIC: Bytes := [0x42, 0x41, 0x54, 0x4F, 0x4E, 0x4C, 0x4F, 0x47]

  datatype Rec = Rec(lsn: Lsn, kind: Byte, payload: Bytes)

  datatype Parsed =
    | Ok(rec: Rec, size: nat)
    | EndOfData
    | Truncated
    | BadLength
    | BadCrc

  datatype Header = First(lsn: Lsn) | Corrupt | Unsupported

  // --- little-endian integers ------------------------------------------------------

  function Pow256(n: nat): nat {
    if n == 0 then 1 else 256 * Pow256(n - 1)
  }

  /** The n low bytes of v, least significant first. */
  function Store(v: nat, n: nat): (r: Bytes)
    ensures |r| == n
  {
    if n == 0 then [] else [v % 256] + Store(v / 256, n - 1)
  }

  function Load(data: Bytes): (v: nat)
    ensures v < Pow256(|data|)
  {
    if data == [] then 0 else data[0] + 256 * Load(data[1..])
  }

  lemma {:induction false} LoadStore(v: nat, n: nat)
    requires v < Pow256(n)
    ensures Load(Store(v, n)) == v
  {
    if n > 0 {
      LoadStore(v / 256, n - 1);
      assert Store(v, n)[1..] == Store(v / 256, n - 1);
    }
  }

  lemma {:induction false} StoreLoad(data: Bytes)
    ensures Store(Load(data), |data|) == data
  {
    if data != [] {
      StoreLoad(data[1..]);
      assert (data[0] + 256 * Load(data[1..])) % 256 == data[0];
      assert (data[0] + 256 * Load(data[1..])) / 256 == Load(data[1..]);
    }
  }

  lemma Powers()
    ensures Pow256(4) == 0x1_0000_0000
    ensures Pow256(8) == 0x1_0000_0000_0000_0000
  {
    assert Pow256(2) == 0x1_0000;
    assert Pow256(4) == 256 * (256 * Pow256(2));
    assert Pow256(6) == 256 * (256 * Pow256(4));
    assert Pow256(8) == 256 * (256 * Pow256(6));
  }

  lemma ConcatAssociates(a: Bytes, b: Bytes, c: Bytes)
    ensures a + b + c == a + (b + c)
  {
  }

  /** The format for one choice of checksum. */
  datatype Format = Format(crc: Bytes -> Word) {

    // --- records ---------------------------------------------------------------------

    /** What follows the checksum field of a record. */
    static function Body(r: Rec): Bytes {
      [r.kind] + Store(r.lsn, 8) + r.payload
    }

    /** The checksum covers the length field and everything after the checksum. */
    function Encode(r: Rec): (data: Bytes)
      ensures |data| == RECORD_HEADER + |r.payload|
    {
      var length := Store(|r.payload|, 4);
      length + Store(crc(length + Body(r)), 4) + Body(r)
    }

    function Parse(data: Bytes): (p: Parsed)
      ensures p.Ok? ==> p.size == RECORD_HEADER + |p.rec.payload| <= |data|
      ensures p == EndOfData <==> data == []
    {
      if data == [] then EndOfData
      else if |data| < RECORD_HEADER then Truncated
      else
        var length := Load(data[..4]);
        if length > MAX_PAYLOAD then BadLength
        else
          var total := RECORD_HEADER + length;
          if |data| < total then Truncated
          else if Load(data[4..8]) != crc(data[..4] + data[8..total]) then BadCrc
          else
            Powers();
            Ok(Rec(Load(data[9..17]), data[8], data[17..total]), total)
    }

    /** Parsing succeeds exactly on what encoding produced: the record is the one whose
        encoding the data starts with. */
    lemma ParseIsEncode(data: Bytes, r: Rec)
      ensures Parse(data) == Ok(r, RECORD_HEADER + |r.payload|)
              <==> |r.payload| <= MAX_PAYLOAD && Encode(r) <= data
    {
      if |r.payload| <= MAX_PAYLOAD && Encode(r) <= data { ParseOfEncode(data, r); }
      if Parse(data) == Ok(r, RECORD_HEADER + |r.payload|) { EncodeOfParse(data, r); }
    }

    lemma ParseOfEncode(data: Bytes, r: Rec)
      requires |r.payload| <= MAX_PAYLOAD && Encode(r) <= data
      ensures Parse(data) == Ok(r, RECORD_HEADER + |r.payload|)
    {
      var total := RECORD_HEADER + |r.payload|;
      var length, body := Store(|r.payload|, 4), Body(r);
      var sum := Store(crc(length + body), 4);
      assert data[..total] == length + sum + body;
      assert data[..4] == data[..total][..4] == length;
      assert data[4..8] == data[..total][4..8] == sum;
      assert data[8..total] == data[..total][8..] == body;
      assert data[8] == body[0];
      assert data[9..17] == body[1..9] == Store(r.lsn, 8);
      assert data[17..total] == body[9..] == r.payload;
      Powers();
      LoadStore(|r.payload|, 4);
      LoadStore(crc(length + body), 4);
      LoadStore(r.lsn, 8);
    }

    lemma EncodeOfParse(data: Bytes, r: Rec)
      requires Parse(data) == Ok(r, RECORD_HEADER + |r.payload|)
      ensures |r.payload| <= MAX_PAYLOAD && Encode(r) <= data
    {
      var total := RECORD_HEADER + |r.payload|;
      StoreLoad(data[..4]);
      StoreLoad(data[4..8]);
      StoreLoad(data[9..17]);
      assert data[8..total] == [data[8]] + data[9..17] + data[17..total] == Body(r);
      assert data[..total] == data[..4] + data[4..8] + data[8..total];
    }

    /** A record cut short is recognized as such. */
    lemma ParseCutShort(r: Rec, k: nat)
      requires |r.payload| <= MAX_PAYLOAD && 0 < k < |Encode(r)|
      ensures Parse(Encode(r)[..k]) == Truncated
    {
      if RECORD_HEADER <= k {
        Powers();
        assert Encode(r)[..k][..4] == Store(|r.payload|, 4);
        LoadStore(|r.payload|, 4);
      }
    }

    function EncodeAll(rs: seq<Rec>): Bytes {
      if rs == [] then [] else Encode(rs[0]) + EncodeAll(rs[1..])
    }

    lemma {:induction false} EncodeAllAppend(a: seq<Rec>, b: seq<Rec>)
      ensures EncodeAll(a + b) == EncodeAll(a) + EncodeAll(b)
    {
      if a == [] {
        assert a + b == b;
      } else {
        EncodeAllAppend(a[1..], b);
        assert (a + b)[1..] == a[1..] + b;
        ConcatAssociates(Encode(a[0]), EncodeAll(a[1..]), EncodeAll(b));
      }
    }

    // --- segment headers -----------------------------------------------------------

    static function HeaderFields(first: Lsn): (data: Bytes)
      ensures |data| == 24
    {
      MAGIC + Store(FORMAT_VERSION, 4) + Store(0, 4) + Store(first, 8)
    }

    function EncodeHeader(first: Lsn): (data: Bytes)
      ensures |data| == SEGMENT_HEADER
    {
      HeaderFields(first) + Store(crc(HeaderFields(first)), 4) + Store(0, 4)
    }

    /** A garbled header is corrupt; an intact one of another version is unsupported. */
    function ParseHeader(data: Bytes): (h: Header)
      ensures h.First? ==> |data| >= SEGMENT_HEADER && h.lsn > 0
    {
      if |data| < SEGMENT_HEADER || data[..8] != MAGIC then Corrupt
      else if Load(data[24..28]) != crc(data[..24]) then Corrupt
      else if Load(data[8..12]) != FORMAT_VERSION then Unsupported
      else
        Powers();
        var first: Lsn := Load(data[16..24]);
        if first == 0 then Corrupt else First(first)
    }

    lemma HeaderRoundTrip(first: Lsn, rest: Bytes)
      requires first > 0
      ensures ParseHeader(EncodeHeader(first) + rest) == First(first)
    {
      var data := EncodeHeader(first) + rest;
      Powers();
      assert data[..24] == HeaderFields(first);
      assert data[..8] == MAGIC;
      assert data[8..12] == Store(FORMAT_VERSION, 4);
      assert data[16..24] == Store(first, 8);
      assert data[24..28] == Store(crc(HeaderFields(first)), 4);
      LoadStore(FORMAT_VERSION, 4);
      LoadStore(first, 8);
      LoadStore(crc(HeaderFields(first)), 4);
    }

    /** The header is read from the first 32 bytes alone. */
    lemma HeaderIsLocal(a: Bytes, b: Bytes)
      requires |a| >= SEGMENT_HEADER && |b| >= SEGMENT_HEADER && a[..SEGMENT_HEADER] == b[..SEGMENT_HEADER]
      ensures ParseHeader(a) == ParseHeader(b)
    {
      var h := a[..SEGMENT_HEADER];
      assert a[..8] == h[..8] == b[..8];
      assert a[..24] == h[..24] == b[..24];
      assert a[8..12] == h[8..12] == b[8..12];
      assert a[16..24] == h[16..24] == b[16..24];
      assert a[24..28] == h[24..28] == b[24..28];
    }
  }
}
