/**
 What the checksum is worth: two strings that differ only within four adjacent bytes never
 have the same CRC32C, so such damage to a log record never goes unseen.
 */
module CrcErrors {
  import opened LogFormat
  import opened LogRecovery
  import opened LogDisk
  import opened LogDamage
  import C = Crc32c

  // --- the register loses nothing --------------------------------------------------------------------

  lemma BitIsInjective(a: bv32, b: bv32)
    requires C.Bit(a) == C.Bit(b)
    ensures a == b
  {
  }

  lemma {:induction false} BitsAreInjective(a: bv32, b: bv32, n: nat)
    requires C.Bits(a, n) == C.Bits(b, n)
    ensures a == b
  {
    hide C.Bit;
    if n > 0 {
      BitIsInjective(C.Bits(a, n - 1), C.Bits(b, n - 1));
      BitsAreInjective(a, b, n - 1);
    }
  }

  lemma XorIsInjective(a: bv32, b: bv32, c: bv32)
    requires C.Xor(a, c) == C.Xor(b, c) || C.Xor(c, a) == C.Xor(c, b)
    ensures a == b
  {
  }

  lemma {:induction false} RegisterIsInjective(a: bv32, b: bv32, data: seq<bv8>)
    requires C.Register(a, data) == C.Register(b, data)
    ensures a == b
  {
    hide C.Bits, C.Xor, C.Word;
    if data != [] {
      var rest, last := data[..|data| - 1], C.Word(data[|data| - 1]);
      BitsAreInjective(C.Xor(C.Register(a, rest), last), C.Xor(C.Register(b, rest), last), 8);
      XorIsInjective(C.Register(a, rest), C.Register(b, rest), last);
      RegisterIsInjective(a, b, rest);
    }
  }

  // --- four bytes as a word --------------------------------------------------------------------------

  function Pack(a: bv8, b: bv8, c: bv8, d: bv8): bv32 {
    (a as bv32) | ((b as bv32) << 8) | ((c as bv32) << 16) | ((d as bv32) << 24)
  }

  lemma PackedBytes(a: bv8, b: bv8, c: bv8, d: bv8)
    ensures C.LowByte(Pack(a, b, c, d)) == a && C.LowByte(C.Down(Pack(a, b, c, d))) == b
    ensures C.LowByte(C.Down(C.Down(Pack(a, b, c, d)))) == c
    ensures C.LowByte(C.Down(C.Down(C.Down(Pack(a, b, c, d))))) == d
  {
  }

  lemma PackedSum(w: bv32)
    ensures C.Bits(w, 32) == C.Sum(C.Bytes4(w))
  {
    var d := C.Down(w);
    var e := C.Down(d);
    var f := C.Down(e);
    var s3: seq<bv8> := [C.LowByte(f)] + [];
    var s2 := [C.LowByte(e)] + s3;
    var s1 := [C.LowByte(d)] + s2;
    assert C.Bytes4(w) == [C.LowByte(w)] + s1;
    C.DownFour(w);
    C.EmptySum();
    hide C.Xor, C.Down, C.LowByte, C.Word, C.Bit, C.Bytes4, C.Sum;
    C.ZeroBits(0);
    C.NextByte(f, [], 8);
    C.NextByte(e, s3, 16);
    C.NextByte(d, s2, 24);
    C.NextByte(w, s1, 32);
  }

  /** Four bytes go through the register like their word added to it and then 32 bits of nothing. */
  lemma FourAtOnce(c: bv32, data: seq<bv8>)
    requires |data| == 4
    ensures C.Register(c, data) == C.Bits(C.Xor(c, Pack(data[0], data[1], data[2], data[3])), 32)
  {
    var w := Pack(data[0], data[1], data[2], data[3]);
    PackedBytes(data[0], data[1], data[2], data[3]);
    assert C.Bytes4(w) == data;
    hide C.Xor, C.Bits, C.Register, C.Sum, C.Bytes4, Pack;
    C.RegisterIsLinear(c, data);
    C.RegisterIsSum(data);
    PackedSum(w);
    C.BitsAreLinear(c, w, 32);
  }

  lemma FourAreInjective(c: bv32, w: seq<bv8>, w': seq<bv8>)
    requires |w| == |w'| == 4 && C.Register(c, w) == C.Register(c, w')
    ensures w == w'
  {
    hide C.Xor, C.Bits, C.Register, Pack, C.LowByte, C.Down;
    FourAtOnce(c, w);
    FourAtOnce(c, w');
    var p, p' := Pack(w[0], w[1], w[2], w[3]), Pack(w'[0], w'[1], w'[2], w'[3]);
    BitsAreInjective(C.Xor(c, p), C.Xor(c, p'), 32);
    XorIsInjective(p, p', c);
    PackedBytes(w[0], w[1], w[2], w[3]);
    PackedBytes(w'[0], w'[1], w'[2], w'[3]);
  }

  /** Up to four bytes. */
  lemma FewAreInjective(c: bv32, w: seq<bv8>, w': seq<bv8>)
    requires |w| == |w'| <= 4 && C.Register(c, w) == C.Register(c, w')
    ensures w == w'
  {
    hide C.Register;
    var zeros: seq<bv8> := seq(4 - |w|, _ => 0);
    C.RegisterAppend(c, w, zeros);
    C.RegisterAppend(c, w', zeros);
    FourAreInjective(c, w + zeros, w' + zeros);
    assert (w + zeros)[..|w|] == w && (w' + zeros)[..|w|] == w';
  }

  /** A burst of up to 32 bits, wherever it hits, changes the checksum. */
  lemma BurstIsSeen(crc: bv32, a: seq<bv8>, w: seq<bv8>, w': seq<bv8>, b: seq<bv8>)
    requires |w| == |w'| <= 4 && w != w'
    ensures C.Extend(crc, a + w + b) != C.Extend(crc, a + w' + b)
  {
    hide C.Register;
    var c := C.Not(crc);
    var r := C.Register(c, a);
    C.RegisterAppend(c, a + w, b);
    C.RegisterAppend(c, a, w);
    C.RegisterAppend(c, a + w', b);
    C.RegisterAppend(c, a, w');
    if C.Extend(crc, a + w + b) == C.Extend(crc, a + w' + b) {
      NotIsInjective(C.Register(C.Register(r, w), b), C.Register(C.Register(r, w'), b));
      RegisterIsInjective(C.Register(r, w), C.Register(r, w'), b);
      FewAreInjective(r, w, w');
    }
  }

  lemma NotIsInjective(a: bv32, b: bv32)
    requires C.Not(a) == C.Not(b)
    ensures a == b
  {
  }

  // --- the standard check value ----------------------------------------------------------------------

  lemma Byte(c: bv32, b: bv8, x: bv32, c1: bv32, c2: bv32, c3: bv32, c4: bv32, c5: bv32, c6: bv32, c7: bv32, c8: bv32)
    requires x == C.Xor(c, C.Word(b)) && c1 == C.Bit(x) && c2 == C.Bit(c1) && c3 == C.Bit(c2) && c4 == C.Bit(c3)
    requires c5 == C.Bit(c4) && c6 == C.Bit(c5) && c7 == C.Bit(c6) && c8 == C.Bit(c7)
    ensures C.Bits(C.Xor(c, C.Word(b)), 8) == c8
  {
    hide C.Bit, C.Xor, C.Word;
    assert C.Bits(x, 1) == c1;
    assert C.Bits(x, 2) == c2;
    assert C.Bits(x, 3) == c3;
    assert C.Bits(x, 4) == c4;
    assert C.Bits(x, 5) == c5;
    assert C.Bits(x, 6) == c6;
    assert C.Bits(x, 7) == c7;
  }

  lemma Three(c: bv32, data: seq<bv8>, r: bv32, s: bv32, t: bv32)
    requires |data| == 3 && C.Bits(C.Xor(c, C.Word(data[0])), 8) == r
    requires C.Bits(C.Xor(r, C.Word(data[1])), 8) == s && C.Bits(C.Xor(s, C.Word(data[2])), 8) == t
    ensures C.Register(c, data) == t
  {
    hide C.Bits, C.Xor, C.Word;
    assert data[..2][..1] == data[..1] && data[..1][..0] == [];
    assert C.Register(c, data[..1]) == r;
    assert C.Register(c, data[..2]) == s;
  }

  lemma FirstDigits()
    ensures C.Register(0xFFFFFFFF, [0x31, 0x32, 0x33]) == 0xEF84D04D
  {
    Byte(0xFFFFFFFF, 0x31, 0xFFFFFFCE, 0x7FFFFFE7, 0xBD09C48B, 0xDC72D93D, 0xECCF57E6,
         0x7667ABF3, 0xB9C5EE81, 0xDE14CC38, 0x6F0A661C);
    Byte(0x6F0A661C, 0x32, 0x6F0A662E, 0x37853317, 0x9934A2F3, 0xCE6C6A01, 0xE5C00E78,
         0x72E0073C, 0x3970039E, 0x1CB801CF, 0x8CAA3B9F);
    Byte(0x8CAA3B9F, 0x33, 0x8CAA3BAC, 0x46551DD6, 0x232A8EEB, 0x93637C0D, 0xCB47857E,
         0x65A3C2BF, 0xB027DA27, 0xDAE5D66B, 0xEF84D04D);
    Three(0xFFFFFFFF, [0x31, 0x32, 0x33], 0x6F0A661C, 0x8CAA3B9F, 0xEF84D04D);
  }

  lemma SecondDigits()
    ensures C.Register(0xEF84D04D, [0x34, 0x35, 0x36]) == 0xBECA8E79
  {
    Byte(0xEF84D04D, 0x34, 0xEF84D079, 0xF5345344, 0x7A9A29A2, 0x3D4D14D1, 0x9C50B110,
         0x4E285888, 0x27142C44, 0x138A1622, 0x09C50B11);
    Byte(0x09C50B11, 0x35, 0x09C50B24, 0x04E28592, 0x027142C9, 0x83CE9A1C, 0x41E74D0E,
         0x20F3A687, 0x928FE83B, 0xCBB1CF65, 0xE72EDCCA);
    Byte(0xE72EDCCA, 0x36, 0xE72EDCFC, 0x73976E7E, 0x39CBB73F, 0x9E13E0E7, 0xCDFFCB0B,
         0xE409DEFD, 0xF0F2D406, 0x78796A03, 0xBECA8E79);
    Three(0xEF84D04D, [0x34, 0x35, 0x36], 0x09C50B11, 0xE72EDCCA, 0xBECA8E79);
  }

  lemma ThirdDigits()
    ensures C.Register(0xBECA8E79, [0x37, 0x38, 0x39]) == 0x1CF96D7C
  {
    Byte(0xBECA8E79, 0x37, 0xBECA8E4E, 0x5F654727, 0xAD4498EB, 0xD454770D, 0xE8DC00FE,
         0x746E007F, 0xB8C13B47, 0xDE96A6DB, 0xEDBD6815);
    Byte(0xEDBD6815, 0x38, 0xEDBD682D, 0xF4288F6E, 0x7A1447B7, 0xBFFC18A3, 0xDD083729,
         0xEC7220EC, 0x76391076, 0x3B1C883B, 0x9F787F65);
    Byte(0x9F787F65, 0x39, 0x9F787F5C, 0x4FBC3FAE, 0x27DE1FD7, 0x91193493, 0xCA7AA131,
         0xE7CB6BE0, 0x73E5B5F0, 0x39F2DAF8, 0x1CF96D7C);
    Three(0xBECA8E79, [0x37, 0x38, 0x39], 0xEDBD6815, 0x9F787F65, 0x1CF96D7C);
  }

  /** The checksum of the nine digits is the check value of CRC-32C. */
  lemma CheckValue()
    ensures C.Extend(0, [0x31, 0x32, 0x33, 0x34, 0x35, 0x36, 0x37, 0x38, 0x39]) == 0xE306_9283
  {
    hide C.Register;
    FirstDigits();
    SecondDigits();
    ThirdDigits();
    var a: seq<bv8>, b: seq<bv8>, c: seq<bv8> := [0x31, 0x32, 0x33], [0x34, 0x35, 0x36], [0x37, 0x38, 0x39];
    C.RegisterAppend(0xFFFF_FFFF, a, b);
    C.RegisterAppend(0xFFFF_FFFF, a + b, c);
    assert a + b + c == [0x31, 0x32, 0x33, 0x34, 0x35, 0x36, 0x37, 0x38, 0x39];
  }

  // --- records -------------------------------------------------------------------------------------------

  function AsBits(data: Bytes): (r: seq<bv8>)
    ensures |r| == |data|
  {
    seq(|data|, i requires 0 <= i < |data| => Bits8(data[i]))
  }

  function Checksum(data: Bytes): Word { C.Extend(0, AsBits(data)) as int }

  /** The format of the log files, with the checksum they have. */
  const FORMAT := Format(Checksum)

  /** A byte as bits: counted up, so that going back is plain. */
  function Bits8(n: Byte): (b: bv8)
    ensures C.Index(b) == n
  {
    if n == 0 then 0 else OneUp(Bits8(n - 1)); Bits8(n - 1) + 1
  }

  lemma OneUp(b: bv8)
    requires C.Index(b) < 255
    ensures C.Index(b + 1) == C.Index(b) + 1
  {
  }

  lemma SameWord(a: bv32, b: bv32)
    requires a as int == b as int
    ensures a == b
  {
    assert (a as int) as bv32 == a && (b as int) as bv32 == b;
  }

  lemma SameBits(a: Bytes, b: Bytes)
    requires AsBits(a) == AsBits(b)
    ensures a == b
  {
    assert |a| == |AsBits(a)| == |b|;
    forall i | 0 <= i < |a| ensures a[i] == b[i] {
      assert AsBits(a)[i] == AsBits(b)[i];
      assert Bits8(a[i]) == Bits8(b[i]);
    }
  }

  lemma ChecksumSees(a: Bytes, w: Bytes, w': Bytes, b: Bytes)
    requires |w| == |w'| <= 4 && w != w'
    ensures Checksum(a + w + b) != Checksum(a + w' + b)
  {
    if AsBits(w) == AsBits(w') { SameBits(w, w'); }
    assert AsBits(a + w + b) == AsBits(a) + AsBits(w) + AsBits(b);
    assert AsBits(a + w' + b) == AsBits(a) + AsBits(w') + AsBits(b);
    hide C.Extend, AsBits;
    BurstIsSeen(0, AsBits(a), AsBits(w), AsBits(w'), AsBits(b));
    if Checksum(a + w + b) == Checksum(a + w' + b) {
      SameWord(C.Extend(0, AsBits(a + w + b)), C.Extend(0, AsBits(a + w' + b)));
    }
  }

  /** The two differ, and only in the n bytes from the i-th on. */
  ghost predicate DifferAt(a: Bytes, b: Bytes, i: nat, n: nat) {
    && |a| == |b| && i + n <= |a| && a != b && a[..i] == b[..i] && a[i + n..] == b[i + n..]
  }

  lemma SamePart(a: Bytes, b: Bytes, i: nat, n: nat, from: nat, to: nat)
    requires DifferAt(a, b, i, n) && from <= to <= |a| && (to <= i || i + n <= from)
    ensures a[from..to] == b[from..to]
  {
    forall k | from <= k < to ensures a[k] == b[k] {
      if k < i { assert a[..i][k] == b[..i][k]; } else { assert a[i + n..][k - i - n] == b[i + n..][k - i - n]; }
    }
  }

  /** Of two such strings only one can be an intact record, if its length field is the same: damage to
      up to four adjacent bytes behind the checksum, or to the checksum itself, is always seen. */
  lemma DamagedRecord(data: Bytes, data': Bytes, i: nat, n: nat)
    requires FORMAT.Parse(data).Ok? && n <= 4 && DifferAt(data, data', i, n)
    requires (8 <= i && i + n <= FORMAT.Parse(data).size) || (4 <= i && i + n <= 8)
    ensures FORMAT.Parse(data') == BadCrc
  {
    hide Checksum;
    var total := FORMAT.Parse(data).size;
    SamePart(data, data', i, n, 0, 4);
    assert data[..4] == data[0..4] == data'[0..4] == data'[..4];
    if i + n <= 8 {
      SamePart(data, data', i, n, 8, total);
      SamePart(data, data', i, n, 8, |data|);
      FieldTells(data, data');
    } else {
      SamePart(data, data', i, n, 4, 8);
      BodyDiffers(data, data', i, n, total);
    }
  }

  /** Nothing else changed, so the checksum field reads differently. */
  lemma FieldTells(data: Bytes, data': Bytes)
    requires 8 <= |data| == |data'| && data[0..4] == data'[0..4] && data[8..|data|] == data'[8..|data|]
    ensures Load(data[4..8]) == Load(data'[4..8]) ==> data == data'
  {
    StoreLoad(data[4..8]);
    StoreLoad(data'[4..8]);
    assert data == data[0..4] + data[4..8] + data[8..|data|];
    assert data' == data'[0..4] + data'[4..8] + data'[8..|data|];
  }

  lemma BodyDiffers(data: Bytes, data': Bytes, i: nat, n: nat, total: nat)
    requires DifferAt(data, data', i, n) && n <= 4 && 8 <= i && i + n <= total <= |data|
    ensures Checksum(data[..4] + data[8..total]) != Checksum(data'[..4] + data'[8..total])
  {
    hide Checksum;
    SamePart(data, data', i, n, 0, 4);
    SamePart(data, data', i, n, 8, i);
    SamePart(data, data', i, n, i + n, total);
    SamePart(data, data', i, n, 0, i);
    SamePart(data, data', i, n, i + n, |data|);
    var w, w' := data[i..i + n], data'[i..i + n];
    assert data == data[0..i] + w + data[i + n..|data|] && data' == data'[0..i] + w' + data'[i + n..|data|];
    var a, b := data[..4] + data[8..i], data[i + n..total];
    assert data[..4] == data[0..4] && data'[..4] == data'[0..4];
    assert data[..4] + data[8..total] == a + w + b;
    assert data'[..4] + data'[8..total] == a + w' + b;
    ChecksumSees(a, w, w', b);
  }

  /** A log is never cut where up to four adjacent bytes of a record, its length apart, have been
      damaged, as long as a whole record is left behind it: recovery refuses, whatever else the
      directory holds, and changes nothing. */
  lemma FlippedBytesAreRefused(r: Recovery, dir: Directory, names: seq<nat>, recs: seq<Rec>, k: nat, bad: Bytes,
                               i: nat, n: nat)
    requires r.format == FORMAT && IsListing(names, dir.Keys) && names != []
    requires var name := names[|names| - 1];
             && name in dir && 0 < name < 0x1_0000_0000_0000_0000 && Numbered(recs, name) && k + 1 < |recs|
             && dir[name] == FORMAT.EncodeHeader(name) + FORMAT.EncodeAll(recs[..k]) +
                             (bad + FORMAT.EncodeAll(recs[k + 1..]))
    requires DifferAt(FORMAT.Encode(recs[k]), bad, i, n) && n <= 4 && (i >= 8 || (i >= 4 && i + n <= 8))
    ensures var out := r.Recover(dir, names); out.result.Refused? && out.dir == dir
  {
    hide Format.Encode, Format.Parse, Format.EncodeHeader, Checksum, Recovery.Recover;
    var good, rest := FORMAT.Encode(recs[k]), FORMAT.EncodeAll(recs[k + 1..]);
    FORMAT.ParseIsEncode(good + rest, recs[k]);
    DifferWithin(good, bad, rest, i, n);
    DamagedRecord(good + rest, bad + rest, i, n);
    assert recs[k..k + 1] == [recs[k]];
    OneEncoded(recs[k]);
    DamageIsRefused(r, dir, names, recs, k, k + 1, bad);
  }

  lemma OneEncoded(rec: Rec)
    ensures FORMAT.EncodeAll([rec]) == FORMAT.Encode(rec)
  {
    assert [rec][1..] == [];
    assert FORMAT.Encode(rec) + [] == FORMAT.Encode(rec);
  }

  lemma DifferWithin(a: Bytes, b: Bytes, rest: Bytes, i: nat, n: nat)
    requires DifferAt(a, b, i, n)
    ensures DifferAt(a + rest, b + rest, i, n)
  {
    var x, y := a + rest, b + rest;
    assert x[..i] == a[..i] && y[..i] == b[..i];
    assert x[i + n..] == a[i + n..] + rest && y[i + n..] == b[i + n..] + rest;
    assert x[..|a|] == a && y[..|a|] == b;
  }
}
