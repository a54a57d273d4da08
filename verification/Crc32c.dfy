/**
 CRC32C in software: slicing-by-8 against the bit-at-a-time definition of the reflected
 Castagnoli CRC (section 12.1 and appendix B.4 of RFC 3720).
 */
module Crc32c {

  const POLYNOMIAL: bv32 := 0x82F63B78

  // --- words --------------------------------------------------------------------------------------
  // The operations on words are named, so that proofs about registers and tables can go by
  // the few laws below and leave bit vectors alone.

  function Xor(a: bv32, b: bv32): bv32 { a ^ b }
  function Not(a: bv32): bv32 { !a }
  function Half(a: bv32): bv32 { a >> 1 }
  predicate Odd(a: bv32) { a & 1 != 0 }
  function Down(a: bv32): bv32 { a >> 8 }
  function LowByte(a: bv32): bv8 { (a & 0xFF) as bv8 }
  function High(a: bv32): bv32 { a & 0xFFFF_FF00 }
  function Word(b: bv8): bv32 { b as bv32 }
  function Low(a: bv32): bv32 { Word(LowByte(a)) }
  function Index(b: bv8): nat { b as nat }
  function ByteAt(i: nat): bv8
    requires i < 256
  {
    i as bv8
  }

  lemma IndexLaws(b: bv8)
    ensures Index(b) < 256 && ByteAt(Index(b)) == b
  {
  }

  lemma XorCommutes(a: bv32, b: bv32)
    ensures Xor(a, b) == Xor(b, a)
  {
  }

  lemma XorAssociates(a: bv32, b: bv32, c: bv32)
    ensures Xor(Xor(a, b), c) == Xor(a, Xor(b, c))
  {
  }

  lemma XorZero(a: bv32)
    ensures Xor(a, 0) == a && Xor(0, a) == a
  {
  }

  lemma XorCancels(a: bv32, b: bv32, c: bv32)
    ensures Xor(Xor(a, c), Xor(b, c)) == Xor(a, b)
  {
    hide Xor;
    XorAssociates(a, c, Xor(b, c));
    XorCommutes(b, c);
    XorAssociates(c, c, b);
    XorSelf(c);
    XorZero(b);
  }

  lemma XorSelf(a: bv32)
    ensures Xor(a, a) == 0
  {
  }

  lemma XorSwaps(a: bv32, b: bv32, c: bv32)
    ensures Xor(Xor(a, c), b) == Xor(Xor(a, b), c)
  {
    hide Xor;
    XorAssociates(a, c, b);
    XorAssociates(a, b, c);
    XorCommutes(b, c);
  }

  lemma NotTwice(a: bv32)
    ensures Not(Not(a)) == a
  {
  }

  lemma HalfXor(a: bv32, b: bv32)
    ensures Half(Xor(a, b)) == Xor(Half(a), Half(b)) && (Odd(Xor(a, b)) <==> Odd(a) != Odd(b))
  {
  }

  lemma HighLow(a: bv32)
    ensures a == Xor(High(a), Low(a)) && Low(High(a)) == 0 && Down(High(a)) == Down(a)
  {
  }

  // --- the definition ---------------------------------------------------------------------------

  /** One bit through the register. */
  function Bit(c: bv32): bv32 {
    if Odd(c) then Xor(Half(c), POLYNOMIAL) else Half(c)
  }

  function Bits(c: bv32, n: nat): bv32 {
    if n == 0 then c else Bit(Bits(c, n - 1))
  }

  /** One byte of data after the other. */
  function Register(c: bv32, data: seq<bv8>): bv32 {
    if data == [] then c else Bits(Xor(Register(c, data[..|data| - 1]), Word(data[|data| - 1])), 8)
  }

  /** The checksum of `data`, continuing from the checksum `crc` of what came before. */
  function Extend(crc: bv32, data: seq<bv8>): bv32 {
    Not(Register(Not(crc), data))
  }

  lemma {:induction false} RegisterAppend(c: bv32, a: seq<bv8>, b: seq<bv8>)
    ensures Register(c, a + b) == Register(Register(c, a), b)
  {
    hide Xor, Word, Bits;
    if b == [] {
      assert a + b == a;
    } else {
      RegisterAppend(c, a, b[..|b| - 1]);
      assert (a + b)[..|a + b| - 1] == a + b[..|b| - 1];
    }
  }

  /** Extending over b after a gives the checksum of a followed by b. */
  lemma ExtendAppend(crc: bv32, a: seq<bv8>, b: seq<bv8>)
    ensures Extend(Extend(crc, a), b) == Extend(crc, a + b)
  {
    hide Not, Register;
    RegisterAppend(Not(crc), a, b);
    NotTwice(Register(Not(crc), a));
  }

  // --- linearity ----------------------------------------------------------------------------------

  lemma BitIsLinear(a: bv32, b: bv32)
    ensures Bit(Xor(a, b)) == Xor(Bit(a), Bit(b))
  {
    hide Xor, Half, Odd;
    HalfXor(a, b);
    XorAssociates(Half(a), Half(b), POLYNOMIAL);
    XorSwaps(Half(a), Half(b), POLYNOMIAL);
    XorCancels(Half(a), Half(b), POLYNOMIAL);
  }

  lemma {:induction false} BitsAreLinear(a: bv32, b: bv32, n: nat)
    ensures Bits(Xor(a, b), n) == Xor(Bits(a, n), Bits(b, n))
  {
    hide Xor, Bit;
    if n > 0 {
      BitsAreLinear(a, b, n - 1);
      BitIsLinear(Bits(a, n - 1), Bits(b, n - 1));
    }
  }

  lemma {:induction false} BitsCompose(c: bv32, m: nat, n: nat)
    ensures Bits(Bits(c, m), n) == Bits(c, m + n)
  {
    hide Bit;
    if n > 0 { BitsCompose(c, m, n - 1); }
  }

  lemma EvenBit(x: bv32)
    requires !Odd(x)
    ensures Bit(x) == Half(x)
  {
  }

  /** Eight zero bits just fall out. */
  lemma ZeroByte(x: bv32)
    requires Low(x) == 0
    ensures Bits(x, 8) == Down(x)
  {
    var h := [x, Half(x), Half(Half(x)), Half(Half(Half(x)))];
    Halves(x);
    var a := Half(h[3]);
    var b := Half(a);
    var c := Half(b);
    hide Odd, Half, Low, Down, Bit;
    EvenBit(x);
    EvenBit(h[1]);
    EvenBit(h[2]);
    EvenBit(h[3]);
    EvenBit(a);
    EvenBit(b);
    EvenBit(c);
    EvenBit(Half(c));
    assert Bits(x, 1) == h[1];
    assert Bits(x, 2) == h[2];
    assert Bits(x, 3) == h[3];
    assert Bits(x, 4) == a;
    assert Bits(x, 5) == b;
    assert Bits(x, 6) == c;
    assert Bits(x, 7) == Half(c);
  }

  lemma Halves(x: bv32)
    requires Low(x) == 0
    ensures var a := Half(Half(Half(Half(x))));
            && !Odd(x) && !Odd(Half(x)) && !Odd(Half(Half(x))) && !Odd(Half(Half(Half(x))))
            && !Odd(a) && !Odd(Half(a)) && !Odd(Half(Half(a))) && !Odd(Half(Half(Half(a))))
            && Half(Half(Half(Half(a)))) == Down(x)
  {
    EvenShifts(x);
  }

  lemma EvenShifts(x: bv32)
    requires x & 0xFF == 0
    ensures x & 1 == 0 && (x >> 1) & 1 == 0 && (x >> 2) & 1 == 0 && (x >> 3) & 1 == 0
    ensures (x >> 4) & 1 == 0 && (x >> 5) & 1 == 0 && (x >> 6) & 1 == 0 && (x >> 7) & 1 == 0
    ensures (x >> 1) >> 1 == x >> 2 && (x >> 2) >> 1 == x >> 3 && (x >> 3) >> 1 == x >> 4 && (x >> 4) >> 1 == x >> 5
    ensures (x >> 5) >> 1 == x >> 6 && (x >> 6) >> 1 == x >> 7 && (x >> 7) >> 1 == x >> 8
  {
  }

  /** A byte at a time: the low byte goes through the table, the others shift down. */
  lemma ByteStep(c: bv32)
    ensures Bits(c, 8) == Xor(Down(c), Bits(Low(c), 8))
  {
    hide Xor, Down, Low, High, Bits;
    HighLow(c);
    BitsAreLinear(High(c), Low(c), 8);
    ZeroByte(High(c));
  }

  // --- the tables -----------------------------------------------------------------------------------

  type Table = seq<bv32>

  ghost predicate EntryOk(t: Table, k: nat, i: nat) {
    i < 256 && i < |t| ==> t[i] == Bits(Word(ByteAt(i)), 8 * k + 8)
  }

  /** The k-th table takes a byte through k further zero bytes. */
  ghost predicate TableOk(t: Table, k: nat) {
    forall i: nat :: EntryOk(t, k, i)
  }

  ghost predicate Tables(t: seq<Table>) {
    |t| == 8 && forall k | 0 <= k < 8 :: |t[k]| == 256 && TableOk(t[k], k)
  }

  lemma TableNext(t: Table, k: nat, v: bv32)
    requires |t| < 256 && TableOk(t, k) && v == Bits(Word(ByteAt(|t|)), 8 * k + 8)
    ensures TableOk(t + [v], k)
  {
    forall i: nat ensures EntryOk(t + [v], k, i) { assert EntryOk(t, k, i); }
  }

  lemma Lookup(t: Table, k: nat, b: bv8)
    requires |t| == 256 && TableOk(t, k)
    ensures Index(b) < 256 && t[Index(b)] == Bits(Word(b), 8 * k + 8)
  {
    IndexLaws(b);
    assert EntryOk(t, k, Index(b));
  }

  /** The first table, bit by bit. */
  method FirstTable() returns (t: Table)
    ensures |t| == 256 && TableOk(t, 0)
  {
    hide Xor, Half, Odd, TableOk, ByteAt, Word;
    t := [];
    NoEntries(0);
    for i := 0 to 256
      invariant |t| == i && TableOk(t, 0)
    {
      var start := Word(ByteAt(i));
      var c := start;
      for bit := 0 to 8
        invariant c == Bits(start, bit)
      {
        c := if Odd(c) then Xor(Half(c), POLYNOMIAL) else Half(c);
      }
      TableNext(t, 0, c);
      t := t + [c];
    }
  }

  lemma NoEntries(k: nat)
    ensures TableOk([], k)
  {
  }

  /** The next table from the one before and the first. */
  method NextTable(first: Table, before: Table, ghost k: nat) returns (t: Table)
    requires |first| == 256 && TableOk(first, 0) && |before| == 256 && TableOk(before, k)
    ensures |t| == 256 && TableOk(t, k + 1)
  {
    hide Xor, Down, LowByte, Word, Index, ByteAt, Bits, TableOk;
    t := [];
    NoEntries(k + 1);
    for i := 0 to 256
      invariant |t| == i && TableOk(t, k + 1)
    {
      var c := before[i];
      EntryAt(before, k, i);
      IndexLaws(LowByte(c));
      Lookup(first, 0, LowByte(c));
      ByteStep(c);
      BitsCompose(Word(ByteAt(i)), 8 * k + 8, 8);
      var v := Xor(Down(c), first[Index(LowByte(c))]);
      TableNext(t, k + 1, v);
      t := t + [v];
    }
  }

  lemma EntryAt(t: Table, k: nat, i: nat)
    requires TableOk(t, k) && i < |t| == 256
    ensures t[i] == Bits(Word(ByteAt(i)), 8 * k + 8)
  {
    assert EntryOk(t, k, i);
  }

  method MakeTables() returns (t: seq<Table>)
    ensures Tables(t)
  {
    hide TableOk;
    var first := FirstTable();
    t := [first];
    while |t| < 8
      invariant 1 <= |t| <= 8 && t[0] == first && forall k | 0 <= k < |t| :: |t[k]| == 256 && TableOk(t[k], k)
      decreases 8 - |t|
    {
      var next := NextTable(first, t[|t| - 1], |t| - 1);
      t := t + [next];
    }
  }

  // --- eight bytes at a time ------------------------------------------------------------------------

  /** Each byte through the zero bytes that follow it, all added up. */
  ghost function Sum(bytes: seq<bv8>): bv32 {
    if bytes == [] then 0 else Xor(Bits(Word(bytes[0]), 8 * |bytes|), Sum(bytes[1..]))
  }

  lemma {:induction false} ZeroBits(n: nat)
    ensures Bits(0, n) == 0
  {
    if n > 0 {
      ZeroBits(n - 1);
      ZeroBit();
    }
  }

  lemma ZeroBit()
    ensures Bit(0) == 0
  {
  }

  /** What the register held before only adds to what the data alone would give. */
  lemma {:induction false} RegisterIsLinear(c: bv32, data: seq<bv8>)
    ensures Register(c, data) == Xor(Bits(c, 8 * |data|), Register(0, data))
  {
    hide Xor, Word, Bit;
    if data == [] {
      XorZero(c);
    } else {
      var rest, last := data[..|data| - 1], Word(data[|data| - 1]);
      var n := 8 * |rest|;
      RegisterIsLinear(c, rest);
      XorAssociates(Bits(c, n), Register(0, rest), last);
      BitsAreLinear(Bits(c, n), Xor(Register(0, rest), last), 8);
      BitsCompose(c, n, 8);
    }
  }

  lemma {:induction false} RegisterIsSum(data: seq<bv8>)
    ensures Register(0, data) == Sum(data)
  {
    hide Xor, Word, Bit;
    if data != [] {
      var first, rest := data[..1], data[1..];
      assert data == first + rest;
      RegisterAppend(0, first, rest);
      assert first[..0] == [] && first[0] == data[0];
      XorZero(Word(data[0]));
      assert Register(0, first) == Bits(Word(data[0]), 8);
      RegisterIsLinear(Bits(Word(data[0]), 8), rest);
      BitsCompose(Word(data[0]), 8, 8 * |rest|);
      RegisterIsSum(rest);
    }
  }

  /** The bytes of a word, least significant first, as if it were data. */
  function Bytes4(c: bv32): (r: seq<bv8>)
    ensures |r| == 4
  {
    [LowByte(c), LowByte(Down(c)), LowByte(Down(Down(c))), LowByte(Down(Down(Down(c))))]
  }

  lemma DownFour(c: bv32)
    ensures Down(Down(Down(Down(c)))) == 0
  {
  }

  lemma TakeByte(c: bv32, n: nat)
    requires n >= 8
    ensures Bits(c, n) == Xor(Bits(Word(LowByte(c)), n), Bits(Down(c), n - 8))
  {
    hide Xor, Down, High, LowByte, Word, Bit;
    HighLow(c);
    BitsAreLinear(High(c), Low(c), n);
    BitsCompose(High(c), 8, n - 8);
    ZeroByte(High(c));
    XorCommutes(Bits(High(c), n), Bits(Low(c), n));
  }

  /** A word goes through eight bytes like its own four bytes followed by four zero bytes. */
  lemma WordIsSum(c: bv32)
    ensures Bits(c, 64) == Sum(Bytes4(c) + [0, 0, 0, 0])
  {
    DownFour(c);
    FourZeros();
    FourBytes(c, [0, 0, 0, 0]);
  }

  lemma FourBytes(c: bv32, zeros: seq<bv8>)
    requires |zeros| == 4 && Sum(zeros) == 0 && Down(Down(Down(Down(c)))) == 0
    ensures Bits(c, 64) == Sum(Bytes4(c) + zeros)
  {
    var d := Down(c);
    var e := Down(d);
    var f := Down(e);
    var s3 := [LowByte(f)] + zeros;
    var s2 := [LowByte(e)] + s3;
    var s1 := [LowByte(d)] + s2;
    assert Bytes4(c) + zeros == [LowByte(c)] + s1;
    hide Xor, Down, LowByte, Word, Bit, Bytes4, Sum;
    ZeroBits(32);
    NextByte(f, zeros, 40);
    NextByte(e, s3, 48);
    NextByte(d, s2, 56);
    NextByte(c, s1, 64);
  }

  lemma NextByte(c: bv32, rest: seq<bv8>, n: nat)
    requires n == 8 * |rest| + 8 && Bits(Down(c), n - 8) == Sum(rest)
    ensures Bits(c, n) == Sum([LowByte(c)] + rest)
  {
    hide Xor, Down, LowByte, Word, Bit, Sum;
    TakeByte(c, n);
    SumStep(LowByte(c), rest);
  }

  lemma SumStep(b: bv8, rest: seq<bv8>)
    ensures Sum([b] + rest) == Xor(Bits(Word(b), 8 * |rest| + 8), Sum(rest))
  {
    hide Xor, Bit, Word;
    assert ([b] + rest)[1..] == rest;
  }

  lemma FourZeros()
    ensures Sum([0, 0, 0, 0]) == 0
  {
    hide Xor, Bit;
    ZeroWord();
    ZeroBits(8);
    ZeroBits(16);
    ZeroBits(24);
    ZeroBits(32);
    XorZero(0);
    assert [0, 0, 0, 0][1..] == [0, 0, 0] && [0, 0, 0][1..] == [0, 0] && [0, 0][1..] == [0] && [0][1..] == [];
  }

  lemma ZeroWord()
    ensures Word(0) == 0
  {
  }

  function Mix(a: bv8, b: bv8): bv8 { a ^ b }

  function Mixed(a: seq<bv8>, b: seq<bv8>): (r: seq<bv8>)
    requires |a| == |b|
    ensures |r| == |a|
  {
    seq(|a|, i requires 0 <= i < |a| => Mix(a[i], b[i]))
  }

  lemma WordXor(a: bv8, b: bv8)
    ensures Word(Mix(a, b)) == Xor(Word(a), Word(b))
  {
  }

  lemma XorPairs(a: bv32, b: bv32, c: bv32, d: bv32)
    ensures Xor(Xor(a, b), Xor(c, d)) == Xor(Xor(a, c), Xor(b, d))
  {
    hide Xor;
    XorAssociates(a, b, Xor(c, d));
    XorAssociates(b, c, d);
    XorCommutes(b, c);
    XorAssociates(c, b, d);
    XorAssociates(a, c, Xor(b, d));
  }

  lemma {:induction false} SumIsLinear(a: seq<bv8>, b: seq<bv8>)
    requires |a| == |b|
    ensures Sum(Mixed(a, b)) == Xor(Sum(a), Sum(b))
  {
    hide Xor, Word, Bit, Mix;
    if a == [] {
      XorZero(0);
    } else {
      SumIsLinear(a[1..], b[1..]);
      assert Mixed(a, b)[1..] == Mixed(a[1..], b[1..]);
      WordXor(a[0], b[0]);
      BitsAreLinear(Word(a[0]), Word(b[0]), 8 * |a|);
      XorPairs(Bits(Word(a[0]), 8 * |a|), Bits(Word(b[0]), 8 * |a|), Sum(a[1..]), Sum(b[1..]));
    }
  }

  /** Eight bytes at once: the old register is mixed into the first four of them. */
  lemma EightAtOnce(c: bv32, data: seq<bv8>)
    requires |data| == 8
    ensures Register(c, data) == Sum(Mixed(Bytes4(c) + [0, 0, 0, 0], data))
  {
    hide Xor, Bits, Sum, Bytes4, Register;
    RegisterIsLinear(c, data);
    RegisterIsSum(data);
    WordIsSum(c);
    SumIsLinear(Bytes4(c) + [0, 0, 0, 0], data);
  }

  // --- crc32c_software() -------------------------------------------------------------------------------

  /** Eight bytes as one little-endian word. */
  function Load(b0: bv8, b1: bv8, b2: bv8, b3: bv8, b4: bv8, b5: bv8, b6: bv8, b7: bv8): bv64 {
    (b0 as bv64) | ((b1 as bv64) << 8) | ((b2 as bv64) << 16) | ((b3 as bv64) << 24)
    | ((b4 as bv64) << 32) | ((b5 as bv64) << 40) | ((b6 as bv64) << 48) | ((b7 as bv64) << 56)
  }

  function MixIn(word: bv64, c: bv32): bv64 { word ^ (c as bv64) }

  function Byte0(w: bv64): bv8 { (w & 0xFF) as bv8 }
  function Byte1(w: bv64): bv8 { ((w >> 8) & 0xFF) as bv8 }
  function Byte2(w: bv64): bv8 { ((w >> 16) & 0xFF) as bv8 }
  function Byte3(w: bv64): bv8 { ((w >> 24) & 0xFF) as bv8 }
  function Byte4(w: bv64): bv8 { ((w >> 32) & 0xFF) as bv8 }
  function Byte5(w: bv64): bv8 { ((w >> 40) & 0xFF) as bv8 }
  function Byte6(w: bv64): bv8 { ((w >> 48) & 0xFF) as bv8 }
  function Byte7(w: bv64): bv8 { ((w >> 56) & 0xFF) as bv8 }

  lemma LowHalf(b0: bv8, b1: bv8, b2: bv8, b3: bv8, b4: bv8, b5: bv8, b6: bv8, b7: bv8, c: bv32)
    ensures var w := MixIn(Load(b0, b1, b2, b3, b4, b5, b6, b7), c);
            && Byte0(w) == Mix(LowByte(c), b0) && Byte1(w) == Mix(LowByte(Down(c)), b1)
            && Byte2(w) == Mix(LowByte(Down(Down(c))), b2) && Byte3(w) == Mix(LowByte(Down(Down(Down(c)))), b3)
  {
  }

  lemma HighHalf(b0: bv8, b1: bv8, b2: bv8, b3: bv8, b4: bv8, b5: bv8, b6: bv8, b7: bv8, c: bv32)
    ensures var w := MixIn(Load(b0, b1, b2, b3, b4, b5, b6, b7), c);
            Byte4(w) == b4 && Byte5(w) == b5 && Byte6(w) == b6 && Byte7(w) == b7
  {
  }

  /** The bytes of the mixed word are the mixed bytes. */
  lemma WordBytes(c: bv32, d: seq<bv8>)
    requires |d| == 8
    ensures var w := MixIn(Load(d[0], d[1], d[2], d[3], d[4], d[5], d[6], d[7]), c);
            [Byte0(w), Byte1(w), Byte2(w), Byte3(w), Byte4(w), Byte5(w), Byte6(w), Byte7(w)] ==
              Mixed(Bytes4(c) + [0, 0, 0, 0], d)
  {
    hide Load, MixIn, Byte0, Byte1, Byte2, Byte3, Byte4, Byte5, Byte6, Byte7, LowByte, Down, Mix;
    LowHalf(d[0], d[1], d[2], d[3], d[4], d[5], d[6], d[7], c);
    HighHalf(d[0], d[1], d[2], d[3], d[4], d[5], d[6], d[7], c);
    WithZero(d[4]);
    WithZero(d[5]);
    WithZero(d[6]);
    WithZero(d[7]);
    EightMixed(Bytes4(c) + [0, 0, 0, 0], d);
  }

  lemma EightMixed(a: seq<bv8>, b: seq<bv8>)
    requires |a| == 8 && |b| == 8
    ensures Mixed(a, b) == [Mix(a[0], b[0]), Mix(a[1], b[1]), Mix(a[2], b[2]), Mix(a[3], b[3]), Mix(a[4], b[4]),
                            Mix(a[5], b[5]), Mix(a[6], b[6]), Mix(a[7], b[7])]
  {
    hide Mix;
  }

  lemma WithZero(b: bv8)
    ensures Mix(0, b) == b
  {
  }

  /** One step of the word loop. */
  method Slice(t: seq<Table>, c: bv32, d: seq<bv8>) returns (r: bv32)
    requires Tables(t) && |d| == 8
    ensures r == Register(c, d)
  {
    hide Load, MixIn, Byte0, Byte1, Byte2, Byte3, Byte4, Byte5, Byte6, Byte7, Xor, Index, Mixed, Sum, Register, TableOk;
    var w := MixIn(Load(d[0], d[1], d[2], d[3], d[4], d[5], d[6], d[7]), c);
    var a, b, e, f := Byte0(w), Byte1(w), Byte2(w), Byte3(w);
    var g, h, i, j := Byte4(w), Byte5(w), Byte6(w), Byte7(w);
    WordBytes(c, d);
    EightAtOnce(c, d);
    Lookups(t, [a, b, e, f, g, h, i, j]);
    r := Xor(Xor(Xor(Xor(Xor(Xor(Xor(t[7][Index(a)], t[6][Index(b)]), t[5][Index(e)]), t[4][Index(f)]),
                         t[3][Index(g)]), t[2][Index(h)]), t[1][Index(i)]), t[0][Index(j)]);
  }

  lemma Lookups(t: seq<Table>, m: seq<bv8>)
    requires Tables(t) && |m| == 8
    ensures forall k | 0 <= k < 8 :: Index(m[k]) < 256
    ensures Xor(Xor(Xor(Xor(Xor(Xor(Xor(t[7][Index(m[0])], t[6][Index(m[1])]), t[5][Index(m[2])]), t[4][Index(m[3])]),
                        t[3][Index(m[4])]), t[2][Index(m[5])]), t[1][Index(m[6])]), t[0][Index(m[7])]) == Sum(m)
  {
    hide Xor, Index, TableOk, Bits, Word, Sum;
    forall k | 0 <= k < 8 ensures Index(m[k]) < 256 && t[7 - k][Index(m[k])] == Bits(Word(m[k]), 8 * (7 - k) + 8) {
      Lookup(t[7 - k], 7 - k, m[k]);
    }
    Unfolded(m);
    Regrouped(Bits(Word(m[0]), 64), Bits(Word(m[1]), 56), Bits(Word(m[2]), 48), Bits(Word(m[3]), 40),
              Bits(Word(m[4]), 32), Bits(Word(m[5]), 24), Bits(Word(m[6]), 16), Bits(Word(m[7]), 8));
  }

  lemma Unfolded(m: seq<bv8>)
    requires |m| == 8
    ensures Sum(m) == Xor(Bits(Word(m[0]), 64),
                          Xor(Bits(Word(m[1]), 56), Xor(Bits(Word(m[2]), 48), Xor(Bits(Word(m[3]), 40),
                      Xor(Bits(Word(m[4]), 32), Xor(Bits(Word(m[5]), 24),
                                                    Xor(Bits(Word(m[6]), 16), Bits(Word(m[7]), 8))))))))
  {
    hide Xor, Bits, Word, Sum;
    FourTails(m, 0);
    FourTails(m, 4);
    EmptySum();
    XorZero(Bits(Word(m[7]), 8));
    assert m[0..] == m && m[8..] == [];
  }

  lemma FourTails(m: seq<bv8>, i: nat)
    requires |m| == 8 && i <= 4
    ensures Sum(m[i..]) == Xor(Bits(Word(m[i]), 8 * (8 - i)), Xor(Bits(Word(m[i + 1]), 8 * (7 - i)),
                           Xor(Bits(Word(m[i + 2]), 8 * (6 - i)),
                               Xor(Bits(Word(m[i + 3]), 8 * (5 - i)), Sum(m[i + 4..])))))
  {
    hide Xor, Bits, Word, Sum;
    SumTail(m, i);
    SumTail(m, i + 1);
    SumTail(m, i + 2);
    SumTail(m, i + 3);
  }

  lemma SumTail(m: seq<bv8>, i: nat)
    requires i < |m|
    ensures Sum(m[i..]) == Xor(Bits(Word(m[i]), 8 * (|m| - i)), Sum(m[i + 1..]))
  {
    hide Xor, Bits, Word, Sum;
    SumStep(m[i], m[i + 1..]);
    assert [m[i]] + m[i + 1..] == m[i..];
  }

  lemma EmptySum()
    ensures Sum([]) == 0
  {
  }

  lemma Regrouped(a: bv32, b: bv32, c: bv32, d: bv32, e: bv32, f: bv32, g: bv32, h: bv32)
    ensures Xor(Xor(Xor(Xor(Xor(Xor(Xor(a, b), c), d), e), f), g), h) ==
            Xor(a, Xor(b, Xor(c, Xor(d, Xor(e, Xor(f, Xor(g, h)))))))
  {
    hide Xor;
    var x := Xor(Xor(Xor(Xor(Xor(a, b), c), d), e), f);
    XorAssociates(x, g, h);
    XorAssociates(Xor(Xor(Xor(Xor(a, b), c), d), e), f, Xor(g, h));
    XorAssociates(Xor(Xor(Xor(a, b), c), d), e, Xor(f, Xor(g, h)));
    XorAssociates(Xor(Xor(a, b), c), d, Xor(e, Xor(f, Xor(g, h))));
    XorAssociates(Xor(a, b), c, Xor(d, Xor(e, Xor(f, Xor(g, h)))));
    XorAssociates(a, b, Xor(c, Xor(d, Xor(e, Xor(f, Xor(g, h))))));
  }

  /** The fast path equals the definition, for every input and every seed. */
  method Software(t: seq<Table>, crc: bv32, data: seq<bv8>) returns (r: bv32)
    requires Tables(t)
    ensures r == Extend(crc, data)
  {
    hide Not, Xor, Down, LowByte, Word, Index, Bits, TableOk, Register;
    var c, n := Not(crc), 0;
    RegisterStart(c, data);
    while |data| - n >= 8
      invariant 0 <= n <= |data| && c == Register(Not(crc), data[..n])
      decreases |data| - n
    {
      assert data[..n + 8] == data[..n] + data[n..n + 8];
      RegisterAppend(Not(crc), data[..n], data[n..n + 8]);
      c := Slice(t, c, data[n..n + 8]);
      n := n + 8;
    }
    while n < |data|
      invariant 0 <= n <= |data| && c == Register(Not(crc), data[..n])
    {
      assert data[..n + 1] == data[..n] + [data[n]];
      NextRegister(Not(crc), data[..n], data[n]);
      var x := Xor(c, Word(data[n]));
      Lookup(t[0], 0, LowByte(x));
      TableStep(c, data[n]);
      c := Xor(t[0][Index(LowByte(x))], Down(c));
      n := n + 1;
    }
    assert data[..n] == data;
    r := Not(c);
  }

  lemma RegisterStart(c: bv32, data: seq<bv8>)
    ensures Register(c, data[..0]) == c
  {
  }

  lemma NextRegister(c: bv32, data: seq<bv8>, b: bv8)
    ensures Register(c, data + [b]) == Bits(Xor(Register(c, data), Word(b)), 8)
  {
    hide Xor, Word, Bits;
    assert (data + [b])[..|data|] == data;
  }

  lemma TableStep(c: bv32, b: bv8)
    ensures Bits(Xor(c, Word(b)), 8) == Xor(Bits(Word(LowByte(Xor(c, Word(b)))), 8), Down(c))
  {
    hide Xor, Word, Bits, LowByte, Down;
    ByteStep(Xor(c, Word(b)));
    DownIgnoresLow(c, b);
    XorCommutes(Down(c), Bits(Word(LowByte(Xor(c, Word(b)))), 8));
  }

  lemma DownIgnoresLow(c: bv32, b: bv8)
    ensures Down(Xor(c, Word(b))) == Down(c)
  {
  }
}
