/**
 The binary encoding shared by records and snapshots: LEB128 varints, zigzag and
 length-prefixed byte strings.
 */
module Codec {
  import opened LogFormat

  /** What a read gives: a value and the rest of the input, or failure. */
  datatype Read<+T> = Got(value: T, rest: Bytes) | Bad

  // --- varints ----------------------------------------------------------------------------------

  /** 7 bits to a byte, the least significant group first. */
  function PutVarint(v: nat): (r: Bytes)
    ensures r != []
  {
    if v < 128 then [v] else [v % 128 + 128] + PutVarint(v / 128)
  }

  /** What a varint may still hold from its n-th byte on. */
  function Room(n: nat): (r: nat)
    requires n <= 9
    ensures r >= 2 && (n < 9 ==> r >= 256)
    decreases 9 - n
  {
    if n == 9 then 2 else 128 * Room(n + 1)
  }

  const U64: nat := 0x1_0000_0000_0000_0000

  lemma RoomIs64()
    ensures Room(0) == U64
  {
    assert Room(8) == 256 && Room(7) == 128 * 256 && Room(6) == 128 * Room(7);
    assert Room(5) == 128 * Room(6) && Room(4) == 128 * Room(5) && Room(3) == 128 * Room(4);
    assert Room(2) == 128 * Room(3) && Room(1) == 128 * Room(2);
  }

  /** The varint whose n-th byte comes next; the tenth may only contribute a single bit. */
  function GetFrom(data: Bytes, n: nat): (r: Read<nat>)
    requires n <= 9
    ensures r.Got? ==> r.value < Room(n) && |r.rest| < |data|
    decreases 9 - n
  {
    if data == [] then Bad
    else if n == 9 then (if data[0] > 1 then Bad else Got(data[0], data[1..]))
    else if data[0] < 128 then Got(data[0], data[1..])
    else
      var more := GetFrom(data[1..], n + 1);
      if more.Bad? then Bad else Got(data[0] - 128 + 128 * more.value, more.rest)
  }

  function GetVarint(data: Bytes): (r: Read<nat>)
    ensures r.Got? ==> r.value < U64 && |r.rest| < |data|
  {
    RoomIs64();
    GetFrom(data, 0)
  }

  lemma {:induction false} GetPut(v: nat, rest: Bytes, n: nat)
    requires n <= 9 && v < Room(n)
    ensures GetFrom(PutVarint(v) + rest, n) == Got(v, rest)
    decreases 9 - n
  {
    var data := PutVarint(v) + rest;
    if v < 128 {
      assert data[1..] == rest;
    } else {
      GetPut(v / 128, rest, n + 1);
      assert data[1..] == PutVarint(v / 128) + rest;
    }
  }

  /** A varint reads back, whatever follows it, for every 64-bit value. */
  lemma VarintRoundTrip(v: nat, rest: Bytes)
    requires v < U64
    ensures GetVarint(PutVarint(v) + rest) == Got(v, rest)
  {
    RoomIs64();
    GetPut(v, rest, 0);
  }

  // --- zigzag ----------------------------------------------------------------------------------------

  const I64: int := 0x8000_0000_0000_0000

  function ZigZag(v: int): nat { if v >= 0 then 2 * v else -2 * v - 1 }

  function UnZigZag(z: nat): int { if z % 2 == 0 then z / 2 else -(z / 2) - 1 }

  function PutSigned(v: int): Bytes { PutVarint(ZigZag(v)) }

  function GetSigned(data: Bytes): (r: Read<int>)
    ensures r.Got? ==> -I64 <= r.value < I64 && |r.rest| < |data|
  {
    var r := GetVarint(data);
    if r.Bad? then Bad else Got(UnZigZag(r.value), r.rest)
  }

  lemma SignedRoundTrip(v: int, rest: Bytes)
    requires -I64 <= v < I64
    ensures GetSigned(PutSigned(v) + rest) == Got(v, rest)
  {
    VarintRoundTrip(ZigZag(v), rest);
  }

  // --- byte strings --------------------------------------------------------------------------------------

  function PutBytes(s: Bytes): Bytes { PutVarint(|s|) + s }

  function GetBytes(data: Bytes): (r: Read<Bytes>)
    ensures r.Got? ==> |r.rest| < |data|
  {
    var n := GetVarint(data);
    if n.Bad? || n.value > |n.rest| then Bad else Got(n.rest[..n.value], n.rest[n.value..])
  }

  lemma BytesRoundTrip(s: Bytes, rest: Bytes)
    requires |s| < U64
    ensures GetBytes(PutBytes(s) + rest) == Got(s, rest)
  {
    VarintRoundTrip(|s|, s + rest);
    assert PutBytes(s) + rest == PutVarint(|s|) + (s + rest);
    assert (s + rest)[..|s|] == s && (s + rest)[|s|..] == rest;
  }

  function GetByte(data: Bytes): (r: Read<Byte>) {
    if data == [] then Bad else Got(data[0], data[1..])
  }

  // --- the reader and the writer as they run -----------------------------------------------------------------

  /** x * 128^n: what a group of bits is worth in the n-th byte. */
  function Scale(x: nat, n: nat): nat { if n == 0 then x else 128 * Scale(x, n - 1) }

  lemma {:induction false} ScaleLaws(a: nat, b: nat, n: nat)
    ensures Scale(a + b, n) == Scale(a, n) + Scale(b, n) && Scale(128 * b, n) == Scale(b, n + 1)
  {
    if n > 0 { ScaleLaws(a, b, n - 1); }
  }

  class ByteWriter {
    var out: Bytes

    constructor ()
      ensures out == []
    {
      out := [];
    }

    method Varint(value: nat)
      modifies this
      ensures out == old(out) + PutVarint(value)
    {
      var v := value;
      while v >= 128
        invariant out + PutVarint(v) == old(out) + PutVarint(value)
      {
        ghost var before := out;
        out := out + [v % 128 + 128];
        assert out + PutVarint(v / 128) == before + PutVarint(v);
        v := v / 128;
      }
      out := out + [v];
    }

    method Signed(value: int)
      modifies this
      ensures out == old(out) + PutSigned(value)
    {
      Varint(if value >= 0 then 2 * value else -2 * value - 1);
    }

    method Text(s: Bytes)
      modifies this
      ensures out == old(out) + PutBytes(s)
    {
      Varint(|s|);
      out := out + s;
    }
  }

  /** A cursor over untrusted input. After a failure every read gives zero. */
  class ByteReader {
    var input: Bytes
    var ok: bool

    constructor (data: Bytes)
      ensures input == data && ok
    {
      input, ok := data, true;
    }

    method Fail()
      modifies this
      ensures !ok && input == []
    {
      ok, input := false, [];
    }

    method Varint() returns (value: nat)
      modifies this
      ensures old(ok) ==>
                match GetVarint(old(input))
                case Got(v, rest) => ok && value == v && input == rest
                case Bad => !ok && value == 0 && input == []
      ensures !old(ok) ==> !ok && value == 0 && input == []
    {
      if !ok {
        Fail();
        return 0;
      }
      ghost var start := input;
      RoomIs64();
      value := 0;
      for i := 0 to 10
        invariant ok && i <= 10
        invariant i <= 9 ==> Pending(start, input, value, i)
        invariant i == 10 ==> GetVarint(start).Bad?
      {
        if input == [] {
          Fail();
          return 0;
        }
        var byte := input[0];
        ghost var before, sofar := input, value;
        input := input[1..];
        if i == 9 && byte > 1 {
          Fail();
          return 0;
        }
        value := value + Scale(byte % 128, i);
        if byte < 128 { return value; }
        PendingNext(start, before, sofar, i);
      }
      Fail();
      return 0;
    }
  }

  // --- sequences of fields ----------------------------------------------------------------------------------

  datatype Kind = Unsigned | Signed | Text | Single

  datatype Field = Nat(n: nat) | Int(i: int) | Str(s: Bytes) | One(b: Byte)

  function KindOf(f: Field): Kind {
    match f
    case Nat(_) => Unsigned
    case Int(_) => Signed
    case Str(_) => Text
    case One(_) => Single
  }

  predicate FieldOk(f: Field) {
    match f
    case Nat(n) => n < U64
    case Int(i) => -I64 <= i < I64
    case Str(s) => |s| < U64
    case One(_) => true
  }

  function PutField(f: Field): Bytes {
    match f
    case Nat(n) => PutVarint(n)
    case Int(i) => PutSigned(i)
    case Str(s) => PutBytes(s)
    case One(b) => [b]
  }

  function GetField(k: Kind, data: Bytes): (r: Read<Field>)
    ensures r.Got? ==> KindOf(r.value) == k && |r.rest| < |data| && (|data| < U64 ==> FieldOk(r.value))
  {
    match k
    case Unsigned => (var r := GetVarint(data); if r.Bad? then Bad else Got(Nat(r.value), r.rest))
    case Signed => (var r := GetSigned(data); if r.Bad? then Bad else Got(Int(r.value), r.rest))
    case Text => (var r := GetBytes(data); if r.Bad? then Bad else Got(Str(r.value), r.rest))
    case Single => (var r := GetByte(data); if r.Bad? then Bad else Got(One(r.value), r.rest))
  }

  lemma FieldRoundTrip(f: Field, rest: Bytes)
    requires FieldOk(f)
    ensures GetField(KindOf(f), PutField(f) + rest) == Got(f, rest)
  {
    hide GetVarint, GetSigned, GetBytes, PutVarint, PutSigned, PutBytes;
    match f
    case Nat(n) => VarintRoundTrip(n, rest);
    case Int(i) => SignedRoundTrip(i, rest);
    case Str(s) => BytesRoundTrip(s, rest);
    case One(b) => assert ([b] + rest)[1..] == rest;
  }

  function PutFields(fs: seq<Field>): Bytes {
    if fs == [] then [] else PutField(fs[0]) + PutFields(fs[1..])
  }

  function Kinds(fs: seq<Field>): seq<Kind> {
    seq(|fs|, i requires 0 <= i < |fs| => KindOf(fs[i]))
  }

  predicate FieldsOk(fs: seq<Field>) {
    forall i | 0 <= i < |fs| :: FieldOk(fs[i])
  }

  function GetFields(kinds: seq<Kind>, data: Bytes): (r: Read<seq<Field>>)
    ensures r.Got? ==> |r.value| == |kinds| && |r.rest| <= |data|
    decreases |kinds|
  {
    if kinds == [] then Got([], data)
    else
      var first := GetField(kinds[0], data);
      if first.Bad? then Bad
      else
        var more := GetFields(kinds[1..], first.rest);
        if more.Bad? then Bad else Got([first.value] + more.value, more.rest)
  }

  lemma {:induction false} GetFieldsFits(kinds: seq<Kind>, data: Bytes)
    requires GetFields(kinds, data).Got?
    ensures var f := GetFields(kinds, data).value;
            (forall i | 0 <= i < |f| :: KindOf(f[i]) == kinds[i]) && (|data| < U64 ==> FieldsOk(f))
    decreases |kinds|
  {
    hide GetField, FieldOk;
    if kinds != [] { GetFieldsFits(kinds[1..], GetField(kinds[0], data).rest); }
  }

  lemma GetFieldsNext(kinds: seq<Kind>, data: Bytes, first: Field, middle: Bytes, more: seq<Field>, rest: Bytes)
    requires kinds != [] && GetField(kinds[0], data) == Got(first, middle) &&
             GetFields(kinds[1..], middle) == Got(more, rest)
    ensures GetFields(kinds, data) == Got([first] + more, rest)
  {
    hide GetField;
  }

  lemma {:induction false} FieldsRoundTrip(fs: seq<Field>, rest: Bytes)
    requires FieldsOk(fs)
    ensures GetFields(Kinds(fs), PutFields(fs) + rest) == Got(fs, rest)
    decreases |fs|
  {
    hide GetField, PutField, FieldOk;
    if fs == [] {
      assert PutFields(fs) + rest == rest;
    } else {
      var tail := fs[1..];
      FieldRoundTrip(fs[0], PutFields(tail) + rest);
      assert PutFields(fs) + rest == PutField(fs[0]) + (PutFields(tail) + rest);
      FieldsRoundTrip(tail, rest);
      assert Kinds(fs)[1..] == Kinds(tail) && Kinds(fs)[0] == KindOf(fs[0]);
      GetFieldsNext(Kinds(fs), PutFields(fs) + rest, fs[0], PutFields(tail) + rest, tail, rest);
      assert fs == [fs[0]] + tail;
    }
  }

  /** i bytes of a varint have been read and are worth `value`. */
  ghost predicate Pending(start: Bytes, rest: Bytes, value: nat, i: nat) {
    i <= 9 && GetVarint(start) == (var r := GetFrom(rest, i);
                                   if r.Bad? then Bad else Got(value + Scale(r.value, i), r.rest))
  }

  lemma PendingNext(start: Bytes, rest: Bytes, value: nat, i: nat)
    requires Pending(start, rest, value, i) && i < 9 && rest != [] && rest[0] >= 128
    ensures Pending(start, rest[1..], value + Scale(rest[0] % 128, i), i + 1)
  {
    hide Scale;
    var more := GetFrom(rest[1..], i + 1);
    if more.Got? { ScaleLaws(rest[0] - 128, 128 * more.value, i); ScaleLaws(0, more.value, i); }
  }
}
