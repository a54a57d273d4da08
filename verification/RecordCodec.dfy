/** The payload encoding of the eight record types. */
module RecordCodec {
  import opened Wrappers
  import opened LogFormat
  import opened Codec
  import opened Jobs

  const VERSION: Byte := 1
  /** The largest timestamp a record may carry. */
  const MAX_TIME: int := 0x4_0000_0000_0000
  const U32: nat := 0x1_0000_0000
  const I32: int := 0x8000_0000

  predicate TimeOk(t: Time) { 0 <= t <= MAX_TIME }

  /** Wire values, in the order the types are declared. */
  function TypeOf(r: Record): Byte {
    match r
    case JobEnqueued(_, _, _, _, _, _, _, _, _, _, _) => 1
    case JobLeased(_, _, _, _) => 2
    case LeaseExtended(_, _, _, _) => 3
    case JobSucceeded(_, _, _) => 4
    case AttemptFailed(_, _, _, _, _, _, _) => 5
    case JobCancelled(_, _) => 6
    case DeadJobRetried(_, _, _) => 7
    case JobsPurged(_) => 8
  }

  function Ids(ids: seq<JobId>): seq<Field> {
    if ids == [] then [] else [Nat(ids[0])] + Ids(ids[1..])
  }

  function Fields(r: Record): seq<Field> {
    match r
    case JobEnqueued(id, queue, payload, priority, runAt, maxAttempts, base, cap, key, expires, at) =>
      [Nat(id), Str(queue), Str(payload), Int(priority), Int(runAt), Nat(maxAttempts), Nat(base), Nat(cap), Str(key),
       Int(expires), Int(at)]
    case JobLeased(id, token, expires, at) => [Nat(id), Nat(token), Int(expires), Int(at)]
    case LeaseExtended(id, token, expires, at) => [Nat(id), Nat(token), Int(expires), Int(at)]
    case JobSucceeded(id, token, at) => [Nat(id), Nat(token), Int(at)]
    case AttemptFailed(id, token, reason, error, at, dead, retryAt) =>
      [Nat(id), Nat(token), One(if reason.WorkerFailed? then 0 else 1), Str(error), Int(at), One(if dead then 1 else 0),
       Int(retryAt)]
    case JobCancelled(id, at) => [Nat(id), Int(at)]
    case DeadJobRetried(id, runAt, at) => [Nat(id), Int(runAt), Int(at)]
    case JobsPurged(ids) => [Nat(|ids|)] + Ids(ids)
  }

  function Encode(r: Record): Bytes { [VERSION] + PutFields(Fields(r)) }

  function Shape(kind: Byte): seq<Kind> {
    match kind
    case 1 => [Unsigned, Text, Text, Signed, Signed, Unsigned, Unsigned, Unsigned, Text, Signed, Signed]
    case 2 => [Unsigned, Unsigned, Signed, Signed]
    case 3 => [Unsigned, Unsigned, Signed, Signed]
    case 4 => [Unsigned, Unsigned, Signed]
    case 5 => [Unsigned, Unsigned, Single, Text, Signed, Single, Signed]
    case 6 => [Unsigned, Signed]
    case 7 => [Unsigned, Signed, Signed]
    case _ => []
  }

  /** The fields are of the right kinds, in number and order. */
  ghost predicate Shaped(kind: Byte, f: seq<Field>) {
    |f| == |Shape(kind)| && forall i | 0 <= i < |f| :: KindOf(f[i]) == Shape(kind)[i]
  }

  /** The record the fields make up, unless one is out of range. */
  function FromFields(kind: Byte, f: seq<Field>): Option<Record>
    requires 1 <= kind <= 7 && Shaped(kind, f)
  {
    match kind
    case 1 =>
      if -I32 <= f[3].i < I32 && TimeOk(f[4].i) && f[5].n < U32 && f[6].n < U32 && f[7].n < U32 && TimeOk(f[9].i) &&
        TimeOk(f[10].i)
      then Some(JobEnqueued(f[0].n, f[1].s, f[2].s, f[3].i, f[4].i, f[5].n, f[6].n, f[7].n, f[8].s, f[9].i, f[10].i))
        else None
    case 2 => if TimeOk(f[2].i) && TimeOk(f[3].i) then Some(JobLeased(f[0].n, f[1].n, f[2].i, f[3].i)) else None
    case 3 => if TimeOk(f[2].i) && TimeOk(f[3].i) then Some(LeaseExtended(f[0].n, f[1].n, f[2].i, f[3].i)) else None
    case 4 => if TimeOk(f[2].i) then Some(JobSucceeded(f[0].n, f[1].n, f[2].i)) else None
    case 5 =>
      if f[2].b <= 1 && TimeOk(f[4].i) && f[5].b <= 1 && TimeOk(f[6].i)
      then Some(AttemptFailed(f[0].n, f[1].n, if f[2].b == 0 then WorkerFailed
                              else LeaseExpired, f[3].s, f[4].i, f[5].b == 1, f[6].i)) else None
    case 6 => if TimeOk(f[1].i) then Some(JobCancelled(f[0].n, f[1].i)) else None
    case 7 => if TimeOk(f[1].i) && TimeOk(f[2].i) then Some(DeadJobRetried(f[0].n, f[1].i, f[2].i)) else None
  }

  function Repeat(n: nat): seq<Kind> { seq(n, _ => Unsigned) }

  function Numbers(f: seq<Field>): (ids: seq<JobId>)
    requires forall i | 0 <= i < |f| :: KindOf(f[i]) == Unsigned
    ensures |ids| == |f|
  {
    if f == [] then [] else assert KindOf(f[0]) == Unsigned; [f[0].n] + Numbers(f[1..])
  }

  /** The ids of a purge: a count that cannot exceed what is left, then the ids. */
  function DecodePurged(data: Bytes): Option<Record> {
    var count := GetVarint(data);
    if count.Bad? || count.value > |count.rest| then None
    else
      var ids := GetFields(Repeat(count.value), count.rest);
      if ids.Bad? || ids.rest != [] then None
      else GetFieldsFits(Repeat(count.value), count.rest); Some(JobsPurged(Numbers(ids.value)))
  }

  /** Strict: a truncated field, an unknown version or value, or trailing bytes is an error. */
  function Decode(kind: Byte, payload: Bytes): Option<Record> {
    if payload == [] || payload[0] != VERSION then None
    else if kind == 8 then DecodePurged(payload[1..])
    else if !(1 <= kind <= 7) then None
    else
      var f := GetFields(Shape(kind), payload[1..]);
      if f.Bad? || f.rest != [] then None
      else GetFieldsFits(Shape(kind), payload[1..]); FromFields(kind, f.value)
  }

  /** What fits the widths of the fields. */
  predicate InRange(r: Record) {
    match r
    case JobEnqueued(id, queue, payload, priority, runAt, maxAttempts, base, cap, key, expires, at) =>
      && id < U64 && |queue| < U64 && |payload| < U64 && |key| < U64 && -I32 <= priority < I32
      && maxAttempts < U32 && base < U32 && cap < U32 && TimeOk(runAt) && TimeOk(expires) && TimeOk(at)
    case JobLeased(id, token, expires, at) => id < U64 && token < U64 && TimeOk(expires) && TimeOk(at)
    case LeaseExtended(id, token, expires, at) => id < U64 && token < U64 && TimeOk(expires) && TimeOk(at)
    case JobSucceeded(id, token, at) => id < U64 && token < U64 && TimeOk(at)
    case AttemptFailed(id, token, _, error, at, _, retryAt) => id < U64 && token < U64 && |error| < U64 && TimeOk(at) &&
      TimeOk(retryAt)
    case JobCancelled(id, at) => id < U64 && TimeOk(at)
    case DeadJobRetried(id, runAt, at) => id < U64 && TimeOk(runAt) && TimeOk(at)
    case JobsPurged(ids) => |ids| < U64 && forall i | 0 <= i < |ids| :: ids[i] < U64
  }

  /** What was encoded decodes to itself, with every byte consumed. */
  lemma RecordRoundTrip(r: Record)
    requires InRange(r)
    ensures Decode(TypeOf(r), Encode(r)) == Some(r)
  {
    var payload := Encode(r);
    assert payload[1..] == PutFields(Fields(r));
    if r.JobsPurged? {
      PurgedRoundTrip(r.ids);
    } else {
      FieldsFit(r);
      FieldsRoundTrip(Fields(r), []);
      assert PutFields(Fields(r)) + [] == PutFields(Fields(r));
      KindsFit(r);
    }
  }

  lemma FieldsFit(r: Record)
    requires InRange(r) && !r.JobsPurged?
    ensures FieldsOk(Fields(r))
  {
  }

  lemma KindsFit(r: Record)
    requires InRange(r) && !r.JobsPurged?
    ensures Kinds(Fields(r)) == Shape(TypeOf(r)) && Shaped(TypeOf(r), Fields(r)) &&
            FromFields(TypeOf(r), Fields(r)) == Some(r)
  {
  }

  lemma {:induction false} IdsFit(ids: seq<JobId>)
    requires forall i | 0 <= i < |ids| :: ids[i] < U64
    ensures |Ids(ids)| == |ids| && FieldsOk(Ids(ids)) && Kinds(Ids(ids)) == Repeat(|ids|)
    ensures (forall i | 0 <= i < |ids| :: KindOf(Ids(ids)[i]) == Unsigned) && Numbers(Ids(ids)) == ids
    ensures |PutFields(Ids(ids))| >= |ids|
  {
    if ids != [] {
      IdsFit(ids[1..]);
      assert Ids(ids)[1..] == Ids(ids[1..]);
    }
  }

  lemma PurgedRoundTrip(ids: seq<JobId>)
    requires |ids| < U64 && forall i | 0 <= i < |ids| :: ids[i] < U64
    ensures DecodePurged(PutFields([Nat(|ids|)] + Ids(ids))) == Some(JobsPurged(ids))
  {
    IdsFit(ids);
    var rest := PutFields(Ids(ids));
    assert ([Nat(|ids|)] + Ids(ids))[1..] == Ids(ids);
    assert PutFields([Nat(|ids|)] + Ids(ids)) == PutVarint(|ids|) + rest;
    VarintRoundTrip(|ids|, rest);
    FieldsRoundTrip(Ids(ids), []);
    assert rest + [] == rest;
  }

  lemma {:induction false} NumbersFit(f: seq<Field>)
    requires (forall i | 0 <= i < |f| :: KindOf(f[i]) == Unsigned) && FieldsOk(f)
    ensures forall i | 0 <= i < |f| :: Numbers(f)[i] < U64
  {
    if f != [] { NumbersFit(f[1..]); }
  }

  /** Whatever is accepted re-encodes to a payload that decodes to the same record. */
  lemma AcceptedReencodes(kind: Byte, payload: Bytes)
    requires |payload| < U64 && Decode(kind, payload).Some?
    ensures var r := Decode(kind, payload).value; TypeOf(r) == kind && InRange(r) && Decode(kind, Encode(r)) == Some(r)
  {
    var r := Decode(kind, payload).value;
    if kind == 8 {
      var count := GetVarint(payload[1..]);
      var ids := GetFields(Repeat(count.value), count.rest);
      GetFieldsFits(Repeat(count.value), count.rest);
      NumbersFit(ids.value);
    } else {
      var f := GetFields(Shape(kind), payload[1..]);
      GetFieldsFits(Shape(kind), payload[1..]);
      FromFieldsInRange(kind, f.value);
    }
    RecordRoundTrip(r);
  }

  lemma FromFieldsInRange(kind: Byte, f: seq<Field>)
    requires 1 <= kind <= 7 && Shaped(kind, f) && FieldsOk(f) && FromFields(kind, f).Some?
    ensures TypeOf(FromFields(kind, f).value) == kind && InRange(FromFields(kind, f).value)
  {
    if |f| > 0 { assert FieldOk(f[0]); }
    if |f| > 1 { assert FieldOk(f[1]); }
    if |f| > 2 { assert FieldOk(f[2]); }
    if |f| > 3 { assert FieldOk(f[3]); }
    if |f| > 8 { assert FieldOk(f[8]); }
  }
}
