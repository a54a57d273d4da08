/**
 Images of the durable state: the pieces an image is encoded in, and the builder that
 reads pieces back and trusts none of them.
 */
module Images {
  import opened Wrappers
  import opened LogFormat
  import opened Codec
  import opened Jobs
  import RecordCodec

  const VERSION: Byte := 1

  // --- images -----------------------------------------------------------------------------------

  datatype QueueImage = QueueImage(name: Bytes, totals: Totals)

  /** A job and where its queue stands in the list of queues. */
  datatype JobImage = JobImage(id: JobId, queue: nat, job: Job)

  datatype Image = Image(nextJobId: JobId, nextToken: Token, queues: seq<QueueImage>, jobs: seq<JobImage>,
                         idem: seq<IdemEntry>)

  /** The orders in which the hash tables of queues and of jobs are walked. */
  datatype Listing = Listing(queues: seq<Bytes>, ids: seq<JobId>)

  ghost predicate Distinct<T>(s: seq<T>) { forall i, j | 0 <= i < j < |s| :: s[i] != s[j] }

  ghost predicate Lists(d: Durable, l: Listing) {
    && Distinct(l.queues) && (forall q :: q in l.queues <==> q in d.totals)
    && Distinct(l.ids) && (forall id :: id in l.ids <==> id in d.jobs)
  }

  /** Where a queue stands in the list; past its end if it is not there. */
  function IndexOf(names: seq<Bytes>, name: Bytes): (i: nat)
    ensures if name in names then i < |names| && names[i] == name else i == |names|
  {
    if names == [] || names[0] == name then 0 else 1 + IndexOf(names[1..], name)
  }

  function QueueImages(d: Durable, names: seq<Bytes>): seq<QueueImage> {
    seq(|names|, i requires 0 <= i < |names| => QueueImage(names[i], TotalsOf(d.totals, names[i])))
  }

  function JobImages(d: Durable, l: Listing): seq<JobImage>
    requires forall id | id in l.ids :: id in d.jobs
  {
    seq(|l.ids|, i requires 0 <= i < |l.ids| => assert l.ids[i] in l.ids;
        JobImage(l.ids[i], IndexOf(l.queues, d.jobs[l.ids[i]].queue), d.jobs[l.ids[i]]))
  }

  /** capture_image(): everything durable, copied. */
  function Capture(d: Durable, l: Listing): Image
    requires forall id | id in l.ids :: id in d.jobs
  {
    Image(d.nextJobId, d.nextToken, QueueImages(d, l.queues), JobImages(d, l), d.idem)
  }

  function StatusCode(s: Status): Byte {
    match s
    case Pending => 0
    case Leased => 1
    case Succeeded => 2
    case Dead => 3
    case Cancelled => 4
  }

  function StatusOf(code: Byte): Status
    requires code <= 4
  {
    if code == 0 then Pending else if code == 1 then Leased else if code == 2 then Succeeded else if code == 3 then Dead
      else Cancelled
  }

  // --- encoding -------------------------------------------------------------------------------

  datatype Entry = QueueEntry | JobEntry | KeyEntry

  const COUNTERS: seq<Kind> := [Unsigned, Unsigned, Unsigned]

  function Shape(e: Entry): (s: seq<Kind>)
    ensures s != []
  {
    match e
    case QueueEntry => [Text, Unsigned, Unsigned, Unsigned, Unsigned, Unsigned]
    case JobEntry =>
      [Unsigned, Unsigned, Text, Signed, Unsigned, Unsigned, Unsigned, Unsigned, Single, Signed, Signed, Signed, Signed,
       Unsigned, Text, Text]
    case KeyEntry => [Text, Unsigned, Signed]
  }

  ghost predicate Shaped(e: Entry, f: seq<Field>) {
    |f| == |Shape(e)| && forall i | 0 <= i < |f| :: KindOf(f[i]) == Shape(e)[i]
  }

  function QueueFields(q: QueueImage): seq<Field> {
    [Str(q.name), Nat(q.totals.enqueued), Nat(q.totals.succeeded), Nat(q.totals.failedAttempts), Nat(q.totals.dead),
     Nat(q.totals.cancelled)]
  }

  function JobFields(j: JobImage): seq<Field> {
    [Nat(j.id), Nat(j.queue), Str(j.job.payload), Int(j.job.priority), Nat(j.job.attempts), Nat(j.job.maxAttempts),
     Nat(j.job.backoffBase), Nat(j.job.backoffCap), One(StatusCode(j.job.status)), Int(j.job.runAt),
       Int(j.job.createdAt),
     Int(j.job.finishedAt), Int(j.job.leaseExpiresAt), Nat(j.job.token), Str(j.job.idemKey), Str(j.job.lastError)]
  }

  function KeyFields(e: IdemEntry): seq<Field> {
    [Str(e.key), Nat(e.jobId), Int(e.expiresAt)]
  }

  function QueueRows(queues: seq<QueueImage>): seq<seq<Field>> {
    seq(|queues|, i requires 0 <= i < |queues| => QueueFields(queues[i]))
  }

  function JobRows(jobs: seq<JobImage>): seq<seq<Field>> {
    seq(|jobs|, i requires 0 <= i < |jobs| => JobFields(jobs[i]))
  }

  function KeyRows(keys: seq<IdemEntry>): seq<seq<Field>> {
    seq(|keys|, i requires 0 <= i < |keys| => KeyFields(keys[i]))
  }

  function PutRows(rows: seq<seq<Field>>): Bytes {
    if rows == [] then [] else PutFields(rows[0]) + PutRows(rows[1..])
  }

  function MetaPiece(image: Image): Bytes {
    [VERSION] + (PutFields([Nat(image.nextJobId), Nat(image.nextToken), Nat(|image.queues|)]) +
                 PutRows(QueueRows(image.queues)))
  }

  function ListPiece(rows: seq<seq<Field>>): Bytes { [VERSION] + (PutVarint(|rows|) + PutRows(rows)) }

  // --- decoding -------------------------------------------------------------------------------

  /** What has been built so far; the queues can be referred to by index. */
  datatype Builder = Builder(haveMeta: bool, names: seq<Bytes>, state: Durable, jobsAdded: nat, keysAdded: nat)

  const BLANK := Builder(false, [], EMPTY, 0, 0)

  function AddQueue(b: Builder, f: seq<Field>): Option<Builder>
    requires Shaped(QueueEntry, f)
  {
    var name := f[0].s;
    if name == [] || name in b.state.totals then None
    else Some(b.(names := b.names + [name],
                 state := b.state.(totals := b.state.totals[name := Totals(f[1].n, f[2].n, f[3].n, f[4].n, f[5].n)])))
  }

  predicate JobRange(f: seq<Field>)
    requires Shaped(JobEntry, f)
  {
    && -RecordCodec.I32 <= f[3].i < RecordCodec.I32 && f[4].n < RecordCodec.U32 && f[5].n < RecordCodec.U32
    && f[6].n < RecordCodec.U32 && f[7].n < RecordCodec.U32 && f[8].b <= 4
    && RecordCodec.TimeOk(f[9].i) && RecordCodec.TimeOk(f[10].i) && RecordCodec.TimeOk(f[11].i) &&
       RecordCodec.TimeOk(f[12].i)
  }

  function AddJob(b: Builder, f: seq<Field>): Option<Builder>
    requires Shaped(JobEntry, f)
  {
    var id, queue, token := f[0].n, f[1].n, f[13].n;
    if id == 0 || id >= b.state.nextJobId || queue >= |b.names| || id in b.state.jobs || !JobRange(f) then None
    else if token >= b.state.nextToken || HoldsToken(StatusOf(f[8].b)) != (token != 0) || f[4].n > f[5].n then None
    else
      var job := Job(b.names[queue], f[2].s, f[3].i, f[4].n, f[5].n, f[6].n, f[7].n, StatusOf(f[8].b),
                     f[9].i, f[10].i, f[11].i, f[12].i, token, f[14].s, f[15].s);
      Some(b.(state := b.state.(jobs := b.state.jobs[id := job]), jobsAdded := b.jobsAdded + 1))
  }

  predicate HasKey(idem: seq<IdemEntry>, key: Bytes) { exists i :: 0 <= i < |idem| && idem[i].key == key }

  function AddKey(b: Builder, f: seq<Field>): Option<Builder>
    requires Shaped(KeyEntry, f)
  {
    var key := f[0].s;
    if key == [] || !RecordCodec.TimeOk(f[2].i) || HasKey(b.state.idem, key) then None
    else Some(b.(state := b.state.(idem := b.state.idem + [IdemEntry(key, f[1].n, f[2].i)]), keysAdded :=
                 b.keysAdded + 1))
  }

  function Add(e: Entry, b: Builder, f: seq<Field>): Option<Builder>
    requires Shaped(e, f)
  {
    match e
    case QueueEntry => AddQueue(b, f)
    case JobEntry => AddJob(b, f)
    case KeyEntry => AddKey(b, f)
  }

  /** Entry by entry, each one checked before the next is read. */
  function AddAll(e: Entry, b: Builder, count: nat, data: Bytes): Read<Builder>
    decreases count
  {
    if count == 0 then Got(b, data)
    else
      var f := GetFields(Shape(e), data);
      if f.Bad? then Bad
      else
        GetFieldsFits(Shape(e), data);
        var next := Add(e, b, f.value);
        if next.None? then Bad else AddAll(e, next.value, count - 1, f.rest)
  }

  function AddMeta(b: Builder, piece: Bytes): Option<Builder> {
    if b.haveMeta || piece == [] || piece[0] != VERSION then None
    else
      var c := GetFields(COUNTERS, piece[1..]);
      if c.Bad? then None
      else
        GetFieldsFits(COUNTERS, piece[1..]);
        assert KindOf(c.value[0]) == KindOf(c.value[1]) == KindOf(c.value[2]) == Unsigned;
        if c.value[0].n == 0 || c.value[1].n == 0 || c.value[2].n > |c.rest| then None
        else
          var start := b.(state := b.state.(nextJobId := c.value[0].n, nextToken := c.value[1].n));
          var r := AddAll(QueueEntry, start, c.value[2].n, c.rest);
          if r.Bad? || r.rest != [] then None else Some(r.value.(haveMeta := true))
  }

  /** A piece of jobs or of keys. A count that cannot be read leaves a failed reader, which
      gives zero and is at its end: such a piece passes for an empty one. */
  function AddList(e: Entry, b: Builder, piece: Bytes): Option<Builder> {
    if !b.haveMeta || piece == [] || piece[0] != VERSION then None
    else
      var count := GetVarint(piece[1..]);
      if count.Bad? then Some(b)
      else if count.value > |count.rest| then None
      else
        var r := AddAll(e, b, count.value, count.rest);
        if r.Bad? || r.rest != [] then None else Some(r.value)
  }

  /** The rows of so many entries, as they stand in the data. */
  function GetRows(e: Entry, count: nat, data: Bytes): Read<seq<seq<Field>>>
    decreases count
  {
    if count == 0 then Got([], data)
    else
      var f := GetFields(Shape(e), data);
      if f.Bad? then Bad
      else
        var more := GetRows(e, count - 1, f.rest);
        if more.Bad? then Bad else Got([f.value] + more.value, more.rest)
  }

  /** The piece is a count followed by exactly that many entries. */
  ghost predicate IsCounted(e: Entry, piece: Bytes) {
    piece != [] && exists n: nat, rest: Bytes, rows: seq<seq<Field>> :: CountsAs(e, piece, n, rest, rows)
  }

  ghost predicate CountsAs(e: Entry, piece: Bytes, n: nat, rest: Bytes, rows: seq<seq<Field>>)
    requires piece != []
  {
    GetVarint(piece[1..]) == Got(n, rest) && GetRows(e, n, rest) == Got(rows, []) && |rows| == n
  }

  /** How many jobs and keys have been taken. */
  function Added(b: Builder): nat { b.jobsAdded + b.keysAdded }

  lemma {:induction false} AddAllReadsRows(e: Entry, b: Builder, count: nat, data: Bytes)
    requires AddAll(e, b, count, data).Got? && !e.QueueEntry?
    ensures var r, rows := AddAll(e, b, count, data), GetRows(e, count, data);
            && rows.Got? && rows.rest == r.rest && |rows.value| == count && Added(r.value) == Added(b) + count
            && (e.JobEntry? ==> r.value.keysAdded == b.keysAdded) && (e.KeyEntry? ==> r.value.jobsAdded == b.jobsAdded)
    decreases count
  {
    hide Shape, GetFields, JobRange;
    if count > 0 {
      var f := GetFields(Shape(e), data);
      GetFieldsFits(Shape(e), data);
      AddAllReadsRows(e, Add(e, b, f.value).value, count - 1, f.rest);
    }
  }

  /** A piece that is taken is a count and that many entries, and they are what is added, if
      and only if its count can be read. Otherwise it passes for an empty piece. */
  lemma AcceptedIsCounted(e: Entry, b: Builder, piece: Bytes)
    requires AddList(e, b, piece).Some? && !e.QueueEntry?
    ensures IsCounted(e, piece) <==> GetVarint(piece[1..]).Got?
    ensures var n := GetVarint(piece[1..]);
            if n.Got? then Added(AddList(e, b, piece).value) == Added(b) + n.value else AddList(e, b, piece) == Some(b)
  {
    hide AddAll, GetVarint, GetRows;
    var n := GetVarint(piece[1..]);
    if n.Got? {
      AddAllReadsRows(e, b, n.value, n.rest);
      assert CountsAs(e, piece, n.value, n.rest, GetRows(e, n.value, n.rest).value);
    }
  }

  /** A piece that ends where its count should be is taken as an empty one. */
  lemma UnreadableCountPasses(e: Entry, b: Builder)
    requires b.haveMeta
    ensures AddList(e, b, [VERSION]) == Some(b)
  {
    assert [VERSION][1..] == [];
    RoomIs64();
  }

  // --- the order of the keys ---------------------------------------------------------------------

  function Inserted(e: IdemEntry, sorted: seq<IdemEntry>): seq<IdemEntry> {
    if sorted == [] || e.expiresAt <= sorted[0].expiresAt then [e] + sorted else [sorted[0]] + Inserted(e, sorted[1..])
  }

  /** The stable sort by expiry that ends the building. */
  function ByExpiry(idem: seq<IdemEntry>): seq<IdemEntry> {
    if idem == [] then [] else Inserted(idem[0], ByExpiry(idem[1..]))
  }

  ghost predicate InOrder(idem: seq<IdemEntry>) {
    forall i, j | 0 <= i < j < |idem| :: idem[i].expiresAt <= idem[j].expiresAt
  }

  /** The entries that expire at t, in the order they are in. */
  function Expiring(idem: seq<IdemEntry>, t: Time): seq<IdemEntry> {
    if idem == [] then [] else (if idem[0].expiresAt == t then [idem[0]] else []) + Expiring(idem[1..], t)
  }

  lemma {:induction false} InsertedInOrder(e: IdemEntry, sorted: seq<IdemEntry>)
    requires InOrder(sorted)
    ensures InOrder(Inserted(e, sorted))
    ensures forall i | 0 <= i < |Inserted(e, sorted)| :: Inserted(e, sorted)[i] == e || Inserted(e, sorted)[i] in sorted
  {
    if sorted != [] && e.expiresAt > sorted[0].expiresAt {
      var rest, more := sorted[1..], Inserted(e, sorted[1..]);
      InsertedInOrder(e, rest);
      forall j | 0 <= j < |more|
        ensures sorted[0].expiresAt <= more[j].expiresAt && (more[j] == e || more[j] in sorted) {
        if more[j] != e { var i :| 0 <= i < |rest| && rest[i] == more[j]; assert rest[i] == sorted[i + 1]; }
      }
      assert Inserted(e, sorted) == [sorted[0]] + more;
    }
  }

  lemma {:induction false} InsertedKeeps(e: IdemEntry, sorted: seq<IdemEntry>)
    ensures multiset(Inserted(e, sorted)) == multiset{e} + multiset(sorted)
  {
    if sorted != [] && e.expiresAt > sorted[0].expiresAt {
      InsertedKeeps(e, sorted[1..]);
      assert sorted == [sorted[0]] + sorted[1..];
    }
  }

  lemma {:induction false} InsertedIsStable(e: IdemEntry, sorted: seq<IdemEntry>, t: Time)
    requires InOrder(sorted)
    ensures Expiring(Inserted(e, sorted), t) == Expiring([e] + sorted, t)
  {
    assert ([e] + sorted)[1..] == sorted;
    if sorted != [] && e.expiresAt > sorted[0].expiresAt {
      var rest, more := sorted[1..], Inserted(e, sorted[1..]);
      InsertedIsStable(e, rest, t);
      assert ([e] + rest)[1..] == rest && ([sorted[0]] + more)[1..] == more;
    } else {
      assert Inserted(e, sorted) == [e] + sorted;
    }
  }

  /** It puts the keys in order of expiry, loses none, and keeps the order of those that
      expire together. */
  lemma {:induction false} ByExpirySorts(idem: seq<IdemEntry>, t: Time)
    ensures InOrder(ByExpiry(idem)) && multiset(ByExpiry(idem)) == multiset(idem)
    ensures Expiring(ByExpiry(idem), t) == Expiring(idem, t)
  {
    if idem != [] {
      ByExpirySorts(idem[1..], t);
      InsertedInOrder(idem[0], ByExpiry(idem[1..]));
      InsertedKeeps(idem[0], ByExpiry(idem[1..]));
      InsertedIsStable(idem[0], ByExpiry(idem[1..]), t);
      var sorted := ByExpiry(idem[1..]);
      assert ([idem[0]] + sorted)[1..] == sorted && idem == [idem[0]] + idem[1..];
    }
  }

  lemma {:induction false} InOrderStays(idem: seq<IdemEntry>)
    requires InOrder(idem)
    ensures ByExpiry(idem) == idem
  {
    if idem != [] {
      InOrderStays(idem[1..]);
      assert idem == [idem[0]] + idem[1..];
    }
  }

  function Finish(b: Builder): Option<Durable> {
    if !b.haveMeta then None else Some(b.state.(idem := ByExpiry(b.state.idem)))
  }

  /** The builder as it runs: entries are taken one by one into the state being built. After
      a refusal it is not used any more. */
  class StateBuilder {
    var haveMeta: bool
    var names: seq<Bytes>
    var state: Durable
    var jobsAdded: nat
    var keysAdded: nat

    function Built(): Builder
      reads this
    {
      Builder(haveMeta, names, state, jobsAdded, keysAdded)
    }

    constructor ()
      ensures Built() == BLANK
    {
      haveMeta, names, state, jobsAdded, keysAdded := false, [], EMPTY, 0, 0;
    }

    method Become(b: Builder)
      modifies this
      ensures Built() == b
    {
      haveMeta, names, state, jobsAdded, keysAdded := b.haveMeta, b.names, b.state, b.jobsAdded, b.keysAdded;
    }

    method TakeAll(e: Entry, count: nat, data: Bytes) returns (ok: bool, rest: Bytes)
      modifies this
      ensures match AddAll(e, old(Built()), count, data)
              case Got(b, r) => ok && Built() == b && rest == r
              case Bad => !ok
    {
      hide Add, GetFields;
      rest := data;
      for i := 0 to count
        invariant AddAll(e, old(Built()), count, data) == AddAll(e, Built(), count - i, rest)
      {
        var f := GetFields(Shape(e), rest);
        if f.Bad? { return false, rest; }
        GetFieldsFits(Shape(e), rest);
        var next := Add(e, Built(), f.value);
        if next.None? { return false, rest; }
        Become(next.value);
        rest := f.rest;
      }
      return true, rest;
    }

    method TakeMeta(piece: Bytes) returns (ok: bool)
      modifies this
      ensures match AddMeta(old(Built()), piece)
              case Some(b) => ok && Built() == b
              case None => !ok
    {
      hide AddAll, GetFields;
      if haveMeta || piece == [] || piece[0] != VERSION { return false; }
      var c := GetFields(COUNTERS, piece[1..]);
      if c.Bad? { return false; }
      GetFieldsFits(COUNTERS, piece[1..]);
      assert KindOf(c.value[0]) == KindOf(c.value[1]) == KindOf(c.value[2]) == Unsigned;
      if c.value[0].n == 0 || c.value[1].n == 0 || c.value[2].n > |c.rest| { return false; }
      state := state.(nextJobId := c.value[0].n, nextToken := c.value[1].n);
      var rest;
      ok, rest := TakeAll(QueueEntry, c.value[2].n, c.rest);
      ok := ok && rest == [];
      if ok { haveMeta := true; }
    }

    method TakeList(e: Entry, piece: Bytes) returns (ok: bool)
      modifies this
      ensures match AddList(e, old(Built()), piece)
              case Some(b) => ok && Built() == b
              case None => !ok
    {
      hide AddAll, GetVarint;
      if !haveMeta || piece == [] || piece[0] != VERSION { return false; }
      var count := GetVarint(piece[1..]);
      if count.Bad? { return true; }
      if count.value > |count.rest| { return false; }
      var rest;
      ok, rest := TakeAll(e, count.value, count.rest);
      ok := ok && rest == [];
    }
  }

  // --- round trips --------------------------------------------------------------------------------

  predicate JobFits(job: Job) {
    && |job.payload| < U64 && |job.idemKey| < U64 && |job.lastError| < U64
    && -RecordCodec.I32 <= job.priority < RecordCodec.I32 && job.attempts < RecordCodec.U32 &&
       job.maxAttempts < RecordCodec.U32
    && job.backoffBase < RecordCodec.U32 && job.backoffCap < RecordCodec.U32
    && RecordCodec.TimeOk(job.runAt) && RecordCodec.TimeOk(job.createdAt) && RecordCodec.TimeOk(job.finishedAt) &&
       RecordCodec.TimeOk(job.leaseExpiresAt)
  }

  predicate TotalsFit(t: Totals) {
    t.enqueued < U64 && t.succeeded < U64 && t.failedAttempts < U64 && t.dead < U64 && t.cancelled < U64
  }

  predicate KeyFits(e: IdemEntry) { e.key != [] && |e.key| < U64 && e.jobId < U64 && RecordCodec.TimeOk(e.expiresAt) }

  /** An image the encoding has room for: what capture_image() gives of a sound state. */
  ghost predicate Encodable(image: Image) {
    && 1 <= image.nextJobId < U64 && 1 <= image.nextToken < U64 && |image.queues| < U64 && |image.jobs| < U64 &&
       |image.idem| < U64
    && (forall i | 0 <= i < |image.queues| :: QueueOk(image.queues, i))
    && (forall i | 0 <= i < |image.jobs| :: ImageJobOk(image, i))
    && (forall i | 0 <= i < |image.idem| :: KeyOk(image.idem, i))
  }

  ghost predicate QueueOk(queues: seq<QueueImage>, i: nat)
    requires i < |queues|
  {
    && queues[i].name != [] && |queues[i].name| < U64 && TotalsFit(queues[i].totals)
    && forall j | 0 <= j < i :: queues[j].name != queues[i].name
  }

  ghost predicate ImageJobOk(image: Image, i: nat)
    requires i < |image.jobs|
  {
    var j := image.jobs[i];
    && 1 <= j.id < image.nextJobId && j.queue < |image.queues| && j.job.queue == image.queues[j.queue].name
    && JobFits(j.job) && j.job.token < image.nextToken && HoldsToken(j.job.status) == (j.job.token != 0) &&
       j.job.attempts <= j.job.maxAttempts
    && forall k | 0 <= k < i :: image.jobs[k].id != j.id
  }

  ghost predicate KeyOk(idem: seq<IdemEntry>, i: nat)
    requires i < |idem|
  {
    KeyFits(idem[i]) && forall j | 0 <= j < i :: idem[j].key != idem[i].key
  }

  function Names(queues: seq<QueueImage>): seq<Bytes> { seq(|queues|, i requires 0 <= i < |queues| => queues[i].name) }

  function TotalsIn(queues: seq<QueueImage>): map<Bytes, Totals> {
    if queues == [] then map[] else TotalsIn(queues[..|queues| - 1])[queues[|queues| - 1].name :=
                                                                     queues[|queues| - 1].totals]
  }

  function JobsIn(jobs: seq<JobImage>): map<JobId, Job> {
    if jobs == [] then map[] else JobsIn(jobs[..|jobs| - 1])[jobs[|jobs| - 1].id := jobs[|jobs| - 1].job]
  }

  /** The state an image describes. */
  function Described(image: Image): Durable {
    Durable(JobsIn(image.jobs), TotalsIn(image.queues), image.nextJobId, image.nextToken, image.idem)
  }

  /** The builder once it has seen the first queues, jobs and keys of an image. */
  function Stage(image: Image, meta: bool, queues: nat, jobs: nat, keys: nat): Builder
    requires queues <= |image.queues| && jobs <= |image.jobs| && keys <= |image.idem|
  {
    Builder(meta, Names(image.queues[..queues]),
            Durable(JobsIn(image.jobs[..jobs]), TotalsIn(image.queues[..queues]), image.nextJobId, image.nextToken,
                    image.idem[..keys]), jobs, keys)
  }

  // --- one entry

  lemma {:induction false} TotalsInKeys(queues: seq<QueueImage>, name: Bytes)
    ensures name in TotalsIn(queues) <==> exists i :: 0 <= i < |queues| && queues[i].name == name
  {
    if queues != [] {
      var before := queues[..|queues| - 1];
      TotalsInKeys(before, name);
      assert forall i | 0 <= i < |before| :: before[i] == queues[i];
    }
  }

  lemma {:induction false} JobsInKeys(jobs: seq<JobImage>, id: JobId)
    ensures id in JobsIn(jobs) <==> exists i :: 0 <= i < |jobs| && jobs[i].id == id
  {
    if jobs != [] {
      var before := jobs[..|jobs| - 1];
      JobsInKeys(before, id);
      assert forall i | 0 <= i < |before| :: before[i] == jobs[i];
    }
  }

  lemma QueueAdded(image: Image, n: nat)
    requires n < |image.queues| && QueueOk(image.queues, n)
    ensures var f := QueueFields(image.queues[n]);
            FieldsOk(f) && Shaped(QueueEntry, f) && AddQueue(Stage(image, false, n, 0, 0), f) ==
              Some(Stage(image, false, n + 1, 0, 0))
  {
    hide TotalsIn, JobsIn;
    var q, next := image.queues[n], image.queues[..n + 1];
    TotalsInKeys(image.queues[..n], q.name);
    assert next[..n] == image.queues[..n] && next[n] == q;
    assert Names(next) == Names(image.queues[..n]) + [q.name];
    NextTotals(next);
    assert q.totals == Totals(q.totals.enqueued, q.totals.succeeded, q.totals.failedAttempts, q.totals.dead,
                              q.totals.cancelled);
  }

  lemma NextTotals(queues: seq<QueueImage>)
    requires queues != []
    ensures TotalsIn(queues) == TotalsIn(queues[..|queues| - 1])[queues[|queues| - 1].name :=
                                                                 queues[|queues| - 1].totals]
  {
  }

  lemma JobAdded(b: Builder, j: JobImage)
    requires 1 <= j.id < b.state.nextJobId && j.id < U64 && j.queue < |b.names| && j.queue < U64 &&
             j.job.queue == b.names[j.queue] && j.id !in b.state.jobs
    requires JobFits(j.job) && j.job.token < b.state.nextToken && j.job.token < U64 &&
             HoldsToken(j.job.status) == (j.job.token != 0) && j.job.attempts <= j.job.maxAttempts
    ensures var f := JobFields(j);
            FieldsOk(f) && Shaped(JobEntry, f)
            && AddJob(b, f) == Some(b.(state := b.state.(jobs := b.state.jobs[j.id := j.job]), jobsAdded :=
                                       b.jobsAdded + 1))
  {
    JobFieldsFit(j);
    var f, job := JobFields(j), j.job;
    assert StatusOf(StatusCode(job.status)) == job.status;
    assert Job(job.queue, f[2].s, f[3].i, f[4].n, f[5].n, f[6].n, f[7].n, job.status, f[9].i, f[10].i, f[11].i, f[12].i,
               f[13].n, f[14].s, f[15].s) == job;
  }

  lemma JobFieldsFit(j: JobImage)
    requires j.id < U64 && j.queue < U64 && JobFits(j.job) && j.job.token < U64
    ensures FieldsOk(JobFields(j)) && Shaped(JobEntry, JobFields(j)) && JobRange(JobFields(j))
  {
  }

  lemma JobStaged(image: Image, n: nat)
    requires Encodable(image) && n < |image.jobs|
    ensures var f := JobFields(image.jobs[n]);
            FieldsOk(f) && Shaped(JobEntry, f)
            && AddJob(Stage(image, true, |image.queues|, n, 0), f) == Some(Stage(image, true, |image.queues|, n + 1, 0))
  {
    hide TotalsIn, JobsIn, AddJob, JobFields, Shaped, JobFits;
    var j, next, before := image.jobs[n], image.jobs[..n + 1], image.jobs[..n];
    assert ImageJobOk(image, n);
    JobsInKeys(before, j.id);
    assert forall i | 0 <= i < n :: before[i] == image.jobs[i];
    assert image.queues[..|image.queues|] == image.queues;
    JobAdded(Stage(image, true, |image.queues|, n, 0), j);
    assert next[..n] == before && next[n] == j;
    NextJobs(next);
  }

  lemma NextJobs(jobs: seq<JobImage>)
    requires jobs != []
    ensures JobsIn(jobs) == JobsIn(jobs[..|jobs| - 1])[jobs[|jobs| - 1].id := jobs[|jobs| - 1].job]
  {
  }

  lemma KeyStaged(image: Image, m: nat)
    requires m < |image.idem| && KeyOk(image.idem, m)
    ensures var f := KeyFields(image.idem[m]);
            FieldsOk(f) && Shaped(KeyEntry, f)
            && AddKey(Stage(image, true, |image.queues|, |image.jobs|, m), f) ==
               Some(Stage(image, true, |image.queues|, |image.jobs|, m + 1))
  {
    hide TotalsIn, JobsIn, Names;
    var e, before := image.idem[m], image.idem[..m];
    assert image.idem[..m + 1] == before + [e];
    assert forall i | 0 <= i < m :: before[i] == image.idem[i];
    assert e == IdemEntry(e.key, e.jobId, e.expiresAt);
  }

  // --- a piece

  /** One entry that reads back and is taken, then the rest. */
  lemma AddOne(e: Entry, b: Builder, b': Builder, f: seq<Field>, count: nat, rest: Bytes)
    requires FieldsOk(f) && Shaped(e, f) && Add(e, b, f) == Some(b')
    ensures AddAll(e, b, count + 1, PutFields(f) + rest) == AddAll(e, b', count, rest)
  {
    hide Add, PutFields, FieldsOk;
    FieldsRoundTrip(f, rest);
    assert Kinds(f) == Shape(e);
  }

  /** Entry i takes the builder from stage i to the next. */
  ghost predicate Takes(e: Entry, rows: seq<seq<Field>>, stages: seq<Builder>, i: nat)
    requires i < |rows| < |stages|
  {
    FieldsOk(rows[i]) && Shaped(e, rows[i]) && Add(e, stages[i], rows[i]) == Some(stages[i + 1])
  }

  /** Entries that are all taken take the builder to the last stage. */
  lemma {:induction false} RowsReadBack(e: Entry, rows: seq<seq<Field>>, stages: seq<Builder>, rest: Bytes)
    requires |stages| == |rows| + 1 && forall i | 0 <= i < |rows| :: Takes(e, rows, stages, i)
    ensures |PutRows(rows)| >= |rows|
    ensures AddAll(e, stages[0], |rows|, PutRows(rows) + rest) == Got(stages[|rows|], rest)
    decreases |rows|
  {
    hide Add, PutFields, FieldsOk, Shaped;
    if rows == [] {
      assert PutRows(rows) + rest == rest;
    } else {
      var rows', stages' := rows[1..], stages[1..];
      assert Takes(e, rows, stages, 0);
      forall i | 0 <= i < |rows'| ensures Takes(e, rows', stages', i) { assert Takes(e, rows, stages, i + 1); }
      RowsReadBack(e, rows', stages', rest);
      AddOne(e, stages[0], stages[1], rows[0], |rows'|, PutRows(rows') + rest);
      assert PutRows(rows) + rest == PutFields(rows[0]) + (PutRows(rows') + rest);
      SomeBytes(e, rows[0]);
    }
  }

  lemma SomeBytes(e: Entry, f: seq<Field>)
    requires Shaped(e, f)
    ensures |PutFields(f)| >= 1
  {
    assert PutField(f[0]) != [];
  }

  /** A piece whose entries are all taken is taken as a whole. */
  lemma ListReadsBack(e: Entry, rows: seq<seq<Field>>, stages: seq<Builder>)
    requires |stages| == |rows| + 1 && |rows| < U64 && stages[0].haveMeta &&
             forall i | 0 <= i < |rows| :: Takes(e, rows, stages, i)
    ensures AddList(e, stages[0], ListPiece(rows)) == Some(stages[|rows|])
  {
    hide Takes, AddAll, PutVarint, GetVarint;
    RowsReadBack(e, rows, stages, []);
    var data := PutRows(rows);
    assert data + [] == data;
    VarintRoundTrip(|rows|, data);
    assert ListPiece(rows)[1..] == PutVarint(|rows|) + data;
  }

  /** The meta piece, read first, restores the counters and the queues in order. */
  lemma MetaRoundTrip(image: Image)
    requires Encodable(image)
    ensures AddMeta(BLANK, MetaPiece(image)) == Some(Stage(image, true, |image.queues|, 0, 0))
  {
    hide AddAll, PutFields, QueueOk, ImageJobOk, KeyOk, Add;
    var counters := [Nat(image.nextJobId), Nat(image.nextToken), Nat(|image.queues|)];
    var rows := QueueRows(image.queues);
    var stages := seq(|rows| + 1, i requires 0 <= i <= |rows| => Stage(image, false, i, 0, 0));
    forall i | 0 <= i < |rows| ensures Takes(QueueEntry, rows, stages, i) { QueueTaken(image, rows, stages, i); }
    hide Takes;
    RowsReadBack(QueueEntry, rows, stages, []);
    hide Stage;
    var piece, rest := MetaPiece(image), PutRows(rows);
    assert rest + [] == rest;
    assert piece[1..] == PutFields(counters) + rest;
    FieldsRoundTrip(counters, rest);
    assert Kinds(counters) == COUNTERS;
    Opened(image);
  }

  lemma QueueTaken(image: Image, rows: seq<seq<Field>>, stages: seq<Builder>, i: nat)
    requires Encodable(image) && rows == QueueRows(image.queues) && i < |rows| < |stages|
    requires stages[i] == Stage(image, false, i, 0, 0) && stages[i + 1] == Stage(image, false, i + 1, 0, 0)
    ensures Takes(QueueEntry, rows, stages, i)
  {
    hide Stage, QueueFields, AddQueue;
    assert QueueOk(image.queues, i);
    QueueAdded(image, i);
  }

  lemma Opened(image: Image)
    ensures Stage(image, false, 0, 0, 0) ==
            BLANK.(state := BLANK.state.(nextJobId := image.nextJobId, nextToken := image.nextToken))
    ensures Stage(image, false, |image.queues|, 0, 0).(haveMeta := true) == Stage(image, true, |image.queues|, 0, 0)
  {
  }

  /** A jobs piece with any run of the jobs, read where it belongs, adds exactly those. */
  lemma JobsRoundTrip(image: Image, n: nat, k: nat)
    requires Encodable(image) && n + k <= |image.jobs|
    ensures AddList(JobEntry, Stage(image, true, |image.queues|, n, 0), ListPiece(JobRows(image.jobs[n..n + k])))
            == Some(Stage(image, true, |image.queues|, n + k, 0))
  {
    hide Encodable, AddList, ListPiece, Add;
    var rows := JobRows(image.jobs[n..n + k]);
    var stages := seq(k + 1, i requires 0 <= i <= k && n + k <=
                      |image.jobs| => Stage(image, true, |image.queues|, n + i, 0));
    forall i | 0 <= i < k ensures Takes(JobEntry, rows, stages, i) { JobTaken(image, n, k, rows, stages, i); }
    Fits(image);
    assert stages[0] == Stage(image, true, |image.queues|, n + 0, 0);
    ListReadsBack(JobEntry, rows, stages);
  }

  lemma JobTaken(image: Image, n: nat, k: nat, rows: seq<seq<Field>>, stages: seq<Builder>, i: nat)
    requires Encodable(image) && n + k <= |image.jobs| && rows == JobRows(image.jobs[n..n + k]) && i < |rows| < |stages|
    requires stages[i] == Stage(image, true, |image.queues|, n + i, 0) &&
             stages[i + 1] == Stage(image, true, |image.queues|, n + i + 1, 0)
    ensures Takes(JobEntry, rows, stages, i)
  {
    hide Stage, JobFields, AddJob, Encodable;
    assert image.jobs[n..n + k][i] == image.jobs[n + i];
    JobStaged(image, n + i);
  }

  lemma Fits(image: Image)
    requires Encodable(image)
    ensures |image.jobs| < U64 && |image.idem| < U64
  {
  }

  lemma KeysRoundTrip(image: Image, m: nat, k: nat)
    requires Encodable(image) && m + k <= |image.idem|
    ensures AddList(KeyEntry, Stage(image, true, |image.queues|, |image.jobs|, m),
                    ListPiece(KeyRows(image.idem[m..m + k])))
            == Some(Stage(image, true, |image.queues|, |image.jobs|, m + k))
  {
    hide Encodable, AddList, ListPiece, Add;
    var rows := KeyRows(image.idem[m..m + k]);
    var stages := seq(k + 1, i requires 0 <= i <= k && m + k <=
                      |image.idem| => Stage(image, true, |image.queues|, |image.jobs|, m + i));
    forall i | 0 <= i < k ensures Takes(KeyEntry, rows, stages, i) { KeyTaken(image, m, k, rows, stages, i); }
    Fits(image);
    assert stages[0] == Stage(image, true, |image.queues|, |image.jobs|, m + 0);
    ListReadsBack(KeyEntry, rows, stages);
  }

  lemma KeyTaken(image: Image, m: nat, k: nat, rows: seq<seq<Field>>, stages: seq<Builder>, i: nat)
    requires Encodable(image) && m + k <= |image.idem| && rows == KeyRows(image.idem[m..m + k]) && i < |rows| < |stages|
    requires stages[i] == Stage(image, true, |image.queues|, |image.jobs|, m + i) &&
             stages[i + 1] == Stage(image, true, |image.queues|, |image.jobs|, m + i + 1)
    ensures Takes(KeyEntry, rows, stages, i)
  {
    hide Stage, KeyFields, AddKey, KeyFits;
    assert image.idem[m..m + k][i] == image.idem[m + i];
    assert KeyOk(image.idem, m + i);
    KeyStaged(image, m + i);
  }

  /** With every job and key added, building ends in the state the image describes, up to
      the order of its keys. */
  lemma FinishRoundTrip(image: Image)
    ensures Finish(Stage(image, true, |image.queues|, |image.jobs|, |image.idem|)) ==
            Some(Described(image).(idem := ByExpiry(image.idem)))
  {
    assert image.queues[..|image.queues|] == image.queues && image.jobs[..|image.jobs|] == image.jobs &&
           image.idem[..|image.idem|] == image.idem;
  }

  // --- what is captured ------------------------------------------------------------------------------

  /** A sound state whose numbers fit the widths of the fields. */
  ghost predicate Storable(d: Durable) {
    && Sound(d) && d.nextJobId < U64 && d.nextToken < U64 && |d.totals| < U64 && |d.jobs| < U64 && |d.idem| < U64
    && (forall q | q in d.totals :: q != [] && |q| < U64 && TotalsFit(d.totals[q]))
    && (forall id | id in d.jobs :: JobFits(d.jobs[id]))
    && (forall i | 0 <= i < |d.idem| :: KeyOk(d.idem, i))
  }

  lemma {:induction false} DistinctSize<T>(s: seq<T>, all: set<T>)
    requires Distinct(s) && forall x :: x in s <==> x in all
    ensures |s| == |all|
    decreases |s|
  {
    if s == [] {
      assert all == {};
    } else {
      var before, last := s[..|s| - 1], s[|s| - 1];
      forall x ensures x in before <==> x in all - {last} {
        if x in before { var i :| 0 <= i < |before| && before[i] == x; assert s[i] == x; }
        if x in all && x != last { var i :| 0 <= i < |s| && s[i] == x; assert before[i] == x; }
      }
      DistinctSize(before, all - {last});
      assert last in s;
    }
  }

  lemma CaptureIsEncodable(d: Durable, l: Listing)
    requires Storable(d) && Lists(d, l)
    ensures Encodable(Capture(d, l))
  {
    var image := Capture(d, l);
    DistinctSize(l.queues, d.totals.Keys);
    DistinctSize(l.ids, d.jobs.Keys);
    assert |d.totals.Keys| == |d.totals| && |d.jobs.Keys| == |d.jobs|;
    forall i | 0 <= i < |image.queues| ensures QueueOk(image.queues, i) { assert l.queues[i] in l.queues; }
    forall i | 0 <= i < |image.jobs| ensures ImageJobOk(image, i) { CapturedJob(d, l, i); }
  }

  lemma CapturedJob(d: Durable, l: Listing, i: nat)
    requires Storable(d) && Lists(d, l) && i < |l.ids|
    ensures ImageJobOk(Capture(d, l), i)
  {
    var id := l.ids[i];
    assert id in l.ids;
    assert JobOk(d, id);
    assert d.jobs[id].queue in l.queues;
  }

  lemma {:induction false} TotalsInValue(queues: seq<QueueImage>, i: nat)
    requires i < |queues| && forall j | i < j < |queues| :: queues[j].name != queues[i].name
    ensures queues[i].name in TotalsIn(queues) && TotalsIn(queues)[queues[i].name] == queues[i].totals
  {
    if i < |queues| - 1 { TotalsInValue(queues[..|queues| - 1], i); }
  }

  lemma {:induction false} JobsInValue(jobs: seq<JobImage>, i: nat)
    requires i < |jobs| && forall j | i < j < |jobs| :: jobs[j].id != jobs[i].id
    ensures jobs[i].id in JobsIn(jobs) && JobsIn(jobs)[jobs[i].id] == jobs[i].job
  {
    if i < |jobs| - 1 { JobsInValue(jobs[..|jobs| - 1], i); }
  }

  lemma CapturedTotals(d: Durable, l: Listing)
    requires Lists(d, l)
    ensures TotalsIn(QueueImages(d, l.queues)) == d.totals
  {
    hide TotalsIn;
    var rows := QueueImages(d, l.queues);
    forall q ensures q in TotalsIn(rows) <==> q in d.totals {
      TotalsInKeys(rows, q);
      if q in d.totals { var i :| 0 <= i < |l.queues| && l.queues[i] == q; assert rows[i].name == q; }
      if q in TotalsIn(rows) { var i :| 0 <= i < |rows| && rows[i].name == q; assert l.queues[i] in l.queues; }
    }
    forall q | q in d.totals ensures TotalsIn(rows)[q] == d.totals[q] {
      var i :| 0 <= i < |l.queues| && l.queues[i] == q;
      TotalsInValue(rows, i);
    }
  }

  lemma CapturedJobs(d: Durable, l: Listing)
    requires Lists(d, l)
    ensures JobsIn(JobImages(d, l)) == d.jobs
  {
    hide JobsIn;
    var rows := JobImages(d, l);
    forall id ensures id in JobsIn(rows) <==> id in d.jobs {
      JobsInKeys(rows, id);
      if id in d.jobs { var i :| 0 <= i < |l.ids| && l.ids[i] == id; assert rows[i].id == id; }
      if id in JobsIn(rows) { var i :| 0 <= i < |rows| && rows[i].id == id; assert l.ids[i] in l.ids; }
    }
    forall id | id in d.jobs ensures JobsIn(rows)[id] == d.jobs[id] {
      var i :| 0 <= i < |l.ids| && l.ids[i] == id;
      JobsInValue(rows, i);
    }
  }

  /** An image says everything there is to say. */
  lemma CaptureDescribes(d: Durable, l: Listing)
    requires Lists(d, l)
    ensures Described(Capture(d, l)) == d
  {
    hide JobsIn, TotalsIn;
    CapturedTotals(d, l);
    CapturedJobs(d, l);
  }

  // --- what any accepted bytes build -----------------------------------------------------------------

  /** What the builder makes sure of for a job. It does not ask for attempts to be allowed. */
  ghost predicate JobChecked(d: Durable, id: JobId) {
    id in d.jobs ==>
      var job := d.jobs[id];
      && 1 <= id < d.nextJobId && job.queue in d.totals && job.attempts <= job.maxAttempts
      && (HoldsToken(job.status) <==> job.token != 0) && job.token < d.nextToken
  }

  ghost predicate Checked(d: Durable) {
    && (forall id :: JobChecked(d, id)) && (forall q | q in d.totals :: q != [])
    && (forall i, j | 0 <= i < j < |d.idem| :: d.idem[i].key != d.idem[j].key) &&
       (forall i | 0 <= i < |d.idem| :: d.idem[i].key != [])
  }

  ghost predicate BuilderOk(b: Builder) {
    Checked(b.state) && (forall i | 0 <= i < |b.names| :: b.names[i] in b.state.totals)
  }

  lemma AddKeepsOk(e: Entry, b: Builder, f: seq<Field>)
    requires BuilderOk(b) && Shaped(e, f) && Add(e, b, f).Some?
    ensures BuilderOk(Add(e, b, f).value)
  {
    var b' := Add(e, b, f).value;
    if e.JobEntry? { assert b.names[f[1].n] in b.state.totals; }
    forall id ensures JobChecked(b'.state, id) { assert JobChecked(b.state, id); }
  }

  lemma {:induction false} AddAllKeepsOk(e: Entry, b: Builder, count: nat, data: Bytes)
    requires BuilderOk(b) && AddAll(e, b, count, data).Got?
    ensures BuilderOk(AddAll(e, b, count, data).value)
    decreases count
  {
    hide BuilderOk, Add, Shape, GetFields;
    if count > 0 {
      var f := GetFields(Shape(e), data);
      GetFieldsFits(Shape(e), data);
      AddKeepsOk(e, b, f.value);
      AddAllKeepsOk(e, Add(e, b, f.value).value, count - 1, f.rest);
    }
  }

  /** The counts kept beside the state are the sizes of what is in it. */
  ghost predicate CountsRight(b: Builder) { b.jobsAdded == |b.state.jobs| && b.keysAdded == |b.state.idem| }

  lemma {:induction false} AddAllKeepsCounts(e: Entry, b: Builder, count: nat, data: Bytes)
    requires CountsRight(b) && AddAll(e, b, count, data).Got?
    ensures CountsRight(AddAll(e, b, count, data).value)
    decreases count
  {
    hide Shape, GetFields, JobRange;
    if count > 0 {
      var f := GetFields(Shape(e), data);
      GetFieldsFits(Shape(e), data);
      AddAllKeepsCounts(e, Add(e, b, f.value).value, count - 1, f.rest);
    }
  }

  lemma AddMetaKeepsCounts(b: Builder, piece: Bytes)
    requires CountsRight(b) && AddMeta(b, piece).Some?
    ensures CountsRight(AddMeta(b, piece).value)
  {
    hide AddAll, GetFields;
    var c := GetFields(COUNTERS, piece[1..]);
    GetFieldsFits(COUNTERS, piece[1..]);
    assert KindOf(c.value[0]) == KindOf(c.value[1]) == KindOf(c.value[2]) == Unsigned;
    var start := b.(state := b.state.(nextJobId := c.value[0].n, nextToken := c.value[1].n));
    AddAllKeepsCounts(QueueEntry, start, c.value[2].n, c.rest);
  }

  lemma AddListKeepsCounts(e: Entry, b: Builder, piece: Bytes)
    requires CountsRight(b) && AddList(e, b, piece).Some?
    ensures CountsRight(AddList(e, b, piece).value)
  {
    hide AddAll, GetVarint, CountsRight;
    var count := GetVarint(piece[1..]);
    if count.Got? { AddAllKeepsCounts(e, b, count.value, count.rest); }
  }

  lemma FinishKeepsCounts(b: Builder)
    requires CountsRight(b) && Finish(b).Some?
    ensures var d := Finish(b).value; |d.jobs| == b.jobsAdded && |d.idem| == b.keysAdded
  {
    ByExpirySorts(b.state.idem, 0);
    assert |multiset(b.state.idem)| == |b.state.idem| && |multiset(ByExpiry(b.state.idem))| == |ByExpiry(b.state.idem)|;
  }

  /** A builder takes nothing that breaks what it has made sure of, whatever the bytes. */
  lemma AddMetaKeepsOk(b: Builder, piece: Bytes)
    requires b == BLANK && AddMeta(b, piece).Some?
    ensures BuilderOk(AddMeta(b, piece).value)
  {
    hide AddAll;
    var c := GetFields(COUNTERS, piece[1..]);
    GetFieldsFits(COUNTERS, piece[1..]);
    assert KindOf(c.value[0]) == KindOf(c.value[1]) == KindOf(c.value[2]) == Unsigned;
    var start := b.(state := b.state.(nextJobId := c.value[0].n, nextToken := c.value[1].n));
    assert BuilderOk(start);
    AddAllKeepsOk(QueueEntry, start, c.value[2].n, c.rest);
  }

  lemma AddListKeepsOk(e: Entry, b: Builder, piece: Bytes)
    requires BuilderOk(b) && AddList(e, b, piece).Some?
    ensures BuilderOk(AddList(e, b, piece).value)
  {
    hide BuilderOk, AddAll, GetVarint;
    var count := GetVarint(piece[1..]);
    if count.Got? { AddAllKeepsOk(e, b, count.value, count.rest); }
  }

  lemma FinishKeepsOk(b: Builder)
    requires BuilderOk(b) && Finish(b).Some?
    ensures Checked(Finish(b).value) && InOrder(Finish(b).value.idem)
  {
    var d, idem := Finish(b).value, b.state.idem;
    ByExpirySorts(idem, 0);
    forall id ensures JobChecked(d, id) { assert JobChecked(b.state, id); }
    KeysStayDistinct(idem, d.idem);
  }

  /** No two entries share a key, said without positions. */
  lemma KeysStayDistinct(a: seq<IdemEntry>, b: seq<IdemEntry>)
    requires multiset(a) == multiset(b) && (forall i, j | 0 <= i < j < |a| :: a[i].key != a[j].key) &&
             (forall i | 0 <= i < |a| :: a[i].key != [])
    ensures (forall i, j | 0 <= i < j < |b| :: b[i].key != b[j].key) && (forall i | 0 <= i < |b| :: b[i].key != [])
  {
    forall i | 0 <= i < |b| ensures b[i] in a { assert b[i] in multiset(b); }
    forall i, j | 0 <= i < j < |b| ensures b[i].key != b[j].key {
      if b[i].key == b[j].key {
        var x :| 0 <= x < |a| && a[x] == b[i];
        var y :| 0 <= y < |a| && a[y] == b[j];
        assert x == y;
        assert b == b[..i] + [b[i]] + b[i + 1..j] + [b[j]] + b[j + 1..];
        assert multiset(b)[b[i]] >= 2;
        OnlyOnce(a, x);
      }
    }
  }

  lemma OnlyOnce(a: seq<IdemEntry>, x: nat)
    requires x < |a| && forall i, j | 0 <= i < j < |a| :: a[i].key != a[j].key
    ensures multiset(a)[a[x]] == 1
  {
    var left, right := a[..x], a[x + 1..];
    assert a == left + [a[x]] + right;
    assert a[x] !in left && a[x] !in right;
  }
}
