/**
 RESP2: the incremental request parser and the writer of bulk strings and array headers.
 */
module Resp {
  import opened Wrappers
  import opened LogFormat

  const CR: Byte := 0x0D
  const LF: Byte := 0x0A
  const STAR: Byte := 0x2A
  const DOLLAR: Byte := 0x24
  const MINUS: Byte := 0x2D
  const MAX_HEADER_LINE: nat := 32

  datatype Limits = Limits(maxArgs: nat, maxBulk: nat, hardMaxBulk: nat, maxRequest: nat)

  /** Between requests, or in the middle of one that is too large to buffer: so many bytes
      of the current argument and so many further arguments are still to be skipped. */
  datatype Mode = Normal | Discarding(bytes: nat, args: nat)

  datatype Outcome =
    | NeedMore(consumed: nat, mode: Mode)
    | Request(consumed: nat, args: seq<Bytes>, oversized: bool)
    | Failed

  // --- numbers ------------------------------------------------------------------------------------

  predicate IsDigit(c: Byte) { 0x30 <= c <= 0x39 }

  predicate AllDigits(s: Bytes) { s != [] && forall i | 0 <= i < |s| :: IsDigit(s[i]) }

  function Value(s: Bytes): int {
    if s == [] then 0 else 10 * Value(s[..|s| - 1]) + s[|s| - 1] - 0x30
  }

  function ParseNumber(s: Bytes): Option<int> {
    if AllDigits(s) && Value(s) < 0x8000_0000_0000_0000 then Some(Value(s))
    else if s != [] && s[0] == MINUS && AllDigits(s[1..]) && Value(s[1..]) <= 0x8000_0000_0000_0000 then
      Some(-Value(s[1..]))
    else None
  }

  /** to_string() */
  function Decimal(n: nat): (s: Bytes)
    ensures AllDigits(s)
  {
    if n < 10 then [0x30 + n] else Decimal(n / 10) + [0x30 + n % 10]
  }

  lemma {:induction false} DecimalValue(n: nat)
    ensures Value(Decimal(n)) == n
  {
    if n < 10 {
      assert [0x30 + n][..0] == [];
    } else {
      DecimalValue(n / 10);
      var s := Decimal(n / 10) + [0x30 + n % 10];
      assert s[..|s| - 1] == Decimal(n / 10);
    }
  }

  // --- header lines ---------------------------------------------------------------------------------

  datatype Line = Good(value: int, end: nat) | More | Bad

  /** The first CR in a range, or its end. */
  function FindCr(data: Bytes, from: nat, limit: nat): (cr: nat)
    requires from <= limit <= |data|
    ensures from <= cr <= limit && (cr < limit ==> data[cr] == CR) && forall i | from <= i < cr :: data[i] != CR
    decreases limit - from
  {
    if from == limit || data[from] == CR then from else FindCr(data, from + 1, limit)
  }

  function MinOf(a: nat, b: nat): nat { if a < b then a else b }

  /** The number on the line that starts with a marker byte at `pos`. */
  function HeaderLine(data: Bytes, pos: nat): (line: Line)
    requires pos < |data|
    ensures line.Good? ==> pos + 3 < line.end <= |data| && line.end <= pos + 33
  {
    var limit := MinOf(|data|, pos + MAX_HEADER_LINE);
    var cr := FindCr(data, pos + 1, limit);
    if cr == limit then (if |data| - pos >= MAX_HEADER_LINE then Bad else More)
    else if cr + 1 >= |data| then More
    else
      var number := ParseNumber(data[pos + 1..cr]);
      if data[cr + 1] != LF || number.None? then Bad else Good(number.value, cr + 2)
  }

  /** More bytes do not change the CR that was found first. */
  lemma {:induction false} FindCrExtend(data: Bytes, x: Bytes, from: nat, limit: nat, limit': nat)
    requires from <= limit <= |data| && limit <= limit' <= |data + x|
    ensures var cr := FindCr(data, from, limit); if cr < limit then FindCr(data + x, from, limit') == cr
            else FindCr(data + x, from, limit') >= limit
    decreases limit - from
  {
    if from < limit && data[from] != CR { FindCrExtend(data, x, from + 1, limit, limit'); }
  }

  lemma HeaderLineExtend(data: Bytes, x: Bytes, pos: nat)
    requires pos < |data| && !HeaderLine(data, pos).More?
    ensures HeaderLine(data + x, pos) == HeaderLine(data, pos)
  {
    var limit := MinOf(|data|, pos + MAX_HEADER_LINE);
    var limit' := MinOf(|data + x|, pos + MAX_HEADER_LINE);
    FindCrExtend(data, x, pos + 1, limit, limit');
    var cr := FindCr(data, pos + 1, limit);
    if cr < limit { assert (data + x)[pos + 1..cr] == data[pos + 1..cr]; }
  }

  lemma {:induction false} FindCrShift(data: Bytes, k: nat, from: nat, limit: nat)
    requires k <= from <= limit <= |data|
    ensures FindCr(data[k..], from - k, limit - k) == FindCr(data, from, limit) - k
    decreases limit - from
  {
    if from < limit && data[from] != CR { FindCrShift(data, k, from + 1, limit); }
  }

  function ShiftLine(line: Line, k: nat): Line {
    if line.Good? then Good(line.value, line.end + k) else line
  }

  lemma HeaderLineShift(data: Bytes, k: nat, pos: nat)
    requires k <= pos < |data|
    ensures HeaderLine(data, pos) == ShiftLine(HeaderLine(data[k..], pos - k), k)
  {
    hide FindCr, ParseNumber;
    var limit, rest := MinOf(|data|, pos + MAX_HEADER_LINE), data[k..];
    assert MinOf(|rest|, pos - k + MAX_HEADER_LINE) == limit - k && pos - k + 1 == pos + 1 - k;
    FindCrShift(data, k, pos + 1, limit);
    var cr := FindCr(data, pos + 1, limit);
    assert rest[pos + 1 - k..cr - k] == data[pos + 1..cr];
    if cr + 1 < |data| { assert rest[cr - k + 1] == data[cr + 1]; }
  }

  // --- the parser, as a function --------------------------------------------------------------------

  datatype Heading = Found(start: nat, pos: nat, count: nat) | Waiting(start: nat) | Wrong

  /** The first loop: empty and null arrays are skipped. */
  function FindHeading(data: Bytes, pos: nat): (h: Heading)
    requires pos <= |data|
    ensures h.Found? ==> pos <= h.start < h.pos <= |data| && h.pos <= h.start + 33 && h.count > 0
    ensures h.Waiting? ==> pos <= h.start <= |data|
    decreases |data| - pos
  {
    if pos == |data| then Waiting(pos)
    else if data[pos] != STAR then Wrong
    else
      match HeaderLine(data, pos)
      case More => Waiting(pos)
      case Bad => Wrong
      case Good(value, end) => if value > 0 then Found(pos, end, value) else FindHeading(data, end)
  }

  /** parse_discarding() */
  function Discard(limits: Limits, data: Bytes, pos: nat, bytes: nat, args: nat): (o: Outcome)
    requires pos <= |data|
    ensures o.NeedMore? ==> pos <= o.consumed <= |data| && o.mode.Discarding? && (o.mode.bytes > 0 || o.mode.args > 0)
    ensures o.Request? ==> pos <= o.consumed <= |data| && o.oversized && o.args == []
    decreases args
  {
    if bytes > |data| - pos then NeedMore(|data|, Discarding(bytes - (|data| - pos), args))
    else
      var pos := pos + bytes;
      if args == 0 then Request(pos, [], true)
      else if pos == |data| then NeedMore(pos, Discarding(0, args))
      else if data[pos] != DOLLAR then Failed
      else
        match HeaderLine(data, pos)
        case More => NeedMore(pos, Discarding(0, args))
        case Bad => Failed
        case Good(value, end) =>
          if value < 0 || value > limits.hardMaxBulk then Failed
          else Discard(limits, data, end, value + 2, args - 1)
  }

  /** One argument: its bytes, or the outcome that ends the loop. */
  datatype Step = Next(from: nat, end: nat) | Stop(o: Outcome)

  function Argument(limits: Limits, data: Bytes, start: nat, pos: nat, left: nat): (step: Step)
    requires start <= pos <= |data| && left > 0
    ensures step.Next? ==>
            pos < step.from <= step.end && step.end + 2 <= |data| && step.end + 2 - start <= limits.maxRequest
    ensures step.Stop? ==> !step.o.Request? || step.o.oversized
    ensures step.Stop? && step.o.NeedMore? ==>
              && start <= step.o.consumed <= |data| && (step.o.mode.Normal? ==> step.o.consumed == start)
              && (step.o.mode.Discarding? ==> step.o.mode.bytes > 0 || step.o.mode.args > 0)
    ensures step.Stop? && step.o.Request? ==> pos <= step.o.consumed <= |data|
  {
    if pos == |data| then Stop(NeedMore(start, Normal))
    else if data[pos] != DOLLAR then Stop(Failed)
    else
      match HeaderLine(data, pos)
      case More => Stop(NeedMore(start, Normal))
      case Bad => Stop(Failed)
      case Good(value, header) =>
        if value < 0 || value > limits.hardMaxBulk then Stop(Failed)
        else if value > limits.maxBulk then Stop(Discard(limits, data, header, value + 2, left - 1))
        else
          var end := header + value;
          if end + 2 - start > limits.maxRequest then Stop(Failed)
          else if |data| < end + 2 then Stop(NeedMore(start, Normal))
          else if data[end] != CR || data[end + 1] != LF then Stop(Failed)
          else Next(header, end)
  }

  /** The second loop: `left` more arguments, of a request that starts at `start`. */
  function Arguments(limits: Limits, data: Bytes, start: nat, pos: nat, left: nat, args: seq<Bytes>): (o: Outcome)
    requires start <= pos <= |data|
    ensures o.NeedMore? ==>
            start <= o.consumed <= |data| && (o.mode.Normal? ==> o.consumed == start) &&
              (o.mode.Discarding? ==> o.mode.bytes > 0 || o.mode.args > 0)
    ensures o.Request? ==> pos <= o.consumed <= |data|
    decreases left
  {
    if left == 0 then Request(pos, args, false)
    else
      match Argument(limits, data, start, pos, left)
      case Stop(o) => o
      case Next(from, end) => Arguments(limits, data, start, end + 2, left - 1, args + [data[from..end]])
  }

  function Parse(limits: Limits, mode: Mode, data: Bytes): (o: Outcome)
    ensures o.NeedMore? ==> o.consumed <= |data| && (o.mode.Discarding? ==> o.mode.bytes > 0 || o.mode.args > 0)
    ensures o.Request? ==> o.consumed <= |data|
    ensures o.Request? && (mode.Discarding? ==> mode.bytes > 0 || mode.args > 0) ==> o.consumed > 0
  {
    if mode.Discarding? then DiscardProgress(limits, data, mode.bytes, mode.args);
      Discard(limits, data, 0, mode.bytes, mode.args)
    else
      match FindHeading(data, 0)
      case Waiting(start) => NeedMore(start, Normal)
      case Wrong => Failed
      case Found(start, pos, count) => if count > limits.maxArgs then Failed
        else Arguments(limits, data, start, pos, count, [])
  }

  lemma DiscardProgress(limits: Limits, data: Bytes, bytes: nat, args: nat)
    ensures var o := Discard(limits, data, 0, bytes, args); o.Request? && (bytes > 0 || args > 0) ==> o.consumed > 0
  {
  }

  // --- more data, and data cut off at the front ---------------------------------------------------------

  function Shift(o: Outcome, k: nat): Outcome {
    match o
    case NeedMore(consumed, mode) => NeedMore(consumed + k, mode)
    case Request(consumed, args, oversized) => Request(consumed + k, args, oversized)
    case Failed => Failed
  }

  lemma {:induction false} DiscardShift(limits: Limits, data: Bytes, k: nat, pos: nat, bytes: nat, args: nat)
    requires k <= pos <= |data|
    ensures Discard(limits, data, pos, bytes, args) == Shift(Discard(limits, data[k..], pos - k, bytes, args), k)
    decreases args
  {
    hide HeaderLine;
    var pos' := pos + bytes;
    if pos' < |data| && args > 0 && data[pos'] == DOLLAR {
      HeaderLineShift(data, k, pos');
      var line := HeaderLine(data, pos');
      if line.Good? && 0 <= line.value <= limits.hardMaxBulk {
        DiscardShift(limits, data, k, line.end, line.value + 2, args - 1);
      }
    }
  }

  /** A finished skip stays finished; an unfinished one is taken up where it stopped. */
  lemma {:induction false} DiscardExtend(limits: Limits, data: Bytes, x: Bytes, pos: nat, bytes: nat, args: nat)
    requires pos <= |data|
    ensures var o := Discard(limits, data, pos, bytes, args);
            Discard(limits, data + x, pos, bytes, args) ==
              if o.NeedMore? then Discard(limits, data + x, o.consumed, o.mode.bytes, o.mode.args) else o
    decreases args
  {
    hide HeaderLine;
    var pos' := pos + bytes;
    if pos' < |data| && args > 0 && data[pos'] == DOLLAR {
      var line := HeaderLine(data, pos');
      if !line.More? { HeaderLineExtend(data, x, pos'); }
      if line.Good? && 0 <= line.value <= limits.hardMaxBulk {
        DiscardExtend(limits, data, x, line.end, line.value + 2, args - 1);
      }
    }
  }

  function ShiftStep(step: Step, k: nat): Step {
    match step
    case Next(from, end) => Next(from + k, end + k)
    case Stop(o) => Stop(Shift(o, k))
  }

  lemma ArgumentShift(limits: Limits, data: Bytes, k: nat, start: nat, pos: nat, left: nat)
    requires k <= start <= pos <= |data| && left > 0
    ensures Argument(limits, data, start, pos, left) ==
            ShiftStep(Argument(limits, data[k..], start - k, pos - k, left), k)
  {
    hide HeaderLine, Discard;
    if pos < |data| && data[pos] == DOLLAR {
      HeaderLineShift(data, k, pos);
      var line := HeaderLine(data, pos);
      if line.Good? && limits.maxBulk < line.value <= limits.hardMaxBulk {
        DiscardShift(limits, data, k, line.end, line.value + 2, left - 1);
      }
    }
  }

  lemma {:induction false} ArgumentsShift(limits: Limits, data: Bytes, k: nat, start: nat, pos: nat, left: nat,
                                          args: seq<Bytes>)
    requires k <= start <= pos <= |data|
    ensures Arguments(limits, data, start, pos, left, args) ==
            Shift(Arguments(limits, data[k..], start - k, pos - k, left, args), k)
    decreases left
  {
    hide Argument;
    if left > 0 {
      ArgumentShift(limits, data, k, start, pos, left);
      var step := Argument(limits, data, start, pos, left);
      if step.Next? {
        assert data[k..][step.from - k..step.end - k] == data[step.from..step.end];
        ArgumentsShift(limits, data, k, start, step.end + 2, left - 1, args + [data[step.from..step.end]]);
      }
    }
  }

  /** What has been decided stays decided when more arrives. */
  ghost predicate Decided(limits: Limits, o: Outcome, data: Bytes, o': Outcome) {
    match o
    case NeedMore(consumed, mode) => mode.Discarding? ==>
      consumed <= |data| && o' == Discard(limits, data, consumed, mode.bytes, mode.args)
    case Request(_, _, _) => o' == o
    case Failed => o' == o
  }

  lemma ArgumentExtend(limits: Limits, data: Bytes, x: Bytes, start: nat, pos: nat, left: nat)
    requires start <= pos <= |data| && left > 0
    ensures var step, step' := Argument(limits, data, start, pos, left), Argument(limits, data + x, start, pos, left);
            match step
            case Next(_, _) => step' == step
            case Stop(o) => !o.NeedMore? || o.mode.Discarding? ==> step'.Stop? && Decided(limits, o, data + x, step'.o)
  {
    hide HeaderLine, Discard;
    if pos < |data| && data[pos] == DOLLAR {
      var line := HeaderLine(data, pos);
      if !line.More? { HeaderLineExtend(data, x, pos); }
      if line.Good? && limits.maxBulk < line.value <= limits.hardMaxBulk {
        DiscardExtend(limits, data, x, line.end, line.value + 2, left - 1);
      }
    }
  }

  lemma {:induction false} ArgumentsExtend(limits: Limits, data: Bytes, x: Bytes, start: nat, pos: nat, left: nat,
                                           args: seq<Bytes>)
    requires start <= pos <= |data|
    ensures Decided(limits, Arguments(limits, data, start, pos, left, args), data + x,
                    Arguments(limits, data + x, start, pos, left, args))
    decreases left
  {
    hide Argument, Discard;
    if left > 0 {
      ArgumentExtend(limits, data, x, start, pos, left);
      var step := Argument(limits, data, start, pos, left);
      if step.Next? {
        assert (data + x)[step.from..step.end] == data[step.from..step.end];
        ArgumentsExtend(limits, data, x, start, step.end + 2, left - 1, args + [data[step.from..step.end]]);
      }
    }
  }

  function ShiftHeading(h: Heading, k: nat): Heading {
    match h
    case Found(start, pos, count) => Found(start + k, pos + k, count)
    case Waiting(start) => Waiting(start + k)
    case Wrong => Wrong
  }

  lemma {:induction false} HeadingShift(data: Bytes, k: nat, pos: nat)
    requires k <= pos <= |data|
    ensures FindHeading(data, pos) == ShiftHeading(FindHeading(data[k..], pos - k), k)
    decreases |data| - pos
  {
    hide HeaderLine;
    if pos < |data| && data[pos] == STAR {
      HeaderLineShift(data, k, pos);
      var line := HeaderLine(data, pos);
      if line.Good? && line.value <= 0 { HeadingShift(data, k, line.end); }
    }
  }

  /** Skipped arrays stay skipped. */
  lemma {:induction false} HeadingExtend(data: Bytes, x: Bytes, pos: nat)
    requires pos <= |data|
    ensures var h := FindHeading(data, pos);
            match h
            case Found(_, _, _) => FindHeading(data + x, pos) == h
            case Wrong => FindHeading(data + x, pos) == h
            case Waiting(start) => FindHeading(data + x, pos) == FindHeading(data + x, start)
    decreases |data| - pos
  {
    hide HeaderLine;
    if pos < |data| && data[pos] == STAR {
      var line := HeaderLine(data, pos);
      if !line.More? { HeaderLineExtend(data, x, pos); }
      if line.Good? && line.value <= 0 { HeadingExtend(data, x, line.end); }
    }
  }

  /** Where a heading was found, looking from there finds it again. */
  lemma {:induction false} HeadingAgain(data: Bytes, pos: nat)
    requires pos <= |data| && FindHeading(data, pos).Found?
    ensures FindHeading(data, FindHeading(data, pos).start) == FindHeading(data, pos)
    decreases |data| - pos
  {
    hide HeaderLine;
    var line := HeaderLine(data, pos);
    if line.Good? && line.value <= 0 { HeadingAgain(data, line.end); }
  }

  /** Parsing from a later heading on, in the whole data or in what is left of it. */
  function ParseFrom(limits: Limits, data: Bytes, pos: nat): Outcome
    requires pos <= |data|
  {
    match FindHeading(data, pos)
    case Waiting(start) => NeedMore(start, Normal)
    case Wrong => Failed
    case Found(start, pos, count) => if count > limits.maxArgs then Failed
      else Arguments(limits, data, start, pos, count, [])
  }

  lemma ParseFromShift(limits: Limits, data: Bytes, k: nat)
    requires k <= |data|
    ensures ParseFrom(limits, data, k) == Shift(Parse(limits, Normal, data[k..]), k)
  {
    hide Arguments, FindHeading;
    HeadingShift(data, k, k);
    match FindHeading(data, k)
    case Found(start, pos, count) => ArgumentsShift(limits, data, k, start, pos, count, []);
    case Waiting(_) =>
    case Wrong =>
  }

  /** The heart of it: what is decided stays decided, and after NeedMore the parser goes on,
      with what is left and whatever comes, as if it had seen everything at once. */
  lemma ParseExtend(limits: Limits, mode: Mode, data: Bytes, x: Bytes)
    ensures var o := Parse(limits, mode, data);
            Parse(limits, mode, data + x) ==
              if o.NeedMore? then Shift(Parse(limits, o.mode, data[o.consumed..] + x), o.consumed) else o
  {
    hide Arguments, FindHeading, Discard;
    var o := Parse(limits, mode, data);
    var all := data + x;
    if o.NeedMore? { assert data[o.consumed..] + x == all[o.consumed..]; }
    if mode.Discarding? {
      DiscardExtend(limits, data, x, 0, mode.bytes, mode.args);
      if o.NeedMore? { DiscardShift(limits, all, o.consumed, o.consumed, o.mode.bytes, o.mode.args); }
    } else {
      HeadingExtend(data, x, 0);
      match FindHeading(data, 0)
      case Waiting(start) => ParseFromShift(limits, all, start);
      case Wrong =>
      case Found(start, pos, count) =>
        ArgumentsExtend(limits, data, x, start, pos, count, []);
        if o.NeedMore? {
          if o.mode.Normal? {
            HeadingAgain(all, 0);
            ParseFromShift(limits, all, start);
          } else {
            DiscardShift(limits, all, o.consumed, o.consumed, o.mode.bytes, o.mode.args);
          }
        }
    }
  }

  // --- chunking ---------------------------------------------------------------------------------------------

  predicate ModeOk(mode: Mode) { mode.Discarding? ==> mode.bytes > 0 || mode.args > 0 }

  datatype Event = Command(args: seq<Bytes>, oversized: bool) | ProtocolError

  /** What a connection has got out of its input so far, and what it keeps. */
  datatype Feed = Feed(events: seq<Event>, mode: Mode, left: Bytes, failed: bool)

  /** The read loop: requests are taken until there is none or the stream is unusable. */
  function Drain(limits: Limits, mode: Mode, data: Bytes): (f: Feed)
    requires ModeOk(mode)
    ensures ModeOk(f.mode)
    decreases |data|
  {
    match Parse(limits, mode, data)
    case NeedMore(consumed, next) => Feed([], next, data[consumed..], false)
    case Failed => Feed([ProtocolError], Normal, [], true)
    case Request(consumed, args, oversized) =>
      var rest := Drain(limits, Normal, data[consumed..]);
      rest.(events := [Command(args, oversized)] + rest.events)
  }

  /** One more chunk. After a failure nothing is read any more. */
  function Take(limits: Limits, f: Feed, chunk: Bytes): (r: Feed)
    requires ModeOk(f.mode)
    ensures ModeOk(r.mode)
  {
    if f.failed then f
    else
      var more := Drain(limits, f.mode, f.left + chunk);
      more.(events := f.events + more.events)
  }

  /** Input in two parts gives what it gives in one. */
  lemma {:induction false} DrainExtend(limits: Limits, mode: Mode, data: Bytes, x: Bytes)
    requires ModeOk(mode)
    ensures Drain(limits, mode, data + x) == Take(limits, Drain(limits, mode, data), x)
    decreases |data|
  {
    hide Parse;
    ParseExtend(limits, mode, data, x);
    var o := Parse(limits, mode, data);
    match o
    case Failed =>
    case Request(consumed, args, oversized) =>
      DrainExtend(limits, Normal, data[consumed..], x);
      assert (data + x)[consumed..] == data[consumed..] + x;
      Prepended(limits, Drain(limits, Normal, data[consumed..]), x, [Command(args, oversized)]);
    case NeedMore(consumed, next) =>
      assert (data + x)[consumed..] == data[consumed..] + x;
      DrainShift(limits, mode, data + x, consumed, next);
  }

  lemma Prepended(limits: Limits, f: Feed, x: Bytes, events: seq<Event>)
    requires ModeOk(f.mode)
    ensures Take(limits, f.(events := events + f.events), x) ==
            (var r := Take(limits, f, x); r.(events := events + r.events))
  {
  }

  lemma DrainShift(limits: Limits, mode: Mode, all: Bytes, k: nat, next: Mode)
    requires ModeOk(mode) && ModeOk(next) && k <= |all| && Parse(limits, mode, all) ==
             Shift(Parse(limits, next, all[k..]), k)
    ensures Drain(limits, mode, all) == Drain(limits, next, all[k..])
  {
    hide Parse;
    match Parse(limits, next, all[k..])
    case Request(consumed, _, _) => assert all[k..][consumed..] == all[k + consumed..];
    case NeedMore(consumed, _) => assert all[k..][consumed..] == all[k + consumed..];
    case Failed =>
  }

  function TakeAll(limits: Limits, f: Feed, chunks: seq<Bytes>): (r: Feed)
    requires ModeOk(f.mode)
    ensures ModeOk(r.mode)
  {
    if chunks == [] then f else Take(limits, TakeAll(limits, f, chunks[..|chunks| - 1]), chunks[|chunks| - 1])
  }

  function Joined(chunks: seq<Bytes>): Bytes {
    if chunks == [] then [] else Joined(chunks[..|chunks| - 1]) + chunks[|chunks| - 1]
  }

  const START := Feed([], Normal, [], false)

  /** Any split of a byte stream gives the same requests, the same oversized flags and the
      same failure as the stream fed whole. */
  lemma {:induction false} AnyChunking(limits: Limits, chunks: seq<Bytes>)
    ensures TakeAll(limits, START, chunks) == Drain(limits, Normal, Joined(chunks))
  {
    if chunks == [] {
    } else {
      AnyChunking(limits, chunks[..|chunks| - 1]);
      DrainExtend(limits, Normal, Joined(chunks[..|chunks| - 1]), chunks[|chunks| - 1]);
    }
  }

  // --- what has to be buffered ---------------------------------------------------------------------------------

  function Bound(limits: Limits): nat { (if limits.maxRequest < 33 then 33 else limits.maxRequest) + 32 }

  lemma ArgumentBound(limits: Limits, data: Bytes, start: nat, pos: nat, left: nat)
    requires start <= pos <= |data| && left > 0 && (pos - start <= 33 || pos - start <= limits.maxRequest)
    ensures var step := Argument(limits, data, start, pos, left);
            step.Stop? && step.o.NeedMore? ==> |data| - step.o.consumed <= Bound(limits)
  {
    hide Discard, HeaderLine;
    if pos < |data| && data[pos] == DOLLAR {
      var line := HeaderLine(data, pos);
      if line.More? { LineBound(data, pos); }
      if line.Good? && limits.maxBulk < line.value <= limits.hardMaxBulk {
        DiscardBound(limits, data, line.end, line.value + 2, left - 1);
      }
    }
  }

  lemma {:induction false} ArgumentsBound(limits: Limits, data: Bytes, start: nat, pos: nat, left: nat,
                                          args: seq<Bytes>)
    requires start <= pos <= |data| && (pos - start <= 33 || pos - start <= limits.maxRequest)
    ensures var o := Arguments(limits, data, start, pos, left, args);
            o.NeedMore? ==> |data| - o.consumed <= Bound(limits)
    decreases left
  {
    hide Argument;
    if left > 0 {
      ArgumentBound(limits, data, start, pos, left);
      var step := Argument(limits, data, start, pos, left);
      if step.Next? { ArgumentsBound(limits, data, start, step.end + 2, left - 1, args + [data[step.from..step.end]]); }
    }
  }

  lemma LineBound(data: Bytes, pos: nat)
    requires pos < |data| && HeaderLine(data, pos).More?
    ensures |data| - pos <= 32
  {
  }

  lemma {:induction false} DiscardBound(limits: Limits, data: Bytes, pos: nat, bytes: nat, args: nat)
    requires pos <= |data|
    ensures var o := Discard(limits, data, pos, bytes, args); o.NeedMore? ==> |data| - o.consumed <= 32
    decreases args
  {
    hide HeaderLine;
    var pos' := pos + bytes;
    if pos' < |data| && args > 0 && data[pos'] == DOLLAR {
      var line := HeaderLine(data, pos');
      if line.More? { LineBound(data, pos'); }
      if line.Good? && 0 <= line.value <= limits.hardMaxBulk {
        DiscardBound(limits, data, line.end, line.value + 2, args - 1);
      }
    }
  }

  lemma {:induction false} HeadingBound(data: Bytes, pos: nat)
    requires pos <= |data| && FindHeading(data, pos).Waiting?
    ensures |data| - FindHeading(data, pos).start <= 32
    decreases |data| - pos
  {
    hide HeaderLine;
    if pos < |data| {
      var line := HeaderLine(data, pos);
      if line.More? { LineBound(data, pos); }
      if line.Good? && line.value <= 0 { HeadingBound(data, line.end); }
    }
  }

  /** However much arrives, what is left to buffer is bounded by the limits. */
  lemma BufferBound(limits: Limits, mode: Mode, data: Bytes)
    ensures var o := Parse(limits, mode, data);
            o.NeedMore? ==> |data| - o.consumed <= Bound(limits)
  {
    hide Arguments, FindHeading, Discard;
    if mode.Discarding? {
      DiscardBound(limits, data, 0, mode.bytes, mode.args);
    } else {
      match FindHeading(data, 0)
      case Waiting(_) => HeadingBound(data, 0);
      case Wrong =>
      case Found(start, pos, count) => ArgumentsBound(limits, data, start, pos, count, []);
    }
  }

  // --- the writer and the round trip ------------------------------------------------------------------------------

  /** resp_array_header() */
  function ArrayHeader(count: nat): Bytes { [STAR] + Decimal(count) + [CR, LF] }

  /** resp_bulk() */
  function Bulk(data: Bytes): Bytes { [DOLLAR] + Decimal(|data|) + [CR, LF] + data + [CR, LF] }

  function Bulks(args: seq<Bytes>): Bytes {
    if args == [] then [] else Bulk(args[0]) + Bulks(args[1..])
  }

  function Encode(args: seq<Bytes>): Bytes { ArrayHeader(|args|) + Bulks(args) }

  function Pow10(n: nat): nat { if n == 0 then 1 else 10 * Pow10(n - 1) }

  lemma {:induction false} DecimalLength(n: nat, k: nat)
    requires n < Pow10(k) && k > 0
    ensures |Decimal(n)| <= k
  {
    if n >= 10 { DecimalLength(n / 10, k - 1); }
  }

  const LARGE: nat := 0x8000_0000_0000_0000

  lemma ShortNumber(n: nat)
    requires n < LARGE
    ensures |Decimal(n)| <= 19 && ParseNumber(Decimal(n)) == Some(n)
  {
    assert Pow10(4) == 10000;
    assert Pow10(8) == 10000 * Pow10(4);
    assert Pow10(12) == 10000 * Pow10(8);
    assert Pow10(16) == 10000 * Pow10(12);
    assert Pow10(19) == 1000 * Pow10(16);
    DecimalLength(n, 19);
    DecimalValue(n);
  }

  /** A header line is read back, whatever follows it. */
  lemma HeaderRoundTrip(marker: Byte, n: nat, rest: Bytes)
    requires n < LARGE
    ensures HeaderLine([marker] + Decimal(n) + [CR, LF] + rest, 0) == Good(n, |Decimal(n)| + 3)
  {
    ShortNumber(n);
    var digits := Decimal(n);
    var data := [marker] + digits + [CR, LF] + rest;
    var limit := MinOf(|data|, MAX_HEADER_LINE);
    var cr := FindCr(data, 1, limit);
    assert data[1..1 + |digits|] == digits;
    forall i | 1 <= i < 1 + |digits| ensures data[i] != CR { assert data[i] == digits[i - 1]; }
    assert data[1 + |digits|] == CR && data[2 + |digits|] == LF;
    assert cr == 1 + |digits|;
  }

  /** What fits the limits of the parser. */
  predicate Fits(limits: Limits, args: seq<Bytes>) {
    && 1 <= |args| <= limits.maxArgs && |Encode(args)| <= limits.maxRequest && limits.maxArgs < LARGE
    && forall i | 0 <= i < |args| :: |args[i]| <= limits.maxBulk && |args[i]| <= limits.hardMaxBulk && |args[i]| < LARGE
  }

  /** One bulk string after a prefix that has been dealt with. */
  lemma BulkRoundTrip(limits: Limits, before: Bytes, arg: Bytes, rest: Bytes, left: nat)
    requires |arg| <= limits.maxBulk && |arg| <= limits.hardMaxBulk && |arg| < LARGE && left > 0
    requires |before + Bulk(arg)| <= limits.maxRequest
    ensures var data := before + Bulk(arg) + rest;
            var end := |before + Bulk(arg)| - 2;
            && Argument(limits, data, 0, |before|, left) == Next(end - |arg|, end) && data[end - |arg|..end] == arg
  {
    hide HeaderLine, Bulk, Decimal, Argument;
    BulkBytes(before, arg, rest);
    HeaderRoundTrip(DOLLAR, |arg|, arg + [CR, LF] + rest);
    var data := before + Bulk(arg) + rest;
    HeaderLineShift(data, |before|, |before|);
    ArgumentIs(limits, data, |before|, left, |arg|, |before| + |Decimal(|arg|)| + 3);
  }

  lemma ArgumentIs(limits: Limits, data: Bytes, pos: nat, left: nat, n: nat, header: nat)
    requires pos < |data| && left > 0 && data[pos] == DOLLAR && HeaderLine(data, pos) == Good(n, header)
    requires n <= limits.maxBulk && n <= limits.hardMaxBulk && header + n + 2 <= limits.maxRequest &&
             header + n + 2 <= |data|
    requires data[header + n] == CR && data[header + n + 1] == LF
    ensures Argument(limits, data, 0, pos, left) == Next(header, header + n)
  {
    hide HeaderLine;
  }

  lemma BulkBytes(before: Bytes, arg: Bytes, rest: Bytes)
    ensures var data, header := before + Bulk(arg) + rest, |before| + |Decimal(|arg|)| + 3;
            && |before + Bulk(arg)| == header + |arg| + 2 && |data| >= header + |arg| + 2
            && data[|before|..] == [DOLLAR] + Decimal(|arg|) + [CR, LF] + (arg + [CR, LF] + rest) &&
               data[|before|] == DOLLAR
            && data[header..header + |arg|] == arg && data[header + |arg|] == CR && data[header + |arg| + 1] == LF
  {
    var digits := Decimal(|arg|);
    hide Decimal;
    var data, header := before + Bulk(arg) + rest, |before| + |digits| + 3;
    var head := before + [DOLLAR] + digits + [CR, LF];
    assert |head| == header;
    assert data == head + arg + ([CR, LF] + rest);
    assert data[header..header + |arg|] == arg;
    assert data[header + |arg|..] == [CR, LF] + rest;
    assert data[|before|..] == [DOLLAR] + digits + [CR, LF] + (arg + [CR, LF] + rest);
  }

  lemma {:induction false} BulksRoundTrip(limits: Limits, before: Bytes, args: seq<Bytes>, done: seq<Bytes>)
    requires |before + Bulks(args)| <= limits.maxRequest
    requires forall i | 0 <= i < |args| ::
             |args[i]| <= limits.maxBulk && |args[i]| <= limits.hardMaxBulk && |args[i]| < LARGE
    ensures Arguments(limits, before + Bulks(args), 0, |before|, |args|, done) ==
            Request(|before + Bulks(args)|, done + args, false)
    decreases |args|
  {
    hide Argument, Bulk;
    if args == [] {
      assert before + Bulks(args) == before && done + args == done;
    } else {
      var head, rest := before + Bulk(args[0]), args[1..];
      var data := before + Bulks(args);
      assert data == head + Bulks(rest);
      BulkLength(args[0]);
      BulkRoundTrip(limits, before, args[0], Bulks(rest), |args|);
      BulksRoundTrip(limits, head, rest, done + [args[0]]);
      assert done + [args[0]] + rest == done + args;
    }
  }

  lemma BulkLength(arg: Bytes)
    ensures |Bulk(arg)| >= 2
  {
  }

  /** A printed request parses back to the same arguments. */
  lemma RequestRoundTrip(limits: Limits, args: seq<Bytes>)
    requires Fits(limits, args)
    ensures Parse(limits, Normal, Encode(args)) == Request(|Encode(args)|, args, false)
  {
    hide HeaderLine, Arguments, Bulk;
    var header := ArrayHeader(|args|);
    HeaderRoundTrip(STAR, |args|, Bulks(args));
    assert Encode(args) == [STAR] + Decimal(|args|) + [CR, LF] + Bulks(args);
    BulksRoundTrip(limits, header, args, []);
    assert [] + args == args;
  }

  function EncodeAll(requests: seq<seq<Bytes>>): Bytes {
    if requests == [] then [] else Encode(requests[0]) + EncodeAll(requests[1..])
  }

  function Commands(requests: seq<seq<Bytes>>): seq<Event> {
    if requests == [] then [] else [Command(requests[0], false)] + Commands(requests[1..])
  }

  lemma {:induction false} PipelineDrains(limits: Limits, requests: seq<seq<Bytes>>)
    requires forall i | 0 <= i < |requests| :: Fits(limits, requests[i])
    ensures Drain(limits, Normal, EncodeAll(requests)) == Feed(Commands(requests), Normal, [], false)
    decreases |requests|
  {
    hide Encode, Fits;
    if requests == [] {
    } else {
      var first, rest := requests[0], EncodeAll(requests[1..]);
      var data := Encode(first) + rest;
      RequestRoundTrip(limits, first);
      ParseExtend(limits, Normal, Encode(first), rest);
      hide Parse;
      assert data[|Encode(first)|..] == rest;
      PipelineDrains(limits, requests[1..]);
    }
  }

  /** Any chunking of a printed pipeline parses back to the same requests. */
  lemma PipelineRoundTrip(limits: Limits, requests: seq<seq<Bytes>>, chunks: seq<Bytes>)
    requires (forall i | 0 <= i < |requests| :: Fits(limits, requests[i])) && Joined(chunks) == EncodeAll(requests)
    ensures TakeAll(limits, START, chunks) == Feed(Commands(requests), Normal, [], false)
  {
    AnyChunking(limits, chunks);
    PipelineDrains(limits, requests);
  }

  // --- the parser as it runs -------------------------------------------------------------------------------------

  class RespParser {
    const limits: Limits
    var discarding: bool
    /** Arguments still to come after the current one, and bytes of the current one. */
    var argsLeft: nat
    var bytesLeft: nat

    ghost function State(): Mode
      reads this
    {
      if discarding then Discarding(bytesLeft, argsLeft) else Normal
    }

    constructor (limits: Limits)
      ensures State() == Normal && this.limits == limits
    {
      this.limits := limits;
      discarding, argsLeft, bytesLeft := false, 0, 0;
    }

    /** read_header_line() */
    static method ReadHeaderLine(data: Bytes, pos: nat) returns (line: Line)
      requires pos < |data|
      ensures line == HeaderLine(data, pos)
    {
      var limit := if |data| < pos + MAX_HEADER_LINE then |data| else pos + MAX_HEADER_LINE;
      var cr := pos + 1;
      while cr < limit && data[cr] != CR
        invariant pos + 1 <= cr <= limit && FindCr(data, cr, limit) == FindCr(data, pos + 1, limit)
      {
        cr := cr + 1;
      }
      if cr == limit { return if |data| - pos >= MAX_HEADER_LINE then Bad else More; }
      if cr + 1 >= |data| { return More; }
      var number := ParseNumber(data[pos + 1..cr]);
      if data[cr + 1] != LF || number.None? { return Bad; }
      return Good(number.value, cr + 2);
    }

    /** The rest of an oversized request is consumed as it arrives and never buffered. */
    method ParseDiscarding(data: Bytes, start: nat) returns (o: Outcome)
      requires start <= |data| && discarding
      modifies this
      ensures o == Discard(limits, data, start, old(bytesLeft), old(argsLeft))
      ensures o.NeedMore? ==> State() == o.mode
      ensures o.Request? ==> State() == Normal
    {
      hide HeaderLine;
      var pos: nat := start;
      while true
        invariant pos <= |data| && discarding
        invariant Discard(limits, data, pos, bytesLeft, argsLeft) ==
                  Discard(limits, data, start, old(bytesLeft), old(argsLeft))
        decreases argsLeft
      {
        if bytesLeft > 0 {
          var take := if bytesLeft < |data| - pos then bytesLeft else |data| - pos;
          if bytesLeft <= |data| - pos { DiscardSkips(limits, data, pos, bytesLeft, argsLeft); }
          pos := pos + take;
          bytesLeft := bytesLeft - take;
          if bytesLeft > 0 { return NeedMore(pos, Discarding(bytesLeft, argsLeft)); }
        }
        if argsLeft == 0 {
          discarding := false;
          return Request(pos, [], true);
        }
        if pos >= |data| { return NeedMore(pos, Discarding(0, argsLeft)); }
        if data[pos] != DOLLAR { return Failed; }
        var line := ReadHeaderLine(data, pos);
        if line.More? { return NeedMore(pos, Discarding(0, argsLeft)); }
        if line.Bad? || line.value < 0 || line.value > limits.hardMaxBulk { return Failed; }
        pos := line.end;
        bytesLeft := line.value + 2;
        argsLeft := argsLeft - 1;
      }
    }

    static lemma DiscardSkips(limits: Limits, data: Bytes, pos: nat, bytes: nat, args: nat)
      requires pos + bytes <= |data|
      ensures Discard(limits, data, pos + bytes, 0, args) == Discard(limits, data, pos, bytes, args)
    {
      hide HeaderLine;
    }

    /** The first loop of parse(). */
    method SkipEmpty(data: Bytes) returns (h: Heading)
      ensures h == FindHeading(data, 0)
    {
      hide HeaderLine;
      var pos := 0;
      while true
        invariant pos <= |data| && FindHeading(data, pos) == FindHeading(data, 0)
        decreases |data| - pos
      {
        if pos >= |data| { return Waiting(pos); }
        if data[pos] != STAR { return Wrong; }
        var line := ReadHeaderLine(data, pos);
        if line.More? { return Waiting(pos); }
        if line.Bad? { return Wrong; }
        if line.value > 0 { return Found(pos, line.end, line.value); }
        pos := line.end;
      }
    }

    /** The second loop of parse(). */
    method ReadArguments(data: Bytes, start: nat, from: nat, count: nat) returns (o: Outcome)
      requires start <= from <= |data| && !discarding
      modifies this
      ensures o == Arguments(limits, data, start, from, count, [])
      ensures o.NeedMore? ==> State() == o.mode
      ensures o.Request? ==> State() == Normal
    {
      hide HeaderLine, Discard;
      var pos, args: seq<Bytes> := from, [];
      for i := 0 to count
        invariant start <= pos <= |data| && !discarding
        invariant Arguments(limits, data, start, pos, count - i, args) ==
                  Arguments(limits, data, start, from, count, [])
      {
        if pos >= |data| { return NeedMore(start, Normal); }
        if data[pos] != DOLLAR { return Failed; }
        var line := ReadHeaderLine(data, pos);
        if line.More? { return NeedMore(start, Normal); }
        if line.Bad? || line.value < 0 || line.value > limits.hardMaxBulk { return Failed; }
        if line.value > limits.maxBulk {
          discarding, bytesLeft, argsLeft := true, line.value + 2, count - i - 1;
          o := ParseDiscarding(data, line.end);
          return;
        }
        var end: nat := line.end + line.value;
        if end + 2 - start > limits.maxRequest { return Failed; }
        if |data| < end + 2 { return NeedMore(start, Normal); }
        if data[end] != CR || data[end + 1] != LF { return Failed; }
        assert Argument(limits, data, start, pos, count - i) == Next(line.end, end);
        args := args + [data[line.end..end]];
        pos := end + 2;
      }
      return Request(pos, args, false);
    }

    /** parse() does what the function says, and leaves the parser in the mode it says. */
    method ParseMore(data: Bytes) returns (o: Outcome)
      modifies this
      ensures o == Parse(limits, old(State()), data)
      ensures o.NeedMore? ==> State() == o.mode
      ensures o.Request? ==> State() == Normal
    {
      hide FindHeading, Arguments, Discard;
      if discarding {
        o := ParseDiscarding(data, 0);
        return;
      }
      var h := SkipEmpty(data);
      match h
      case Waiting(start) => return NeedMore(start, Normal);
      case Wrong => return Failed;
      case Found(start, pos, count) =>
        if count > limits.maxArgs { return Failed; }
        o := ReadArguments(data, start, pos, count);
    }
  }
}
