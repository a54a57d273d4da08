/**
 The requests a RESP2 stream can hold, as a grammar that knows nothing of the parser, and the
 proof that the parser answers with a request exactly for them.
 */
module RespGrammar {
  import opened Wrappers
  import opened LogFormat
  import opened Resp

  /** A marker, a number and the end of the line. */
  function LineOf(marker: Byte, digits: Bytes): (line: Bytes)
    ensures |line| == |digits| + 3
  {
    [marker] + digits + [CR, LF]
  }

  /** A spelling of a 64-bit number, short enough for a length line. */
  predicate Spells(digits: Bytes, n: int) {
    && |digits| <= 30
    && ((AllDigits(digits) && Value(digits) == n < 0x8000_0000_0000_0000) ||
        (digits != [] && digits[0] == MINUS && AllDigits(digits[1..]) && n == -Value(digits[1..]) &&
         n >= -0x8000_0000_0000_0000))
  }

  /** Arguments on the wire: each a length line and so many bytes, with two more that end it. */
  function Frames(lens: seq<Bytes>, bodies: seq<Bytes>): Bytes
    requires |lens| == |bodies|
  {
    if lens == [] then [] else LineOf(DOLLAR, lens[0]) + bodies[0] + Frames(lens[1..], bodies[1..])
  }

  /** The length line says how long the argument is, which is within the limit. */
  predicate Framed(max: nat, digits: Bytes, body: Bytes) {
    |body| >= 2 && Spells(digits, |body| - 2) && |body| - 2 <= max
  }

  ghost predicate AllFramed(max: nat, lens: seq<Bytes>, bodies: seq<Bytes>) {
    |lens| == |bodies| && forall j | 0 <= j < |lens| :: Framed(max, lens[j], bodies[j])
  }

  predicate Terminated(body: Bytes) { |body| >= 2 && body[|body| - 2..] == [CR, LF] }

  ghost predicate AllTerminated(bodies: seq<Bytes>) { forall j | 0 <= j < |bodies| :: Terminated(bodies[j]) }

  function Content(body: Bytes): Bytes { if |body| >= 2 then body[..|body| - 2] else [] }

  function Contents(bodies: seq<Bytes>): (args: seq<Bytes>)
    ensures |args| == |bodies|
  {
    if bodies == [] then [] else [Content(bodies[0])] + Contents(bodies[1..])
  }

  /** Empty and null arrays, which mean nothing. */
  function Skipped(heads: seq<Bytes>): Bytes {
    if heads == [] then [] else LineOf(STAR, heads[0]) + Skipped(heads[1..])
  }

  ghost predicate Blank(heads: seq<Bytes>) { forall i | 0 <= i < |heads| :: SpellsNone(heads[i]) }

  ghost predicate SpellsNone(digits: Bytes) { exists n: int :: n <= 0 && Spells(digits, n) }

  // --- length lines ----------------------------------------------------------------------------------

  lemma SpellsParses(digits: Bytes, n: int)
    requires |digits| <= 30
    ensures Spells(digits, n) <==> ParseNumber(digits) == Some(n)
  {
    if AllDigits(digits) { assert IsDigit(digits[0]); }
  }

  lemma LineMeans(data: Bytes, pos: nat) returns (digits: Bytes)
    requires pos < |data| && HeaderLine(data, pos).Good?
    ensures var line := HeaderLine(data, pos);
            line.end == pos + |digits| + 3 && data[pos..line.end] == LineOf(data[pos], digits) &&
              Spells(digits, line.value)
  {
    var line := HeaderLine(data, pos);
    var cr := line.end - 2;
    digits := data[pos + 1..cr];
    assert data[pos..line.end] == [data[pos]] + digits + [data[cr], data[cr + 1]];
    SpellsParses(digits, line.value);
  }

  lemma LineIs(data: Bytes, pos: nat, digits: Bytes, n: int)
    requires pos + |digits| + 3 <= |data| && data[pos..pos + |digits| + 3] == LineOf(data[pos], digits)
    requires Spells(digits, n)
    ensures HeaderLine(data, pos) == Good(n, pos + |digits| + 3)
  {
    var line, cr := data[pos..pos + |digits| + 3], pos + 1 + |digits|;
    assert line[1..1 + |digits|] == digits;
    forall i | 0 <= i < |digits| ensures data[pos + 1 + i] == digits[i] { assert line[i + 1] == data[pos + 1 + i]; }
    assert data[pos + 1..cr] == digits;
    assert data[cr] == line[1 + |digits|] == CR && data[cr + 1] == line[2 + |digits|] == LF;
    forall i | pos + 1 <= i < cr ensures data[i] != CR { assert data[i] == digits[i - pos - 1]; }
    SpellsParses(digits, n);
  }

  /** Numbers are written in decimal, the highest digit first. */
  lemma InDecimal(n: nat, d: nat)
    requires n > 0 && d < 10
    ensures Decimal(d) == [0x30 + d] && Decimal(10 * n + d) == Decimal(n) + [0x30 + d]
    ensures Spells([0x31, 0x30, 0x32, 0x34], 1024) && Spells([0x2D, 0x31], -1)
  {
    assert (10 * n + d) / 10 == n && (10 * n + d) % 10 == d;
    assert Value([0x31]) == 1 && Value([0x31, 0x30]) == 10 && Value([0x31, 0x30, 0x32]) == 102 by {
      assert [0x31][..0] == [] && [0x31, 0x30][..1] == [0x31] && [0x31, 0x30, 0x32][..2] == [0x31, 0x30];
    }
    assert [0x31, 0x30, 0x32, 0x34][..3] == [0x31, 0x30, 0x32];
    assert [0x2D, 0x31][1..] == [0x31];
  }

  // --- skipping an oversized request -----------------------------------------------------------------

  lemma FramesCons(lens: seq<Bytes>, bodies: seq<Bytes>, digits: Bytes, body: Bytes)
    requires |lens| == |bodies|
    ensures Frames([digits] + lens, [body] + bodies) == LineOf(DOLLAR, digits) + body + Frames(lens, bodies)
  {
    assert ([digits] + lens)[1..] == lens && ([body] + bodies)[1..] == bodies;
  }

  lemma {:induction false} DiscardMeans(limits: Limits, data: Bytes, pos: nat, bytes: nat, args: nat)
    returns (lens: seq<Bytes>, bodies: seq<Bytes>)
    requires pos <= |data| && Discard(limits, data, pos, bytes, args).Request?
    ensures var end := Discard(limits, data, pos, bytes, args).consumed;
            && |lens| == args && AllFramed(limits.hardMaxBulk, lens, bodies) && pos + bytes <= end <= |data|
            && data[pos + bytes..end] == Frames(lens, bodies)
    decreases args
  {
    hide HeaderLine, Spells;
    var at, end := pos + bytes, Discard(limits, data, pos, bytes, args).consumed;
    if args == 0 {
      lens, bodies := [], [];
    } else {
      var digits := LineMeans(data, at);
      var line := HeaderLine(data, at);
      var more, rest := DiscardMeans(limits, data, line.end, line.value + 2, args - 1);
      var next := line.end + line.value + 2;
      var body := data[line.end..next];
      FramesCons(more, rest, digits, body);
      assert data[at..end] == data[at..line.end] + body + data[next..end];
      lens, bodies := [digits] + more, [body] + rest;
    }
  }

  lemma LineSplit(data: Bytes, pos: nat, marker: Byte, digits: Bytes, rest: Bytes)
    requires pos <= |data| && data[pos..] == LineOf(marker, digits) + rest
    ensures var end := pos + |digits| + 3;
            && end <= |data| && data[pos] == marker && data[pos..end] == LineOf(marker, digits) && data[end..] == rest
  {
    var tail, head := data[pos..], LineOf(marker, digits);
    assert data[pos] == tail[0];
    assert data[pos..pos + |head|] == tail[..|head|] == head;
    assert data[pos + |head|..] == tail[|head|..] == rest;
  }

  lemma FramesSplit(lens: seq<Bytes>, bodies: seq<Bytes>, data: Bytes, pos: nat)
    requires |lens| == |bodies| > 0 && pos <= |data| && data[pos..] == Frames(lens, bodies) && |bodies[0]| >= 2
    ensures var header := pos + |lens[0]| + 3;
            var next := header + |bodies[0]|;
            && next <= |data| && data[pos] == DOLLAR && data[pos..header] == LineOf(DOLLAR, lens[0])
            && data[header..next] == bodies[0] && data[next..] == Frames(lens[1..], bodies[1..])
  {
    hide LineOf;
    var body, rest := bodies[0], Frames(lens[1..], bodies[1..]);
    ConcatAssociates(LineOf(DOLLAR, lens[0]), body, rest);
    LineSplit(data, pos, DOLLAR, lens[0], body + rest);
    var header := pos + |lens[0]| + 3;
    var tail := data[header..];
    assert data[header..header + |body|] == tail[..|body|] == body;
    assert data[header + |body|..] == tail[|body|..] == rest;
  }

  lemma {:induction false} DiscardIs(limits: Limits, data: Bytes, pos: nat, bytes: nat, lens: seq<Bytes>,
                                     bodies: seq<Bytes>)
    requires AllFramed(limits.hardMaxBulk, lens, bodies) && pos + bytes <= |data|
    requires data[pos + bytes..] == Frames(lens, bodies)
    ensures Discard(limits, data, pos, bytes, |lens|) == Request(|data|, [], true)
    decreases |lens|
  {
    hide HeaderLine, Spells, Frames, LineOf;
    var at := pos + bytes;
    if lens == [] {
      NoFrames();
    } else {
      assert Framed(limits.hardMaxBulk, lens[0], bodies[0]);
      FramesSplit(lens, bodies, data, at);
      LineIs(data, at, lens[0], |bodies[0]| - 2);
      DiscardIs(limits, data, at + |lens[0]| + 3, |bodies[0]|, lens[1..], bodies[1..]);
    }
  }

  lemma NoFrames()
    ensures Frames([], []) == []
  {
  }

  // --- arguments --------------------------------------------------------------------------------------

  /** The first arguments are whole and within the limits, and so is the request up to there. */
  ghost predicate Buffered(limits: Limits, size: nat, lens: seq<Bytes>, bodies: seq<Bytes>) {
    && AllFramed(limits.maxBulk, lens, bodies) && AllFramed(limits.hardMaxBulk, lens, bodies)
    && AllTerminated(bodies) && (lens != [] ==> size + |Frames(lens, bodies)| <= limits.maxRequest)
  }

  /** What the arguments are if the parser takes them. */
  ghost predicate Taken(limits: Limits, size: nat, data: Bytes, lens: seq<Bytes>, bodies: seq<Bytes>,
                        args: seq<Bytes>) {
    |lens| == |bodies| && Buffered(limits, size, lens, bodies) && data == Frames(lens, bodies) &&
      args == Contents(bodies)
  }

  /** What they are if it skips them: the k-th is the first that is too large to buffer, and
      from there on only the lengths count. */
  ghost predicate Oversized(limits: Limits, size: nat, data: Bytes, lens: seq<Bytes>, bodies: seq<Bytes>, k: nat) {
    && k < |lens| == |bodies| && Buffered(limits, size, lens[..k], bodies[..k])
    && AllFramed(limits.hardMaxBulk, lens, bodies) && |bodies[k]| - 2 > limits.maxBulk
    && data == Frames(lens, bodies)
  }

  lemma BufferedCons(limits: Limits, size: nat, digits: Bytes, body: Bytes, lens: seq<Bytes>, bodies: seq<Bytes>)
    requires |lens| == |bodies|
    ensures Buffered(limits, size, [digits] + lens, [body] + bodies) <==>
              && Framed(limits.maxBulk, digits, body) && Framed(limits.hardMaxBulk, digits, body) && Terminated(body)
              && size + |digits| + 3 + |body| <= limits.maxRequest
              && Buffered(limits, size + |digits| + 3 + |body|, lens, bodies)
  {
    hide Spells, Terminated, Framed;
    FramesCons(lens, bodies, digits, body);
    var l, b := [digits] + lens, [body] + bodies;
    assert l[0] == digits && b[0] == body && forall j | 0 <= j < |lens| :: l[j + 1] == lens[j] && b[j + 1] == bodies[j];
    if Buffered(limits, size, l, b) {
      assert Framed(limits.maxBulk, l[0], b[0]) && Framed(limits.hardMaxBulk, l[0], b[0]) && Terminated(b[0]);
      forall j | 0 <= j < |lens|
        ensures Framed(limits.maxBulk, lens[j], bodies[j]) && Framed(limits.hardMaxBulk, lens[j], bodies[j]) &&
                Terminated(bodies[j])
      {
        assert Framed(limits.maxBulk, l[j + 1], b[j + 1]) && Framed(limits.hardMaxBulk, l[j + 1], b[j + 1]) &&
               Terminated(b[j + 1]);
      }
    }
  }

  lemma ContentsCons(bodies: seq<Bytes>, body: Bytes)
    ensures Contents([body] + bodies) == [Content(body)] + Contents(bodies)
  {
    assert ([body] + bodies)[1..] == bodies;
  }

  /** One more argument in front of those that are taken. */
  lemma TakenCons(limits: Limits, size: nat, data: Bytes, lens: seq<Bytes>, bodies: seq<Bytes>, args: seq<Bytes>,
                  digits: Bytes, body: Bytes)
    requires Taken(limits, size + |digits| + 3 + |body|, data, lens, bodies, args)
    requires Framed(limits.maxBulk, digits, body) && Framed(limits.hardMaxBulk, digits, body) && Terminated(body)
    requires size + |digits| + 3 + |body| <= limits.maxRequest
    ensures Taken(limits, size, LineOf(DOLLAR, digits) + body + data, [digits] + lens, [body] + bodies,
                  [Content(body)] + args)
  {
    hide Buffered, Frames, Contents;
    BufferedCons(limits, size, digits, body, lens, bodies);
    FramesCons(lens, bodies, digits, body);
    ContentsCons(bodies, body);
  }

  lemma OversizedCons(limits: Limits, size: nat, data: Bytes, lens: seq<Bytes>, bodies: seq<Bytes>, k: nat,
                      digits: Bytes, body: Bytes)
    requires Oversized(limits, size + |digits| + 3 + |body|, data, lens, bodies, k)
    requires Framed(limits.maxBulk, digits, body) && Framed(limits.hardMaxBulk, digits, body) && Terminated(body)
    requires size + |digits| + 3 + |body| <= limits.maxRequest
    ensures Oversized(limits, size, LineOf(DOLLAR, digits) + body + data, [digits] + lens, [body] + bodies, k + 1)
  {
    hide Buffered, Frames, Framed;
    BufferedCons(limits, size, digits, body, lens[..k], bodies[..k]);
    FramesCons(lens, bodies, digits, body);
    var l, b := [digits] + lens, [body] + bodies;
    assert l[..k + 1] == [digits] + lens[..k] && b[..k + 1] == [body] + bodies[..k];
    forall j | 0 <= j < |l| ensures Framed(limits.hardMaxBulk, l[j], b[j]) {
      if j > 0 { assert l[j] == lens[j - 1] && b[j] == bodies[j - 1]; }
    }
  }

  /** The first argument is too large to buffer. */
  lemma OversizedFirst(limits: Limits, size: nat, lens: seq<Bytes>, bodies: seq<Bytes>, digits: Bytes, body: Bytes)
    requires AllFramed(limits.hardMaxBulk, lens, bodies) && Framed(limits.hardMaxBulk, digits, body)
    requires |body| - 2 > limits.maxBulk
    ensures Oversized(limits, size, LineOf(DOLLAR, digits) + body + Frames(lens, bodies), [digits] + lens,
                      [body] + bodies, 0)
  {
    hide Frames, Framed;
    FramesCons(lens, bodies, digits, body);
    var l, b := [digits] + lens, [body] + bodies;
    forall j | 0 <= j < |l| ensures Framed(limits.hardMaxBulk, l[j], b[j]) {
      if j > 0 { assert l[j] == lens[j - 1] && b[j] == bodies[j - 1]; }
    }
  }

  lemma FrameAt(limits: Limits, data: Bytes, start: nat, pos: nat, left: nat) returns (digits: Bytes, body: Bytes)
    requires start <= pos <= |data| && left > 0 && Argument(limits, data, start, pos, left).Next?
    ensures var step := Argument(limits, data, start, pos, left);
            && step.end + 2 == pos + |digits| + 3 + |body| && data[pos..step.end + 2] == LineOf(DOLLAR, digits) + body
            && Framed(limits.maxBulk, digits, body) && Framed(limits.hardMaxBulk, digits, body) && Terminated(body)
            && Content(body) == data[step.from..step.end] && step.end + 2 - start <= limits.maxRequest
  {
    hide HeaderLine, Spells;
    var step := Argument(limits, data, start, pos, left);
    digits := LineMeans(data, pos);
    body := data[step.from..step.end + 2];
    assert data[pos..step.end + 2] == data[pos..step.from] + body;
    assert body[|body| - 2..] == [CR, LF] && body[..|body| - 2] == data[step.from..step.end];
  }

  /** What the parser takes or skips. */
  lemma {:induction false} ArgumentsMean(limits: Limits, data: Bytes, start: nat, pos: nat, left: nat, args: seq<Bytes>)
    returns (lens: seq<Bytes>, bodies: seq<Bytes>, k: nat)
    requires start <= pos <= |data| && Arguments(limits, data, start, pos, left, args).Request?
    ensures var o := Arguments(limits, data, start, pos, left, args);
            && |lens| == left
            && (if o.oversized then o.args == [] &&
                Oversized(limits, pos - start, data[pos..o.consumed], lens, bodies, k)
                else |lens| == |bodies| && o.args == args + Contents(bodies) &&
                       Taken(limits, pos - start, data[pos..o.consumed], lens, bodies, Contents(bodies)))
    decreases left
  {
    hide Argument, Taken, Oversized, Frames, Framed, Terminated;
    var o := Arguments(limits, data, start, pos, left, args);
    k := 0;
    if left == 0 {
      lens, bodies := [], [];
      NothingTaken(limits, pos - start);
      assert data[pos..pos] == [] && args + [] == args;
    } else {
      var step := Argument(limits, data, start, pos, left);
      if step.Next? {
        var digits, body := FrameAt(limits, data, start, pos, left);
        var next := step.end + 2;
        var more, rest;
        more, rest, k := ArgumentsMean(limits, data, start, next, left - 1, args + [data[step.from..step.end]]);
        lens, bodies := [digits] + more, [body] + rest;
        assert data[pos..o.consumed] == data[pos..next] + data[next..o.consumed];
        if o.oversized {
          OversizedCons(limits, pos - start, data[next..o.consumed], more, rest, k, digits, body);
          k := k + 1;
        } else {
          TakenCons(limits, pos - start, data[next..o.consumed], more, rest, Contents(rest), digits, body);
          ContentsCons(rest, body);
          assert args + [Content(body)] + Contents(rest) == args + ([Content(body)] + Contents(rest));
        }
      } else {
        lens, bodies := SkipAt(limits, data, start, pos, left);
      }
    }
  }

  lemma NothingTaken(limits: Limits, size: nat)
    ensures Contents([]) == [] && Taken(limits, size, [], [], [], [])
  {
  }

  /** An argument too large to buffer, and what comes after it. */
  lemma SkipAt(limits: Limits, data: Bytes, start: nat, pos: nat, left: nat)
    returns (lens: seq<Bytes>, bodies: seq<Bytes>)
    requires start <= pos <= |data| && left > 0
    requires var step := Argument(limits, data, start, pos, left); step.Stop? && step.o.Request?
    ensures var o := Argument(limits, data, start, pos, left).o;
            && |lens| == left && o.oversized && o.args == []
            && Oversized(limits, pos - start, data[pos..o.consumed], lens, bodies, 0)
  {
    hide HeaderLine, Spells, Discard, Oversized, Frames;
    var o := Argument(limits, data, start, pos, left).o;
    var digits := LineMeans(data, pos);
    var line := HeaderLine(data, pos);
    var next := line.end + line.value + 2;
    var more, rest := DiscardMeans(limits, data, line.end, line.value + 2, left - 1);
    var body := data[line.end..next];
    OversizedFirst(limits, pos - start, more, rest, digits, body);
    assert data[pos..o.consumed] == data[pos..line.end] + body + data[next..o.consumed];
    lens, bodies := [digits] + more, [body] + rest;
  }

  // --- the other way round -----------------------------------------------------------------------------

  lemma FrameIs(limits: Limits, data: Bytes, start: nat, pos: nat, left: nat, digits: Bytes, body: Bytes)
    requires start <= pos && pos + |digits| + 3 + |body| <= |data| && left > 0 && data[pos] == DOLLAR
    requires Framed(limits.maxBulk, digits, body) && Framed(limits.hardMaxBulk, digits, body) && Terminated(body)
    requires data[pos..pos + |digits| + 3] == LineOf(DOLLAR, digits)
    requires data[pos + |digits| + 3..pos + |digits| + 3 + |body|] == body
    requires pos + |digits| + 3 + |body| - start <= limits.maxRequest
    ensures var header, next := pos + |digits| + 3, pos + |digits| + 3 + |body|;
            Argument(limits, data, start, pos, left) == Next(header, next - 2) &&
              data[header..next - 2] == Content(body)
  {
    hide HeaderLine, Spells;
    LineIs(data, pos, digits, |body| - 2);
    var header := pos + |digits| + 3;
    var next := header + |body|;
    assert data[next - 2..next] == data[header..next][|body| - 2..] == [CR, LF];
    assert data[next - 2] == data[next - 2..next][0] && data[next - 1] == data[next - 2..next][1];
    assert data[header..next - 2] == data[header..next][..|body| - 2] == Content(body);
  }

  lemma {:induction false} ArgumentsAre(limits: Limits, data: Bytes, start: nat, pos: nat, lens: seq<Bytes>,
                                        bodies: seq<Bytes>, args: seq<Bytes>)
    requires start <= pos <= |data| && |lens| == |bodies|
    requires Taken(limits, pos - start, data[pos..], lens, bodies, Contents(bodies))
    ensures Arguments(limits, data, start, pos, |lens|, args) == Request(|data|, args + Contents(bodies), false)
    decreases |lens|
  {
    hide Argument, Buffered, Frames, Terminated, Spells;
    if lens == [] {
      assert args + [] == args;
      NothingTaken(limits, 0);
    } else {
      var digits, body := lens[0], bodies[0];
      assert lens == [digits] + lens[1..] && bodies == [body] + bodies[1..];
      BufferedCons(limits, pos - start, digits, body, lens[1..], bodies[1..]);
      FramesSplit(lens, bodies, data, pos);
      FrameIs(limits, data, start, pos, |lens|, digits, body);
      ArgumentsAre(limits, data, start, pos + |digits| + 3 + |body|, lens[1..], bodies[1..], args + [Content(body)]);
      ContentsCons(bodies[1..], body);
      assert args + [Content(body)] + Contents(bodies[1..]) == args + Contents(bodies);
    }
  }

  /** Behind an argument that is buffered. */
  lemma OversizedTail(limits: Limits, size: nat, data: Bytes, lens: seq<Bytes>, bodies: seq<Bytes>, k: nat)
    requires Oversized(limits, size, data, lens, bodies, k) && k > 0
    ensures Framed(limits.maxBulk, lens[0], bodies[0]) && Framed(limits.hardMaxBulk, lens[0], bodies[0])
    ensures Terminated(bodies[0]) && size + |lens[0]| + 3 + |bodies[0]| <= limits.maxRequest
    ensures Oversized(limits, size + |lens[0]| + 3 + |bodies[0]|, Frames(lens[1..], bodies[1..]), lens[1..],
                      bodies[1..], k - 1)
  {
    hide Spells, Frames, Buffered, Framed, Terminated;
    assert lens[..k] == [lens[0]] + lens[1..][..k - 1] && bodies[..k] == [bodies[0]] + bodies[1..][..k - 1];
    BufferedCons(limits, size, lens[0], bodies[0], lens[1..][..k - 1], bodies[1..][..k - 1]);
  }

  lemma OversizedHead(limits: Limits, size: nat, data: Bytes, lens: seq<Bytes>, bodies: seq<Bytes>)
    requires Oversized(limits, size, data, lens, bodies, 0)
    ensures Framed(limits.hardMaxBulk, lens[0], bodies[0]) && |bodies[0]| - 2 > limits.maxBulk
    ensures AllFramed(limits.hardMaxBulk, lens[1..], bodies[1..])
  {
    hide Spells, Frames, Buffered, Framed;
  }

  lemma OversizedIsFrames(limits: Limits, size: nat, data: Bytes, lens: seq<Bytes>, bodies: seq<Bytes>, k: nat)
    requires Oversized(limits, size, data, lens, bodies, k)
    ensures |lens| == |bodies| > 0 && data == Frames(lens, bodies) && |bodies[0]| >= 2
  {
    hide Spells, Frames, Buffered;
    assert Framed(limits.hardMaxBulk, lens[0], bodies[0]);
  }

  lemma SkipIs(limits: Limits, data: Bytes, start: nat, pos: nat, lens: seq<Bytes>, bodies: seq<Bytes>)
    requires start <= pos <= |data| && Oversized(limits, pos - start, data[pos..], lens, bodies, 0)
    ensures Argument(limits, data, start, pos, |lens|) == Stop(Request(|data|, [], true))
  {
    hide HeaderLine, Spells, Discard, Oversized, Frames, AllFramed, LineOf;
    OversizedIsFrames(limits, pos - start, data[pos..], lens, bodies, 0);
    OversizedHead(limits, pos - start, data[pos..], lens, bodies);
    FramesSplit(lens, bodies, data, pos);
    LineIs(data, pos, lens[0], |bodies[0]| - 2);
    DiscardIs(limits, data, pos + |lens[0]| + 3, |bodies[0]|, lens[1..], bodies[1..]);
  }

  lemma {:induction false} ArgumentsSkipped(limits: Limits, data: Bytes, start: nat, pos: nat, lens: seq<Bytes>,
                                            bodies: seq<Bytes>, k: nat, args: seq<Bytes>)
    requires start <= pos <= |data| && |lens| > 0 && Oversized(limits, pos - start, data[pos..], lens, bodies, k)
    ensures Arguments(limits, data, start, pos, |lens|, args) == Request(|data|, [], true)
    decreases k
  {
    hide Argument, Oversized, Frames, Framed, Terminated, LineOf;
    if k == 0 {
      SkipIs(limits, data, start, pos, lens, bodies);
    } else {
      OversizedIsFrames(limits, pos - start, data[pos..], lens, bodies, k);
      OversizedTail(limits, pos - start, data[pos..], lens, bodies, k);
      FramesSplit(lens, bodies, data, pos);
      FrameIs(limits, data, start, pos, |lens|, lens[0], bodies[0]);
      OversizedIsFrames(limits, pos - start + |lens[0]| + 3 + |bodies[0]|, Frames(lens[1..], bodies[1..]), lens[1..],
                        bodies[1..], k - 1);
      ArgumentsSkipped(limits, data, start, pos + |lens[0]| + 3 + |bodies[0]|, lens[1..], bodies[1..], k - 1,
                       args + [Content(bodies[0])]);
    }
  }

  // --- headings ------------------------------------------------------------------------------------------

  lemma {:induction false} HeadingMeans(data: Bytes, pos: nat) returns (heads: seq<Bytes>, digits: Bytes)
    requires pos <= |data| && FindHeading(data, pos).Found?
    ensures var h := FindHeading(data, pos);
            && Blank(heads) && Spells(digits, h.count) && data[pos..h.start] == Skipped(heads)
            && data[h.start..h.pos] == LineOf(STAR, digits)
    decreases |data| - pos
  {
    hide HeaderLine, Spells;
    var h, line := FindHeading(data, pos), HeaderLine(data, pos);
    var first := LineMeans(data, pos);
    if line.value > 0 {
      heads, digits := [], first;
    } else {
      var more;
      more, digits := HeadingMeans(data, line.end);
      heads := [first] + more;
      assert heads[1..] == more && SpellsNone(first);
      assert data[pos..h.start] == data[pos..line.end] + data[line.end..h.start];
    }
  }

  lemma {:induction false} HeadingIs(data: Bytes, pos: nat, heads: seq<Bytes>, digits: Bytes, count: nat, rest: Bytes)
    requires pos <= |data| && Blank(heads) && Spells(digits, count) && count > 0
    requires data[pos..] == Skipped(heads) + LineOf(STAR, digits) + rest
    ensures var start := pos + |Skipped(heads)|;
            FindHeading(data, pos) == Found(start, start + |digits| + 3, count)
    decreases |heads|
  {
    hide HeaderLine, Spells, LineOf;
    if heads == [] {
      assert data[pos..] == LineOf(STAR, digits) + rest;
      LineSplit(data, pos, STAR, digits, rest);
      LineIs(data, pos, digits, count);
    } else {
      assert SpellsNone(heads[0]);
      var n: int :| n <= 0 && Spells(heads[0], n);
      var head, more := LineOf(STAR, heads[0]), Skipped(heads[1..]) + LineOf(STAR, digits) + rest;
      assert data[pos..] == head + more;
      LineSplit(data, pos, STAR, heads[0], more);
      LineIs(data, pos, heads[0], n);
      HeadingIs(data, pos + |head|, heads[1..], digits, count, rest);
    }
  }

  // --- what the parser answers with --------------------------------------------------------------------------

  /** A request that is taken: blank arrays, a count line, and as many whole arguments. */
  ghost predicate IsRequest(limits: Limits, data: Bytes, args: seq<Bytes>, heads: seq<Bytes>, count: Bytes,
                            lens: seq<Bytes>, bodies: seq<Bytes>) {
    && Blank(heads) && |args| == |lens| == |bodies| && 1 <= |lens| <= limits.maxArgs && Spells(count, |lens|)
    && Buffered(limits, |count| + 3, lens, bodies) && args == Contents(bodies)
    && data == Skipped(heads) + LineOf(STAR, count) + Frames(lens, bodies)
  }

  /** A request that is skipped. */
  ghost predicate IsOversized(limits: Limits, data: Bytes, heads: seq<Bytes>, count: Bytes, lens: seq<Bytes>,
                              bodies: seq<Bytes>, k: nat) {
    && Blank(heads) && 1 <= |lens| <= limits.maxArgs && Spells(count, |lens|) && |lens| == |bodies|
    && Oversized(limits, |count| + 3, Frames(lens, bodies), lens, bodies, k)
    && data == Skipped(heads) + LineOf(STAR, count) + Frames(lens, bodies)
  }

  /** The parser answers with a request exactly if the data starts with one, and with its
      arguments. */
  lemma RequestIff(limits: Limits, data: Bytes, size: nat, args: seq<Bytes>)
    ensures Parse(limits, Normal, data) == Request(size, args, false) <==>
            size <= |data| && exists heads, count, lens, bodies ::
              IsRequest(limits, data[..size], args, heads, count, lens, bodies)
  {
    hide Parse, IsRequest;
    if Parse(limits, Normal, data) == Request(size, args, false) {
      var heads, count, lens, bodies := RequestMeans(limits, data);
    }
    if size <= |data| {
      forall heads, count, lens, bodies | IsRequest(limits, data[..size], args, heads, count, lens, bodies)
        ensures Parse(limits, Normal, data) == Request(size, args, false)
      {
        RequestIs(limits, data[..size], args, heads, count, lens, bodies);
        ParseExtend(limits, Normal, data[..size], data[size..]);
        assert data[..size] + data[size..] == data;
      }
    }
  }

  lemma RequestMeans(limits: Limits, data: Bytes)
    returns (heads: seq<Bytes>, count: Bytes, lens: seq<Bytes>, bodies: seq<Bytes>)
    requires var o := Parse(limits, Normal, data); o.Request? && !o.oversized
    ensures var o := Parse(limits, Normal, data);
            IsRequest(limits, data[..o.consumed], o.args, heads, count, lens, bodies)
  {
    hide Arguments, FindHeading, Spells, Buffered, Frames, Skipped;
    var o, h := Parse(limits, Normal, data), FindHeading(data, 0);
    heads, count := HeadingMeans(data, 0);
    var k: nat;
    lens, bodies, k := ArgumentsMean(limits, data, h.start, h.pos, h.count, []);
    assert data[..o.consumed] == data[0..h.start] + data[h.start..h.pos] + data[h.pos..o.consumed];
    assert [] + Contents(bodies) == Contents(bodies);
  }

  lemma RequestIs(limits: Limits, data: Bytes, args: seq<Bytes>, heads: seq<Bytes>, count: Bytes, lens: seq<Bytes>,
                  bodies: seq<Bytes>)
    requires IsRequest(limits, data, args, heads, count, lens, bodies)
    ensures Parse(limits, Normal, data) == Request(|data|, args, false)
  {
    hide Arguments, FindHeading, Spells, Buffered, Frames, Skipped;
    assert data[0..] == data;
    HeadingIs(data, 0, heads, count, |lens|, Frames(lens, bodies));
    var start := |Skipped(heads)|;
    var pos := start + |count| + 3;
    assert data[pos..] == Frames(lens, bodies);
    ArgumentsAre(limits, data, start, pos, lens, bodies, []);
    assert [] + Contents(bodies) == Contents(bodies);
  }

  /** And it reports an oversized request exactly if the data starts with one: all of it is
      skipped, and parsing goes on right behind it. */
  lemma OversizedIff(limits: Limits, data: Bytes, size: nat, args: seq<Bytes>)
    ensures Parse(limits, Normal, data) == Request(size, args, true) <==>
            args == [] && size <= |data| && exists heads, count, lens, bodies, k ::
              IsOversized(limits, data[..size], heads, count, lens, bodies, k)
  {
    hide Parse, IsOversized;
    if Parse(limits, Normal, data) == Request(size, args, true) {
      var heads, count, lens, bodies, k := OversizedMeans(limits, data);
    }
    if size <= |data| {
      forall heads, count, lens, bodies, k | IsOversized(limits, data[..size], heads, count, lens, bodies, k)
        ensures Parse(limits, Normal, data) == Request(size, [], true)
      {
        OversizedIs(limits, data[..size], heads, count, lens, bodies, k);
        ParseExtend(limits, Normal, data[..size], data[size..]);
        assert data[..size] + data[size..] == data;
      }
    }
  }

  lemma OversizedMeans(limits: Limits, data: Bytes)
    returns (heads: seq<Bytes>, count: Bytes, lens: seq<Bytes>, bodies: seq<Bytes>, k: nat)
    requires var o := Parse(limits, Normal, data); o.Request? && o.oversized
    ensures var o := Parse(limits, Normal, data);
            o.args == [] && IsOversized(limits, data[..o.consumed], heads, count, lens, bodies, k)
  {
    hide Arguments, FindHeading, Spells, Buffered, Frames, Skipped;
    var o, h := Parse(limits, Normal, data), FindHeading(data, 0);
    heads, count := HeadingMeans(data, 0);
    lens, bodies, k := ArgumentsMean(limits, data, h.start, h.pos, h.count, []);
    assert data[..o.consumed] == data[0..h.start] + data[h.start..h.pos] + data[h.pos..o.consumed];
  }

  lemma OversizedIs(limits: Limits, data: Bytes, heads: seq<Bytes>, count: Bytes, lens: seq<Bytes>,
                    bodies: seq<Bytes>, k: nat)
    requires IsOversized(limits, data, heads, count, lens, bodies, k)
    ensures Parse(limits, Normal, data) == Request(|data|, [], true)
  {
    hide Arguments, FindHeading, Spells, Frames, Skipped, Oversized;
    assert data[0..] == data;
    HeadingIs(data, 0, heads, count, |lens|, Frames(lens, bodies));
    var start := |Skipped(heads)|;
    var pos := start + |count| + 3;
    assert data[pos..] == Frames(lens, bodies);
    ArgumentsSkipped(limits, data, start, pos, lens, bodies, k, []);
  }
}
