/**
 How large the meta chunk of a snapshot file gets.

 All queues go into one chunk. Queues are created on demand and never erased, so their
 number decides whether that chunk fits into a record. The limit is computed here, to the
 queue, and so is the number of long names from which on it can no longer fit.
 */
module MetaSizes {
  import opened LogFormat
  import opened Codec
  import opened Jobs
  import opened Images
  import opened ChunkSizes

  /** What a queue takes at most. */
  const QUEUE_ROW: nat := 180

  /** The largest number of queues with which every meta chunk fits into a record. */
  const QUEUE_LIMIT: nat := 373_190

  /** What a queue with the longest name takes at least. */
  const LONG_ROW: nat := 135

  /** So many queues with the longest names never fit. */
  const LONG_QUEUES: nat := 497_589

  // --- sizes of queues ----------------------------------------------------------------------------

  function CountersSize(t: Totals): nat {
    |PutVarint(t.enqueued)| + |PutVarint(t.succeeded)| + |PutVarint(t.failedAttempts)| + |PutVarint(t.dead)| +
    |PutVarint(t.cancelled)|
  }

  lemma QueueRowSize(q: QueueImage)
    ensures |PutFields(QueueFields(q))| == |PutVarint(|q.name|)| + |q.name| + CountersSize(q.totals)
  {
    hide PutVarint, PutFields;
    var f := QueueFields(q);
    assert f == [f[0], f[1], f[2], f[3]] + ([f[4]] + ([f[5]] + []));
    FourFields(f[0], f[1], f[2], f[3], [f[4]] + ([f[5]] + []));
    OneField(f[4], [f[5]] + []);
    OneField(f[5], []);
    NoFields();
  }

  lemma QueueRowAtMost(q: QueueImage)
    requires |q.name| <= MAX_QUEUE_NAME && TotalsFit(q.totals)
    ensures |PutFields(QueueFields(q))| <= QUEUE_ROW
  {
    hide PutVarint, PutFields, QueueFields, Scale;
    QueueRowSize(q);
    Scales();
    VarintAtMost(|q.name|, 2);
    VarintIsShort(q.totals.enqueued);
    VarintIsShort(q.totals.succeeded);
    VarintIsShort(q.totals.failedAttempts);
    VarintIsShort(q.totals.dead);
    VarintIsShort(q.totals.cancelled);
  }

  lemma LastQueue(queues: seq<QueueImage>)
    requires queues != []
    ensures |PutRows(QueueRows(queues))| == |PutRows(QueueRows(queues[..|queues| - 1]))| +
            |PutFields(QueueFields(queues[|queues| - 1]))|
  {
    hide QueueFields, PutFields;
    var before, last := queues[..|queues| - 1], queues[|queues| - 1];
    assert QueueRows(queues) == QueueRows(before) + [QueueFields(last)];
    PutRowsAppend(QueueRows(before), [QueueFields(last)]);
    assert [QueueFields(last)][1..] == [];
  }

  lemma NoQueues()
    ensures PutRows(QueueRows([])) == []
  {
  }

  lemma MetaSize(image: Image)
    ensures |MetaPiece(image)| == 1 + |PutVarint(image.nextJobId)| + |PutVarint(image.nextToken)| +
            |PutVarint(|image.queues|)| + |PutRows(QueueRows(image.queues))|
  {
    hide PutVarint, PutFields, PutRows, QueueRows;
    var a, b, c := Nat(image.nextJobId), Nat(image.nextToken), Nat(|image.queues|);
    assert [a, b, c] == [a] + ([b] + ([c] + []));
    OneField(a, [b] + ([c] + []));
    OneField(b, [c] + []);
    OneField(c, []);
    NoFields();
  }

  // --- the limit is enough -------------------------------------------------------------------------

  /** A queue the Engine may have. */
  predicate Named(q: QueueImage) { |q.name| <= MAX_QUEUE_NAME && TotalsFit(q.totals) }

  lemma {:induction false} QueuesSize(queues: seq<QueueImage>)
    requires forall i | 0 <= i < |queues| :: Named(queues[i])
    ensures |PutRows(QueueRows(queues))| <= QUEUE_ROW * |queues|
    decreases |queues|
  {
    hide PutRows, QueueRows, PutFields, QueueFields;
    if queues == [] {
      NoQueues();
    } else {
      QueuesSize(queues[..|queues| - 1]);
      QueueRowAtMost(queues[|queues| - 1]);
      LastQueue(queues);
    }
  }

  /** With queues up to the limit, the meta chunk fits into a record. */
  lemma MetaFits(image: Image)
    requires image.nextJobId < U64 && image.nextToken < U64 && |image.queues| <= QUEUE_LIMIT
    requires forall i | 0 <= i < |image.queues| :: Named(image.queues[i])
    ensures |MetaPiece(image)| <= MAX_PAYLOAD
  {
    hide PutRows, QueueRows, PutVarint, MetaPiece, Named, Scale;
    MetaSize(image);
    QueuesSize(image.queues);
    VarintIsShort(image.nextJobId);
    VarintIsShort(image.nextToken);
    Scales();
    VarintAtMost(|image.queues|, 3);
  }

  // --- and no larger one is ------------------------------------------------------------------------

  function Pow10(n: nat): nat { if n == 0 then 1 else 10 * Pow10(n - 1) }

  /** The last digits of a number, the lowest first. */
  function Numeral(i: nat, width: nat): (r: Bytes)
    ensures |r| == width && forall k | 0 <= k < width :: 0x30 <= r[k] <= 0x39
  {
    if width == 0 then [] else [0x30 + i % 10] + Numeral(i / 10, width - 1)
  }

  lemma {:induction false} NumeralsDiffer(i: nat, j: nat, width: nat)
    requires i < Pow10(width) && j < Pow10(width) && Numeral(i, width) == Numeral(j, width)
    ensures i == j
  {
    if width > 0 {
      var a, b := Numeral(i, width), Numeral(j, width);
      assert a[0] == b[0] && a[1..] == Numeral(i / 10, width - 1) && b[1..] == Numeral(j / 10, width - 1);
      NumeralsDiffer(i / 10, j / 10, width - 1);
    }
  }

  /** As many names as there are numbers of six digits, all as long as a name may be. */
  function LongName(i: nat): (r: Bytes)
    ensures |r| == MAX_QUEUE_NAME && ValidQueueName(r)
  {
    Numeral(i, 6) + Numeral(0, 122)
  }

  lemma LongNamesDiffer(i: nat, j: nat)
    requires i < 1_000_000 && j < 1_000_000 && LongName(i) == LongName(j)
    ensures i == j
  {
    hide Numeral;
    assert Numeral(i, 6) == LongName(i)[..6] && Numeral(j, 6) == LongName(j)[..6];
    assert Pow10(6) == 1_000_000 by {
      assert Pow10(2) == 100 && Pow10(4) == 10_000;
    }
    NumeralsDiffer(i, j, 6);
  }

  /** A counter that takes all the bytes it can take. */
  const HUGE: nat := 0x8000_0000_0000_0000

  function Wide(n: nat): (r: seq<QueueImage>)
    ensures |r| == n && forall i | 0 <= i < n :: r[i] == QueueImage(LongName(i), Totals(HUGE, HUGE, HUGE, HUGE, HUGE))
  {
    seq(n, i requires 0 <= i < n => QueueImage(LongName(i), Totals(HUGE, HUGE, HUGE, HUGE, HUGE)))
  }

  lemma HugeIsWide()
    ensures |PutVarint(HUGE)| == 10 && |PutVarint(MAX_QUEUE_NAME)| == 2 && |PutVarint(QUEUE_LIMIT + 1)| == 3
  {
    hide PutVarint, Scale;
    Scales();
    VarintAtMost(HUGE, 10);
    VarintAtLeast(HUGE, 9);
    VarintAtMost(MAX_QUEUE_NAME, 2);
    VarintAtLeast(MAX_QUEUE_NAME, 1);
    VarintAtMost(QUEUE_LIMIT + 1, 3);
    VarintAtLeast(QUEUE_LIMIT + 1, 2);
  }

  lemma {:induction false} WideSize(n: nat)
    ensures |PutRows(QueueRows(Wide(n)))| == QUEUE_ROW * n
  {
    hide PutRows, QueueRows, PutFields, QueueFields, PutVarint, LongName;
    if n == 0 {
      NoQueues();
    } else {
      WideSize(n - 1);
      HugeIsWide();
      assert Wide(n)[..n - 1] == Wide(n - 1);
      QueueRowSize(Wide(n)[n - 1]);
      LastQueue(Wide(n));
    }
  }

  lemma WideIsEncodable(n: nat)
    requires n <= 1_000_000
    ensures Encodable(Image(HUGE, HUGE, Wide(n), [], []))
    ensures forall i | 0 <= i < n :: ValidQueueName(Wide(n)[i].name)
  {
    hide LongName;
    var queues := Wide(n);
    forall i | 0 <= i < n ensures QueueOk(queues, i) {
      forall j | 0 <= j < i ensures queues[j].name != queues[i].name {
        if queues[j].name == queues[i].name { LongNamesDiffer(i, j); }
      }
    }
  }

  /** The meta chunk fits into a record, if there are no more queues than this and all have
      names the Engine accepts. */
  ghost predicate MetaFitsWith(image: Image, n: nat) {
    && Encodable(image) && |image.queues| <= n
    && (forall i | 0 <= i < |image.queues| :: ValidQueueName(image.queues[i].name)) ==>
      |MetaPiece(image)| <= MAX_PAYLOAD
  }

  /** The meta chunk of every image with up to n queues fits into a record if and only if n is
      at most the limit. */
  lemma QueueLimitIsExact(n: nat)
    ensures (forall image: Image :: MetaFitsWith(image, n)) <==> n <= QUEUE_LIMIT
  {
    hide MetaPiece, ValidQueueName, Wide;
    if n <= QUEUE_LIMIT {
      forall image: Image ensures MetaFitsWith(image, n) {
        if Encodable(image) && |image.queues| <= n &&
           forall i | 0 <= i < |image.queues| :: ValidQueueName(image.queues[i].name) {
          forall i | 0 <= i < |image.queues| ensures Named(image.queues[i]) {
            assert QueueOk(image.queues, i);
            ValidIsShort(image.queues[i].name);
          }
          MetaFits(image);
        }
      }
    } else {
      var image := Image(HUGE, HUGE, Wide(QUEUE_LIMIT + 1), [], []);
      WideIsEncodable(QUEUE_LIMIT + 1);
      WideSize(QUEUE_LIMIT + 1);
      HugeIsWide();
      MetaSize(image);
      assert !MetaFitsWith(image, n);
    }
  }

  lemma ValidIsShort(name: Bytes)
    requires ValidQueueName(name)
    ensures |name| <= MAX_QUEUE_NAME
  {
  }

  // --- what never fits -------------------------------------------------------------------------------

  /** The queues with the longest names. */
  ghost function Long(queues: seq<QueueImage>): set<Bytes> {
    set i | 0 <= i < |queues| && |queues[i].name| == MAX_QUEUE_NAME :: queues[i].name
  }

  lemma LongRowAtLeast(q: QueueImage)
    requires |q.name| == MAX_QUEUE_NAME
    ensures |PutFields(QueueFields(q))| >= LONG_ROW
  {
    hide PutVarint, PutFields, QueueFields;
    QueueRowSize(q);
    HugeIsWide();
  }

  lemma {:induction false} LongRowsTake(queues: seq<QueueImage>)
    ensures |PutRows(QueueRows(queues))| >= LONG_ROW * |Long(queues)|
    decreases |queues|
  {
    hide PutRows, QueueRows, PutFields, QueueFields;
    if queues == [] {
      assert Long(queues) == {};
    } else {
      var before, last := queues[..|queues| - 1], queues[|queues| - 1];
      LongRowsTake(before);
      LastQueue(queues);
      if |last.name| == MAX_QUEUE_NAME {
        LongRowAtLeast(last);
        assert Long(queues) == Long(before) + {last.name};
      } else {
        assert Long(queues) == Long(before);
      }
    }
  }

  /** So many long names, and the meta chunk does not fit, whatever the counters are and
      whichever other queues there are. */
  lemma LongNamesDoNotFit(image: Image)
    requires |Long(image.queues)| >= LONG_QUEUES
    ensures |MetaPiece(image)| > MAX_PAYLOAD
  {
    hide PutRows, QueueRows, PutVarint, MetaPiece, Long;
    MetaSize(image);
    LongRowsTake(image.queues);
  }
}
