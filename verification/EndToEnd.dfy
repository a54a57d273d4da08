/**
 The promises of the parts put together: what a client has been told survives.
 */
module EndToEnd {
  import opened Wrappers
  import opened LogFormat
  import opened LogRecovery
  import opened LogDisk
  import opened LogWriter
  import opened Jobs
  import opened JobRuns
  import RecordCodec
  import ReplyGates

  // --- from jobs to bytes and back ------------------------------------------------------------------

  /** The log holds the encodings of these records. */
  ghost predicate Carries(log: seq<Rec>, records: seq<Record>) {
    && |log| == |records|
    && forall k | 0 <= k < |log| ::
       RecordCodec.InRange(records[k]) && log[k].kind == RecordCodec.TypeOf(records[k]) &&
         log[k].payload == RecordCodec.Encode(records[k])
  }

  /** What recovery decodes, record by record; it gives up at the first that does not decode. */
  function DecodeAll(log: seq<Rec>): seq<Record> {
    if log == [] then []
    else
      var r := RecordCodec.Decode(log[0].kind, log[0].payload);
      if r.None? then [] else [r.value] + DecodeAll(log[1..])
  }

  lemma {:induction false} CarriedDecodes(log: seq<Rec>, records: seq<Record>)
    requires Carries(log, records)
    ensures DecodeAll(log) == records
  {
    hide RecordCodec.Decode, RecordCodec.Encode, RecordCodec.InRange;
    if log != [] {
      RecordCodec.RecordRoundTrip(records[0]);
      CarriedDecodes(log[1..], records[1..]);
      assert records == [records[0]] + records[1..];
    }
  }

  // --- a job that was enqueued ------------------------------------------------------------------------

  /** The log purges the job somewhere after the k-th record. */
  ghost predicate PurgedAfter(recs: seq<Record>, k: nat, id: JobId) {
    exists j :: k < j < |recs| && recs[j].JobsPurged? && id in recs[j].ids
  }

  /** A job is known from its JobEnqueued record on, until a record purges it. */
  lemma {:induction false} EnqueuedIsKnown(recs: seq<Record>, k: nat)
    requires Accepted(EMPTY, recs) && k < |recs| && recs[k].JobEnqueued?
    ensures recs[k].id in Replay(EMPTY, recs).jobs || PurgedAfter(recs, k, recs[k].id)
  {
    var before, last := recs[..|recs| - 1], recs[|recs| - 1];
    if k < |recs| - 1 {
      EnqueuedIsKnown(before, k);
      if PurgedAfter(before, k, recs[k].id) {
        var j :| k < j < |before| && before[j].JobsPurged? && recs[k].id in before[j].ids;
        assert recs[j] == before[j];
      } else if last.JobsPurged? && recs[k].id in last.ids {
        assert recs[|recs| - 1].JobsPurged?;
      }
    }
  }

  lemma {:induction false} AcceptedPrefix(recs: seq<Record>, n: nat)
    requires Accepted(EMPTY, recs) && n <= |recs|
    ensures Accepted(EMPTY, recs[..n])
  {
    if n < |recs| {
      AcceptedPrefix(recs[..|recs| - 1], n);
      assert recs[..|recs| - 1][..n] == recs[..n];
    } else {
      assert recs[..n] == recs;
    }
  }

  // --- what a released reply means --------------------------------------------------------------------------

  /** Whatever happens after the log has committed an LSN, a later crash and recovery that
      succeeds brings back every record up to it. */
  lemma CommittedComesBack(f: Format, segmentSize: nat, states: seq<System>, actions: seq<Action>, i: nat, j: nat)
    requires segmentSize >= MIN_SEGMENT_SIZE && IsRun(f, segmentSize, states, actions) && i <= j < |states| &&
             states[j].Down?
    ensures IsListing(states[j].names, states[j].dir.Keys) && Committed(states[i]) <= |states[i].appended|
    ensures var out := Plain(f).Recover(states[j].dir, states[j].names);
            out.result.Success? ==> Acknowledged(states[i]) <= out.delivered <= states[j].appended
  {
    hide IsRun, Inv, Recovery.Recover;
    AcknowledgedForever(f, segmentSize, states, actions, i, j);
    RecoveryIsExact(f, segmentSize, states, actions, j);
    var out := Plain(f).Recover(states[j].dir, states[j].names);
    if out.result.Success? {
      assert Acknowledged(states[j]) == states[j].appended[..states[j].committed];
    }
  }

  /** Every released ENQUEUE reply names a job that any later recovery knows. The reply was
      queued after its record was logged as number `lsn`, has gone out of the gate while
      the log had reached state i, and the process then went on and crashed in any way any
      number of times. Unless a DLQ purge was logged too, the job is there. */
  lemma ReleasedJobIsRecovered(f: Format, segmentSize: nat, states: seq<System>, actions: seq<Action>, i: nat, j: nat,
                               records: seq<Record>, lsn: nat, gate: ReplyGates.ReplyGate, conn: ReplyGates.ConnId,
                               k: nat)
    requires segmentSize >= MIN_SEGMENT_SIZE && IsRun(f, segmentSize, states, actions) && i <= j < |states| &&
             states[j].Down?
    requires Carries(states[j].appended, records) && Accepted(EMPTY, records)
    requires 1 <= lsn <= |records| && records[lsn - 1].JobEnqueued?
    requires gate.Valid() && conn in gate.conns && gate.committed <= Committed(states[i])
    requires k < gate.accounts[conn].released && k < |gate.accounts[conn].replies| &&
             lsn <= gate.accounts[conn].replies[k].lsn
    ensures IsListing(states[j].names, states[j].dir.Keys)
    ensures var out := Plain(f).Recover(states[j].dir, states[j].names);
            out.result.Success? ==>
              var recovered := DecodeAll(out.delivered);
              && lsn <= |recovered| && recovered <= records && Accepted(EMPTY, recovered)
              && (records[lsn - 1].id in Replay(EMPTY, recovered).jobs ||
                  PurgedAfter(recovered, lsn - 1, records[lsn - 1].id))
  {
    hide ReplyGates.ReplyGate.Valid, IsRun, Recovery.Recover, Replay, Accepted, RecordCodec.Encode, RecordCodec.InRange,
         RecordCodec.TypeOf, DecodeAll, PurgedAfter;
    gate.NothingEarly(conn);
    CommittedComesBack(f, segmentSize, states, actions, i, j);
    var out := Plain(f).Recover(states[j].dir, states[j].names);
    if out.result.Success? {
      var n := |out.delivered|;
      var recovered := records[..n];
      CarriedDecodes(out.delivered, recovered);
      AcceptedPrefix(records, n);
      EnqueuedIsKnown(recovered, lsn - 1);
    }
  }
}
