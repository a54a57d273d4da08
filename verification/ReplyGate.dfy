/**
 The durability gate of the server: replies wait, per connection, until the log has
 committed everything they could depend on.
 */
module ReplyGates {
  import opened LogFormat

  type ConnId = nat

  /** Everything up to `end` in the gated bytes may go once `lsn` is committed. */
  datatype Mark = Mark(lsn: nat, end: nat)

  datatype Conn = Conn(out: Bytes, gated: Bytes, marks: seq<Mark>, dirty: bool)

  datatype Gated = Gated(lsn: nat, conn: ConnId)

  /** A reply, with the last LSN logged when it was queued. */
  datatype Reply = Reply(bytes: Bytes, lsn: nat)

  function Concat(replies: seq<Reply>): Bytes {
    if replies == [] then [] else Concat(replies[..|replies| - 1]) + replies[|replies| - 1].bytes
  }

  lemma {:induction false} ConcatAppend(a: seq<Reply>, b: seq<Reply>)
    ensures Concat(a + b) == Concat(a) + Concat(b)
  {
    if b == [] {
      assert a + b == a;
    } else {
      ConcatAppend(a, b[..|b| - 1]);
      assert (a + b)[..|a + b| - 1] == a + b[..|b| - 1];
    }
  }

  // --- one connection -----------------------------------------------------------------------

  /** Where the replies of the k-th mark end; before the first mark, where the released
      ones end. */
  function Cut(released: nat, cuts: seq<nat>, k: int): nat {
    if 0 <= k < |cuts| then cuts[k] else released
  }

  /** The k-th mark covers the replies between two cuts, and each of them waits for its LSN. */
  ghost predicate MarkOk(marks: seq<Mark>, replies: seq<Reply>, released: nat, cuts: seq<nat>, k: nat) {
    k < |marks| ==>
      && |cuts| == |marks| && released <= Cut(released, cuts, k - 1) <= cuts[k] <= |replies|
      && marks[k].end == |Concat(replies[released..cuts[k]])|
      && (forall i | Cut(released, cuts, k - 1) <= i < cuts[k] :: replies[i].lsn == marks[k].lsn)
      && (k > 0 ==> marks[k - 1].lsn < marks[k].lsn)
  }

  ghost predicate MarksOk(marks: seq<Mark>, replies: seq<Reply>, released: nat, cuts: seq<nat>) {
    forall k: nat :: MarkOk(marks, replies, released, cuts, k)
  }

  /** Of all replies, in order, the released ones have gone out and the others wait. */
  ghost predicate ConnOk(c: Conn, replies: seq<Reply>, released: nat, cuts: seq<nat>, committed: nat) {
    && released <= |replies| && |cuts| == |c.marks|
    && c.out == Concat(replies[..released]) && c.gated == Concat(replies[released..])
    && (forall i | 0 <= i < released :: replies[i].lsn <= committed)
    && MarksOk(c.marks, replies, released, cuts)
    && Cut(released, cuts, |cuts| - 1) == |replies|
  }

  lemma MarksDone(c: Conn, replies: seq<Reply>, released: nat, cuts: seq<nat>, committed: nat)
    requires ConnOk(c, replies, released, cuts, committed) && c.marks == []
    ensures released == |replies| && c.gated == []
  {
    assert replies[released..] == [];
  }

  /** A reply that need not wait. */
  lemma PassThrough(c: Conn, replies: seq<Reply>, released: nat, cuts: seq<nat>, committed: nat, r: Reply)
    requires ConnOk(c, replies, released, cuts, committed) && c.marks == [] && r.lsn <= committed
    ensures ConnOk(c.(out := c.out + r.bytes), replies + [r], |replies| + 1, [], committed)
  {
    MarksDone(c, replies, released, cuts, committed);
    var all := replies + [r];
    assert replies[..released] == replies && all[..|replies| + 1] == all && all[|replies| + 1..] == [];
    ConcatAppend(replies, [r]);
    OneReply(r);
  }

  lemma OneReply(r: Reply)
    ensures Concat([r]) == r.bytes
  {
    assert [r][..0] == [];
  }

  /** A reply under a new mark. */
  lemma NewMark(c: Conn, replies: seq<Reply>, released: nat, cuts: seq<nat>, committed: nat, r: Reply)
    requires ConnOk(c, replies, released, cuts, committed) && (c.marks != [] ==> c.marks[|c.marks| - 1].lsn < r.lsn)
    ensures var c' := c.(gated := c.gated + r.bytes, marks := c.marks + [Mark(r.lsn, |c.gated + r.bytes|)]);
            ConnOk(c', replies + [r], released, cuts + [|replies| + 1], committed)
  {
    var all := replies + [r];
    var gated, marks, cuts' := c.gated + r.bytes, c.marks + [Mark(r.lsn, |c.gated + r.bytes|)], cuts + [|replies| + 1];
    Waiting(replies, released, r);
    assert all[..released] == replies[..released];
    forall k: nat ensures MarkOk(marks, all, released, cuts', k) {
      assert MarkOk(c.marks, replies, released, cuts, k);
      if k < |c.marks| {
        OldMark(c.marks, Mark(r.lsn, |gated|), replies, r, released, cuts, k);
      } else if k == |c.marks| {
        if k > 0 { assert MarkOk(c.marks, replies, released, cuts, k - 1); }
        LastMark(c.marks, replies, r, released, cuts, |gated|);
      }
    }
  }

  lemma OldMark(marks: seq<Mark>, m: Mark, replies: seq<Reply>, r: Reply, released: nat, cuts: seq<nat>, k: nat)
    requires MarkOk(marks, replies, released, cuts, k) && k < |marks|
    ensures MarkOk(marks + [m], replies + [r], released, cuts + [|replies| + 1], k)
  {
    assert (replies + [r])[released..cuts[k]] == replies[released..cuts[k]];
  }

  lemma LastMark(marks: seq<Mark>, replies: seq<Reply>, r: Reply, released: nat, cuts: seq<nat>, end: nat)
    requires |cuts| == |marks| && released <= |replies| && Cut(released, cuts, |cuts| - 1) == |replies|
    requires end == |Concat((replies + [r])[released..])| && (marks != [] ==> marks[|marks| - 1].lsn < r.lsn)
    ensures MarkOk(marks + [Mark(r.lsn, end)], replies + [r], released, cuts + [|replies| + 1], |marks|)
  {
    var cuts' := cuts + [|replies| + 1];
    assert Cut(released, cuts', |cuts| - 1) == |replies|;
    assert (replies + [r])[released..|replies| + 1] == (replies + [r])[released..];
  }

  lemma Waiting(replies: seq<Reply>, released: nat, r: Reply)
    requires released <= |replies|
    ensures Concat((replies + [r])[released..]) == Concat(replies[released..]) + r.bytes
  {
    assert (replies + [r])[released..] == replies[released..] + [r];
    ConcatAppend(replies[released..], [r]);
    OneReply(r);
  }

  /** A reply under the last mark. */
  lemma SameMark(c: Conn, replies: seq<Reply>, released: nat, cuts: seq<nat>, committed: nat, r: Reply)
    requires ConnOk(c, replies, released, cuts, committed) && c.marks != [] && c.marks[|c.marks| - 1].lsn == r.lsn
    ensures var last := |c.marks| - 1;
            var c' := c.(gated := c.gated + r.bytes, marks := c.marks[last := Mark(r.lsn, |c.gated + r.bytes|)]);
            ConnOk(c', replies + [r], released, cuts[last := |replies| + 1], committed)
  {
    var last := |c.marks| - 1;
    var all := replies + [r];
    var marks, cuts' := c.marks[last := Mark(r.lsn, |c.gated + r.bytes|)], cuts[last := |replies| + 1];
    Waiting(replies, released, r);
    assert all[..released] == replies[..released];
    forall k: nat ensures MarkOk(marks, all, released, cuts', k) {
      assert MarkOk(c.marks, replies, released, cuts, k);
      if k < last {
        assert all[released..cuts[k]] == replies[released..cuts[k]];
      } else if k == last {
        assert Cut(released, cuts', k - 1) == Cut(released, cuts, k - 1);
        assert all[released..|replies| + 1] == all[released..];
      }
    }
  }

  // --- releasing ----------------------------------------------------------------------------------

  lemma {:induction false} CutsGrow(marks: seq<Mark>, replies: seq<Reply>, released: nat, cuts: seq<nat>, j: nat,
                                    k: nat)
    requires MarksOk(marks, replies, released, cuts) && j <= k < |marks|
    ensures |cuts| == |marks| && released <= cuts[j] <= cuts[k] <= |replies| && marks[j].lsn <= marks[k].lsn
    decreases k
  {
    assert MarkOk(marks, replies, released, cuts, k) && MarkOk(marks, replies, released, cuts, j);
    if j < k { CutsGrow(marks, replies, released, cuts, j, k - 1); }
  }

  /** Every reply before the end of a mark waits for no more than that mark. */
  lemma {:induction false} CoveredByMark(marks: seq<Mark>, replies: seq<Reply>, released: nat, cuts: seq<nat>, k: nat,
                                         i: nat)
    requires MarksOk(marks, replies, released, cuts) && k < |marks| && |cuts| == |marks| &&
             released <= i < cuts[k] <= |replies|
    ensures replies[i].lsn <= marks[k].lsn
    decreases k
  {
    assert MarkOk(marks, replies, released, cuts, k);
    if i < Cut(released, cuts, k - 1) {
      CutsGrow(marks, replies, released, cuts, k - 1, k);
      CoveredByMark(marks, replies, released, cuts, k - 1, i);
    }
  }

  function Shifted(marks: seq<Mark>, size: nat): (r: seq<Mark>)
    requires forall k | 0 <= k < |marks| :: marks[k].end >= size
    ensures |r| == |marks| && forall k | 0 <= k < |r| :: r[k] == Mark(marks[k].lsn, marks[k].end - size)
  {
    if marks == [] then [] else [Mark(marks[0].lsn, marks[0].end - size)] + Shifted(marks[1..], size)
  }

  lemma SplitConcat(replies: seq<Reply>, a: nat, x: nat, b: nat)
    requires a <= x <= b <= |replies|
    ensures Concat(replies[a..b]) == Concat(replies[a..x]) + Concat(replies[x..b])
  {
    assert replies[a..b] == replies[a..x] + replies[x..b];
    ConcatAppend(replies[a..x], replies[x..b]);
  }

  lemma EndsGrow(c: Conn, replies: seq<Reply>, released: nat, cuts: seq<nat>, committed: nat, p: nat, k: nat)
    requires ConnOk(c, replies, released, cuts, committed) && p <= k < |c.marks|
    ensures c.marks[p].end <= c.marks[k].end <= |c.gated| && |cuts| == |c.marks| && cuts[p] <= cuts[k] <= |replies|
    ensures c.marks[k].end == c.marks[p].end + |Concat(replies[cuts[p]..cuts[k]])|
  {
    CutsGrow(c.marks, replies, released, cuts, p, k);
    assert MarkOk(c.marks, replies, released, cuts, p) && MarkOk(c.marks, replies, released, cuts, k);
    SplitConcat(replies, released, cuts[p], cuts[k]);
    SplitConcat(replies, released, cuts[k], |replies|);
    assert replies[released..|replies|] == replies[released..];
  }

  /** The first p marks may go: their bytes leave the gate, in order. */
  lemma Releases(c: Conn, replies: seq<Reply>, released: nat, cuts: seq<nat>, committed: nat, p: nat)
    requires ConnOk(c, replies, released, cuts, committed) && p < |c.marks| && c.marks[p].lsn <= committed
    ensures forall k | p < k < |c.marks| :: c.marks[p].end <= c.marks[k].end
    ensures var end := c.marks[p].end;
            && end <= |c.gated|
            && ConnOk(c.(out := c.out + c.gated[..end], gated := c.gated[end..], marks :=
                         Shifted(c.marks[p + 1..], end)),
                      replies, cuts[p], cuts[p + 1..], committed)
  {
    hide ConnOk;
    forall k | p <= k < |c.marks| ensures c.marks[p].end <= c.marks[k].end <= |c.gated| {
      EndsGrow(c, replies, released, cuts, committed, p, k);
    }
    ReleasedBytes(c, replies, released, cuts, committed, p);
    ReleasedMarks(c, replies, released, cuts, committed, p);
    ReleasedAll(c, replies, released, cuts, committed, p);
  }

  lemma ReleasedBytes(c: Conn, replies: seq<Reply>, released: nat, cuts: seq<nat>, committed: nat, p: nat)
    requires ConnOk(c, replies, released, cuts, committed) && p < |c.marks| && c.marks[p].end <= |c.gated|
    ensures |cuts| == |c.marks| && released <= cuts[p] <= |replies|
    ensures c.out + c.gated[..c.marks[p].end] == Concat(replies[..cuts[p]])
    ensures c.gated[c.marks[p].end..] == Concat(replies[cuts[p]..])
  {
    CutsGrow(c.marks, replies, released, cuts, p, p);
    assert MarkOk(c.marks, replies, released, cuts, p);
    SplitConcat(replies, released, cuts[p], |replies|);
    SplitConcat(replies, 0, released, cuts[p]);
    assert replies[released..|replies|] == replies[released..] && replies[cuts[p]..|replies|] == replies[cuts[p]..];
    assert replies[0..released] == replies[..released] && replies[0..cuts[p]] == replies[..cuts[p]];
  }

  lemma ReleasedMarks(c: Conn, replies: seq<Reply>, released: nat, cuts: seq<nat>, committed: nat, p: nat)
    requires ConnOk(c, replies, released, cuts, committed) && p < |c.marks|
    requires forall k | p < k < |c.marks| :: c.marks[p].end <= c.marks[k].end
    ensures var marks, cuts' := Shifted(c.marks[p + 1..], c.marks[p].end), cuts[p + 1..];
            MarksOk(marks, replies, cuts[p], cuts')
  {
    var marks, cuts', end := Shifted(c.marks[p + 1..], c.marks[p].end), cuts[p + 1..], c.marks[p].end;
    forall k: nat ensures MarkOk(marks, replies, cuts[p], cuts', k) {
      if k < |marks| {
        var j := p + 1 + k;
        EndsGrow(c, replies, released, cuts, committed, p, j);
        assert MarkOk(c.marks, replies, released, cuts, j);
        CutsGrow(c.marks, replies, released, cuts, p, j);
        CutsGrow(c.marks, replies, released, cuts, p, j - 1);
        assert Cut(cuts[p], cuts', k - 1) == Cut(released, cuts, j - 1);
      }
    }
  }

  lemma ReleasedAll(c: Conn, replies: seq<Reply>, released: nat, cuts: seq<nat>, committed: nat, p: nat)
    requires ConnOk(c, replies, released, cuts, committed) && p < |c.marks| && c.marks[p].lsn <= committed
    requires forall k | p < k < |c.marks| :: c.marks[p].end <= c.marks[k].end
    requires c.marks[p].end <= |c.gated| && |cuts| == |c.marks| && released <= cuts[p] <= |replies|
    requires c.out + c.gated[..c.marks[p].end] == Concat(replies[..cuts[p]]) &&
             c.gated[c.marks[p].end..] == Concat(replies[cuts[p]..])
    requires MarksOk(Shifted(c.marks[p + 1..], c.marks[p].end), replies, cuts[p], cuts[p + 1..])
    ensures var end := c.marks[p].end;
            ConnOk(c.(out := c.out + c.gated[..end], gated := c.gated[end..], marks := Shifted(c.marks[p + 1..], end)),
                   replies, cuts[p], cuts[p + 1..], committed)
  {
    forall i | 0 <= i < cuts[p] ensures replies[i].lsn <= committed {
      if i >= released { CoveredByMark(c.marks, replies, released, cuts, p, i); }
    }
    var cuts' := cuts[p + 1..];
    assert Cut(cuts[p], cuts', |cuts'| - 1) == Cut(released, cuts, |cuts| - 1);
  }

  // --- the gate ---------------------------------------------------------------------------------------

  ghost predicate InGate(gated: seq<Gated>, conns: map<ConnId, Conn>, id: ConnId) {
    id in conns ==> forall k | 0 <= k < |conns[id].marks| :: Gated(conns[id].marks[k].lsn, id) in gated
  }

  ghost predicate UpTo(c: Conn, replies: seq<Reply>, last: nat) {
    && (forall k | 0 <= k < |c.marks| :: c.marks[k].lsn <= last)
    && (forall i | 0 <= i < |replies| :: replies[i].lsn <= last)
  }

  ghost predicate Rising(gated: seq<Gated>, last: nat) {
    && (forall i, j | 0 <= i < j < |gated| :: gated[i].lsn <= gated[j].lsn)
    && (forall i | 0 <= i < |gated| :: gated[i].lsn <= last)
  }

  /** A connection that has something to write is on the list of those to write to. */
  ghost predicate Listed(conns: map<ConnId, Conn>, dirty: seq<ConnId>) {
    forall id | id in conns && conns[id].dirty :: id in dirty
  }

  /** What a connection has been sent, is owed, and may be sent. */
  datatype Account = Account(replies: seq<Reply>, released: nat, cuts: seq<nat>)

  class ReplyGate {
    var conns: map<ConnId, Conn>
    var gated: seq<Gated>
    var dirty: seq<ConnId>
    var committed: nat
    /** The last LSN any reply was queued under. */
    ghost var last: nat
    ghost var accounts: map<ConnId, Account>

    ghost predicate ConnValid(id: ConnId)
      reads this
    {
      id in conns ==>
        && id in accounts
        && ConnOk(conns[id], accounts[id].replies, accounts[id].released, accounts[id].cuts, committed)
        && UpTo(conns[id], accounts[id].replies, last)
    }

    ghost predicate Valid()
      reads this
    {
      && (forall id :: ConnValid(id)) && (forall id :: InGate(gated, conns, id)) && Rising(gated, last)
      && conns.Keys == accounts.Keys && Listed(conns, dirty)
    }

    /** What has gone out is the first replies, whole and in order, and the log had
        committed all that each of them depends on. */
    lemma NothingEarly(id: ConnId)
      requires Valid() && id in conns
      ensures id in accounts && accounts[id].released <= |accounts[id].replies|
      ensures conns[id].out == Concat(accounts[id].replies[..accounts[id].released]) &&
              conns[id].out + conns[id].gated == Concat(accounts[id].replies)
      ensures forall i | 0 <= i < accounts[id].released :: accounts[id].replies[i].lsn <= committed
    {
      assert ConnValid(id);
      var a := accounts[id];
      ConcatAppend(a.replies[..a.released], a.replies[a.released..]);
      assert a.replies == a.replies[..a.released] + a.replies[a.released..];
    }

    constructor ()
      ensures Valid() && conns == map[] && committed == 0 && last == 0
    {
      conns, gated, dirty, committed, last, accounts := map[], [], [], 0, 0, map[];
    }

    method Open(id: ConnId)
      requires Valid() && id !in conns && forall i | 0 <= i < |gated| :: gated[i].conn != id
      modifies this`conns, this`accounts
      ensures Valid() && conns == old(conns)[id := Conn([], [], [], false)] &&
              accounts == old(accounts)[id := Account([], 0, [])]
    {
      conns := conns[id := Conn([], [], [], false)];
      accounts := accounts[id := Account([], 0, [])];
      forall k ensures ConnValid(k) {
        assert old(ConnValid(k));
        if k == id { NothingYet(committed, last); }
      }
      forall k ensures InGate(gated, conns, k) { assert InGate(old(gated), old(conns), k); }
    }

    method Close(id: ConnId)
      requires Valid()
      modifies this`conns, this`accounts
      ensures Valid() && conns == old(conns) - {id} && accounts == old(accounts) - {id}
    {
      conns := conns - {id};
      accounts := accounts - {id};
      forall k ensures ConnValid(k) { assert old(ConnValid(k)); }
      forall k ensures InGate(gated, conns, k) { assert InGate(old(gated), old(conns), k); }
    }

    /** The connection has something to write. */
    method Touch(id: ConnId)
      requires Valid() && id in conns
      modifies this`conns, this`dirty
      ensures Valid() && conns == old(conns)[id := old(conns)[id].(dirty := true)]
      ensures dirty == if old(conns)[id].dirty then old(dirty) else old(dirty) + [id]
    {
      hide ConnOk, Rising;
      if !conns[id].dirty {
        conns := conns[id := conns[id].(dirty := true)];
        dirty := dirty + [id];
      }
      forall k ensures ConnValid(k) {
        assert old(ConnValid(k));
        if k == id { SameButDirty(old(conns)[id], accounts[id], committed); }
      }
      forall k ensures InGate(gated, conns, k) { assert InGate(old(gated), old(conns), k); }
    }

    method QueueReply(id: ConnId, bytes: Bytes, lsn: nat)
      requires Valid() && id in conns && last <= lsn
      modifies this
      ensures Valid() && last == lsn && committed == old(committed) && conns.Keys == old(conns).Keys
      ensures id in accounts && accounts == old(accounts)[id := accounts[id]]
      ensures accounts[id].replies == old(accounts)[id].replies + [Reply(bytes, lsn)]
      ensures old(accounts)[id].released <= accounts[id].released
      ensures var c, now := old(conns)[id], old(conns)[id].marks == [] && lsn <= committed;
              && conns[id].out == (if now then c.out + bytes else c.out) &&
                 conns[id].gated == (if now then c.gated else c.gated + bytes)
              && conns[id].dirty && forall k | k in conns && k != id :: conns[k] == old(conns)[k]
    {
      hide ConnOk, Rising, UpTo, Marked;
      assert ConnValid(id) && InGate(gated, conns, id);
      var c, marked;
      ghost var a;
      c, marked, a := Admit(conns[id], bytes, lsn, committed, last, accounts[id]);
      StillInGate(gated, conns, id, c, lsn, marked);
      RisingNext(gated, last, Gated(lsn, id));
      conns := conns[id := c];
      accounts := accounts[id := a];
      if marked { gated := gated + [Gated(lsn, id)]; }
      last := lsn;
      forall k ensures ConnValid(k) {
        assert old(ConnValid(k));
        if k != id && k in conns { UpToLater(conns[k], accounts[k].replies, old(last), last); }
      }
      forall k ensures InGate(gated, conns, k) { assert InGate(old(gated), old(conns), k); }
      Touch(id);
    }

    /** The log has committed more: every reply that depends on no more than that goes out,
        and no other. */
    method Release(durable: nat)
      requires Valid() && committed <= durable
      modifies this
      ensures Valid() && committed == durable && last == old(last) && conns.Keys == old(conns).Keys
      ensures forall id | id in conns ::
              accounts[id].replies == old(accounts)[id].replies && old(conns)[id].out <= conns[id].out
      ensures forall id, k | id in conns && 0 <= k < |conns[id].marks| :: conns[id].marks[k].lsn > committed
      ensures forall id, i | id in conns && accounts[id].released <= i < |accounts[id].replies| ::
              accounts[id].replies[i].lsn > committed
      ensures forall id | id in conns && conns[id].out != old(conns)[id].out :: conns[id].dirty && id in dirty
      ensures forall id | id in conns && old(conns)[id].dirty :: conns[id].dirty
    {
      hide ConnOk, Rising, UpTo, InGate;
      committed := durable;
      forall k ensures ConnValid(k) {
        assert old(ConnValid(k));
        if k in conns { CommittedGrows(conns[k], accounts[k], old(committed), durable); }
      }
      while gated != [] && gated[0].lsn <= committed
        invariant Valid() && committed == durable && last == old(last) && conns.Keys == old(conns).Keys
        invariant forall id | id in conns ::
                  accounts[id].replies == old(accounts)[id].replies && old(conns)[id].out <= conns[id].out
        invariant forall id | id in conns && conns[id].out != old(conns)[id].out :: conns[id].dirty
        invariant forall id | id in conns && old(conns)[id].dirty :: conns[id].dirty
        decreases |gated|
      {
        ReleaseFirst();
      }
      forall id, k | id in conns && 0 <= k < |conns[id].marks| ensures conns[id].marks[k].lsn > committed {
        AllLater(gated, last, committed, conns, id, k);
      }
      forall id, i | id in conns && accounts[id].released <= i < |accounts[id].replies|
        ensures accounts[id].replies[i].lsn > committed
      {
        assert ConnValid(id);
        WaitsForMore(conns[id], accounts[id], committed, i);
      }
    }

    /** One entry of the gate: its connection is drained, unless it is gone. */
    method ReleaseFirst()
      requires Valid() && gated != [] && gated[0].lsn <= committed
      modifies this`conns, this`accounts, this`gated, this`dirty
      ensures Valid() && gated == old(gated)[1..] && conns.Keys == old(conns).Keys
      ensures forall id | id in conns ::
              accounts[id].replies == old(accounts)[id].replies && old(conns)[id].out <= conns[id].out
      ensures forall id | id in conns && conns[id].out != old(conns)[id].out :: conns[id].dirty
      ensures forall id | id in conns && old(conns)[id].dirty :: conns[id].dirty
    {
      hide ConnOk, Rising, UpTo, InGate;
      var id, moved := gated[0].conn, false;
      GateRest(gated, last);
      if id in conns {
        assert ConnValid(id) && InGate(gated, conns, id);
        var c;
        ghost var a;
        c, a := Drain(conns[id], committed, accounts[id]);
        UpToFewer(conns[id], c, accounts[id].replies, last);
        LeavesGate(gated, conns, id, c, committed);
        moved := |c.out| > |conns[id].out|;
        conns := conns[id := c];
        accounts := accounts[id := a];
      } else {
        NotInGate(gated, conns, id);
      }
      forall k ensures InGate(gated[1..], conns, k) {
        assert InGate(old(gated), old(conns), k);
        if k != id { OthersInGate(gated, old(conns), conns, id, k); }
      }
      gated := gated[1..];
      forall k ensures ConnValid(k) { assert old(ConnValid(k)); }
      if moved { Touch(id); }
    }
  }

  /** What release_durable_replies() does for one connection: the marks up to the
      committed LSN are popped, and the bytes they cover move from the gate to the output. */
  method Drain(c: Conn, committed: nat, ghost a: Account) returns (c': Conn, ghost a': Account)
    requires ConnOk(c, a.replies, a.released, a.cuts, committed)
    ensures ConnOk(c', a'.replies, a'.released, a'.cuts, committed)
    ensures a'.replies == a.replies && a.released <= a'.released && c.out <= c'.out &&
            c.out + c.gated == c'.out + c'.gated && c'.dirty == c.dirty
    ensures forall k | 0 <= k < |c'.marks| :: c'.marks[k].lsn > committed
    ensures FewerMarks(c, c')
  {
    hide ConnOk;
    var end, p := 0, 0;
    while p < |c.marks| && c.marks[p].lsn <= committed
      invariant 0 <= p <= |c.marks| && (p == 0 ==> end == 0) &&
                (p > 0 ==> end == c.marks[p - 1].end && c.marks[p - 1].lsn <= committed)
    {
      end := c.marks[p].end;
      p := p + 1;
    }
    if p == 0 {
      forall k | 0 <= k < |c.marks| ensures c.marks[k].lsn > committed { FirstIsLeast(c, a, committed, 0, k); }
      return c, a;
    }
    Releases(c, a.replies, a.released, a.cuts, committed, p - 1);
    ReleasedGrows(c, a, committed, p - 1);
    forall k | p <= k < |c.marks| ensures c.marks[k].lsn > committed { FirstIsLeast(c, a, committed, p, k); }
    a' := Account(a.replies, a.cuts[p - 1], a.cuts[p..]);
    if end == 0 {
      assert c.out + c.gated[..0] == c.out && c.gated[0..] == c.gated && Shifted(c.marks[p..], 0) == c.marks[p..];
      return c.(marks := c.marks[p..]), a';
    }
    return c.(out := c.out + c.gated[..end], gated := c.gated[end..], marks := Shifted(c.marks[p..], end)), a';
  }

  /** Every LSN that is still waited for was waited for before. */
  ghost predicate FewerMarks(c: Conn, c': Conn) {
    forall k | 0 <= k < |c'.marks| :: exists j :: 0 <= j < |c.marks| && c.marks[j].lsn == c'.marks[k].lsn
  }

  /** What still waits depends on more than is committed, once no mark up to that is left. */
  lemma WaitsForMore(c: Conn, a: Account, committed: nat, i: nat)
    requires ConnOk(c, a.replies, a.released, a.cuts, committed) && a.released <= i < |a.replies|
    requires forall k | 0 <= k < |c.marks| :: c.marks[k].lsn > committed
    ensures a.replies[i].lsn > committed
  {
    UnderAMark(c.marks, a.replies, a.released, a.cuts, |c.marks|, i);
  }

  lemma {:induction false} UnderAMark(marks: seq<Mark>, replies: seq<Reply>, released: nat, cuts: seq<nat>, k: nat,
                                      i: nat)
    requires MarksOk(marks, replies, released, cuts) && |cuts| == |marks| && k <= |marks|
    requires released <= i < Cut(released, cuts, k - 1) && i < |replies|
    ensures exists m :: 0 <= m < k && replies[i].lsn == marks[m].lsn
  {
    assert MarkOk(marks, replies, released, cuts, k - 1);
    if i >= Cut(released, cuts, k - 2) {
      assert replies[i].lsn == marks[k - 1].lsn;
    } else {
      UnderAMark(marks, replies, released, cuts, k - 1, i);
    }
  }

  lemma CutsMatch(c: Conn, a: Account, committed: nat)
    requires ConnOk(c, a.replies, a.released, a.cuts, committed)
    ensures |a.cuts| == |c.marks| && a.released <= |a.replies|
  {
  }

  lemma GateRest(gated: seq<Gated>, last: nat)
    requires Rising(gated, last) && gated != []
    ensures Rising(gated[1..], last)
  {
  }

  lemma UpToFewer(c: Conn, c': Conn, replies: seq<Reply>, last: nat)
    requires UpTo(c, replies, last) && FewerMarks(c, c')
    ensures UpTo(c', replies, last)
  {
  }

  /** What is left of a drained connection waits for entries further back. */
  lemma LeavesGate(gated: seq<Gated>, conns: map<ConnId, Conn>, id: ConnId, c: Conn, committed: nat)
    requires gated != [] && gated[0].lsn <= committed && gated[0].conn == id && id in conns && InGate(gated, conns, id)
    requires forall k | 0 <= k < |c.marks| :: c.marks[k].lsn > committed
    requires FewerMarks(conns[id], c)
    ensures InGate(gated[1..], conns[id := c], id)
  {
    assert gated == [gated[0]] + gated[1..];
  }

  lemma NotInGate(gated: seq<Gated>, conns: map<ConnId, Conn>, id: ConnId)
    requires id !in conns && gated != []
    ensures InGate(gated[1..], conns, id)
  {
  }

  lemma OthersInGate(gated: seq<Gated>, before: map<ConnId, Conn>, conns: map<ConnId, Conn>, id: ConnId, k: ConnId)
    requires gated != [] && gated[0].conn == id && k != id && InGate(gated, before, k) &&
             (k in conns ==> k in before && conns[k] == before[k])
    ensures InGate(gated[1..], conns, k)
  {
    assert gated == [gated[0]] + gated[1..];
  }

  lemma AllLater(gated: seq<Gated>, last: nat, committed: nat, conns: map<ConnId, Conn>, id: ConnId, k: nat)
    requires Rising(gated, last) && InGate(gated, conns, id) && id in conns && k < |conns[id].marks|
    requires gated == [] || gated[0].lsn > committed
    ensures conns[id].marks[k].lsn > committed
  {
    assert Gated(conns[id].marks[k].lsn, id) in gated;
    var i :| 0 <= i < |gated| && gated[i] == Gated(conns[id].marks[k].lsn, id);
  }

  lemma FirstIsLeast(c: Conn, a: Account, committed: nat, p: nat, k: nat)
    requires ConnOk(c, a.replies, a.released, a.cuts, committed) && p <= k < |c.marks|
    ensures c.marks[p].lsn <= c.marks[k].lsn
  {
    CutsGrow(c.marks, a.replies, a.released, a.cuts, p, k);
  }

  lemma ReleasedGrows(c: Conn, a: Account, committed: nat, p: nat)
    requires ConnOk(c, a.replies, a.released, a.cuts, committed) && p < |c.marks|
    ensures |a.cuts| == |c.marks| && a.released <= a.cuts[p]
  {
    CutsGrow(c.marks, a.replies, a.released, a.cuts, p, p);
  }

  lemma CommittedGrows(c: Conn, a: Account, committed: nat, later: nat)
    requires ConnOk(c, a.replies, a.released, a.cuts, committed) && committed <= later
    ensures ConnOk(c, a.replies, a.released, a.cuts, later)
  {
  }

  /** Every mark was there before, or is the new one for this LSN. */
  ghost predicate Marked(c: Conn, c': Conn, lsn: nat, marked: bool) {
    forall k | 0 <= k < |c'.marks| ::
      (marked && c'.marks[k].lsn == lsn) || (k < |c.marks| && c'.marks[k].lsn == c.marks[k].lsn)
  }

  /** queue_reply() for one connection: the bytes go out at once only if nothing waits
      before them and everything logged so far is committed; otherwise they wait for the
      last LSN logged. `marked` says that a mark was added. */
  method Admit(c: Conn, bytes: Bytes, lsn: nat, committed: nat, ghost last: nat, ghost a: Account)
    returns (c': Conn, marked: bool, ghost a': Account)
    requires ConnOk(c, a.replies, a.released, a.cuts, committed) && UpTo(c, a.replies, last) && last <= lsn
    ensures ConnOk(c', a'.replies, a'.released, a'.cuts, committed) && UpTo(c', a'.replies, lsn)
    ensures a'.replies == a.replies + [Reply(bytes, lsn)] && a.released <= a'.released && c'.dirty == c.dirty
    ensures Marked(c, c', lsn, marked)
    ensures c.marks == [] && lsn <= committed ==> c'.out == c.out + bytes && c'.gated == c.gated
    ensures c.marks != [] || lsn > committed ==> c'.out == c.out && c'.gated == c.gated + bytes
  {
    hide ConnOk;
    CutsMatch(c, a, committed);
    ghost var r := Reply(bytes, lsn);
    if c.marks == [] && lsn <= committed {
      PassThrough(c, a.replies, a.released, a.cuts, committed, r);
      return c.(out := c.out + bytes), false, Account(a.replies + [r], |a.replies| + 1, []);
    }
    var gated := c.gated + bytes;
    var k := |c.marks| - 1;
    if c.marks != [] && c.marks[k].lsn == lsn {
      SameMark(c, a.replies, a.released, a.cuts, committed, r);
      return c.(gated := gated, marks := c.marks[k := Mark(lsn, |gated|)]), false,
        Account(a.replies + [r], a.released, a.cuts[k := |a.replies| + 1]);
    }
    NewMark(c, a.replies, a.released, a.cuts, committed, r);
    return c.(gated := gated, marks := c.marks + [Mark(lsn, |gated|)]), true,
      Account(a.replies + [r], a.released, a.cuts + [|a.replies| + 1]);
  }

  lemma StillInGate(gated: seq<Gated>, conns: map<ConnId, Conn>, id: ConnId, c: Conn, lsn: nat, marked: bool)
    requires id in conns && InGate(gated, conns, id) && Marked(conns[id], c, lsn, marked)
    ensures InGate(if marked then gated + [Gated(lsn, id)] else gated, conns[id := c], id)
  {
  }

  lemma RisingNext(gated: seq<Gated>, last: nat, g: Gated)
    requires Rising(gated, last) && last <= g.lsn
    ensures Rising(gated, g.lsn) && Rising(gated + [g], g.lsn)
  {
  }

  lemma UpToLater(c: Conn, replies: seq<Reply>, last: nat, later: nat)
    requires UpTo(c, replies, last) && last <= later
    ensures UpTo(c, replies, later)
  {
  }

  lemma NothingYet(committed: nat, last: nat)
    ensures ConnOk(Conn([], [], [], false), [], 0, [], committed) && UpTo(Conn([], [], [], false), [], last)
  {
  }

  lemma SameButDirty(c: Conn, a: Account, committed: nat)
    requires ConnOk(c, a.replies, a.released, a.cuts, committed)
    ensures ConnOk(c.(dirty := true), a.replies, a.released, a.cuts, committed)
  {
  }
}
