/**
 Parked RESERVEs: connections that wait in line for a job on any of the queues they
 named, and the hand-over of jobs that become ready.
 */
module Waiters {
  import opened Wrappers
  import opened LogFormat
  import opened Jobs
  import opened JobRuns
  import opened JobIndex
  import opened States
  import opened Engines
  import T = TimingWheels

  type ConnId = nat

  /** What a parked connection waits for, and the timer that ends the wait. */
  datatype Blocked = Blocked(queues: seq<Bytes>, lease: int, timeout: T.TimerHandle)

  /** A reply to a parked RESERVE. */
  datatype HandOver = HandOver(conn: ConnId, reservation: Reservation)

  function LeaseOf(r: Reservation, at: Time): Record { JobLeased(r.id, r.token, r.leaseExpiresAt, at) }

  /** The records behind hand-overs, one each. */
  function Leases(hs: seq<HandOver>, at: Time): seq<Record> {
    seq(|hs|, i requires 0 <= i < |hs| => LeaseOf(hs[i].reservation, at))
  }

  function Conns(hs: seq<HandOver>): seq<ConnId> { seq(|hs|, i requires 0 <= i < |hs| => hs[i].conn) }

  function ConnSet(hs: seq<HandOver>): set<ConnId> { set i | 0 <= i < |hs| :: hs[i].conn }

  /** What is known of replies, log and waiting connections before and after hand-overs. */
  datatype Desk = Desk(handed: seq<HandOver>, log: seq<Record>, blocked: map<ConnId, Blocked>, resume: seq<ConnId>)

  /** These were handed over: one reply and one lease each, to connections that deserved it
      and wait no longer. */
  ghost predicate Served(before: Desk, after: Desk, hs: seq<HandOver>, at: Time) {
    && after.handed == before.handed + hs && after.log == before.log + Leases(hs, at)
    && Deserved(hs, before.blocked, at) && after.blocked == before.blocked - ConnSet(hs)
    && after.resume == before.resume + Conns(hs)
  }

  lemma ServedNone(d: Desk, at: Time)
    ensures Served(d, d, [], at) && Conns([]) == []
  {
    assert d.blocked - ConnSet([]) == d.blocked && Leases([], at) == [] && d.resume + Conns([]) == d.resume;
  }

  lemma ServedThrough(a: Desk, b: Desk, c: Desk, hs: seq<HandOver>, more: seq<HandOver>, at: Time)
    requires Served(a, b, hs, at) && Served(b, c, more, at)
    ensures Served(a, c, hs + more, at)
  {
    hide Deserved;
    DeservedThrough(hs, more, a.blocked, at);
    assert Conns(hs + more) == Conns(hs) + Conns(more);
    assert a.resume + (Conns(hs) + Conns(more)) == a.resume + Conns(hs) + Conns(more);
    assert Leases(hs + more, at) == Leases(hs, at) + Leases(more, at);
    assert a.handed + (hs + more) == a.handed + hs + more;
    assert a.log + (Leases(hs, at) + Leases(more, at)) == a.log + Leases(hs, at) + Leases(more, at);
  }

  lemma ServedOne(a: Desk, b: Desk, h: HandOver, at: Time)
    requires b.handed == a.handed + [h] && b.log == a.log + [LeaseOf(h.reservation, at)] &&
             b.blocked == a.blocked - {h.conn} && b.resume == a.resume + [h.conn]
    requires h.conn in a.blocked && Fits(h, a.blocked[h.conn], at)
    ensures Served(a, b, [h], at)
  {
    assert Leases([h], at) == [LeaseOf(h.reservation, at)] && Conns([h]) == [h.conn];
    assert ConnSet([h]) == {h.conn} by { assert [h][0].conn == h.conn; }
  }

  /** The job is of a queue that was named, and the lease as long as was asked for. */
  ghost predicate Fits(h: HandOver, b: Blocked, at: Time) {
    h.reservation.queue in b.queues && h.reservation.leaseExpiresAt == at + b.lease
  }

  /** Everyone who got a job was waiting, got what they asked for, and got no second. */
  ghost predicate Deserved(hs: seq<HandOver>, blocked: map<ConnId, Blocked>, at: Time) {
    && (forall i | 0 <= i < |hs| :: hs[i].conn in blocked && Fits(hs[i], blocked[hs[i].conn], at))
    && (forall i, j | 0 <= i < j < |hs| :: hs[i].conn != hs[j].conn)
  }

  lemma DeservedNext(hs: seq<HandOver>, blocked: map<ConnId, Blocked>, h: HandOver, at: Time)
    requires Deserved(hs, blocked, at) && h.conn in blocked - ConnSet(hs) && Fits(h, blocked[h.conn], at)
    ensures Deserved(hs + [h], blocked, at) && blocked - ConnSet(hs + [h]) == (blocked - ConnSet(hs)) - {h.conn}
  {
    var more := hs + [h];
    forall i | 0 <= i < |hs| ensures hs[i].conn != h.conn { assert hs[i].conn in ConnSet(hs); }
    forall c ensures c in ConnSet(more) <==> c in ConnSet(hs) || c == h.conn {
      if c in ConnSet(hs) { var i :| 0 <= i < |hs| && hs[i].conn == c; assert more[i].conn == c; }
      assert more[|hs|].conn == h.conn;
    }
  }

  lemma DeservedThrough(a: seq<HandOver>, b: seq<HandOver>, blocked: map<ConnId, Blocked>, at: Time)
    requires Deserved(a, blocked, at) && Deserved(b, blocked - ConnSet(a), at)
    ensures Deserved(a + b, blocked, at) && blocked - ConnSet(a + b) == (blocked - ConnSet(a)) - ConnSet(b)
    decreases |b|
  {
    if b == [] {
      assert a + b == a && ConnSet(b) == {};
    } else {
      var rest, last := b[..|b| - 1], b[|b| - 1];
      assert b == rest + [last] && a + b == (a + rest) + [last];
      assert forall i | 0 <= i < |rest| :: rest[i] == b[i];
      DeservedThrough(a, rest, blocked, at);
      forall c | c in ConnSet(rest) ensures c != last.conn { var i :| 0 <= i < |rest| && rest[i].conn == c; }
      DeservedNext(a + rest, blocked, last, at);
      DeservedNext(rest, blocked - ConnSet(a), last, at);
    }
  }

  // --- lines -----------------------------------------------------------------------------------

  function LineOf(waiters: map<Bytes, seq<ConnId>>, q: Bytes): seq<ConnId> {
    if q in waiters then waiters[q] else []
  }

  /** The parked connections that name the queue, in parking order. */
  function Named(parked: seq<ConnId>, blocked: map<ConnId, Blocked>, q: Bytes): seq<ConnId> {
    if parked == [] then []
    else
      var c := parked[|parked| - 1];
      Named(parked[..|parked| - 1], blocked, q) + if c in blocked && q in blocked[c].queues then [c] else []
  }

  function Dropped(line: seq<ConnId>, c: ConnId): seq<ConnId> {
    if line == [] then []
    else Dropped(line[..|line| - 1], c) + if line[|line| - 1] == c then [] else [line[|line| - 1]]
  }

  ghost predicate LineOk(waiters: map<Bytes, seq<ConnId>>, parked: seq<ConnId>, blocked: map<ConnId, Blocked>,
                         q: Bytes) {
    LineOf(waiters, q) == Named(parked, blocked, q)
  }

  /** Every line holds exactly the parked connections that name its queue, once each and
      in parking order. */
  ghost predicate LinesOk(waiters: map<Bytes, seq<ConnId>>, parked: seq<ConnId>, blocked: map<ConnId, Blocked>) {
    && (forall q :: LineOk(waiters, parked, blocked, q))
    && (forall i, j | 0 <= i < j < |parked| :: parked[i] != parked[j])
    && (forall c :: c in parked <==> c in blocked)
  }

  lemma NamedNext(parked: seq<ConnId>, blocked: map<ConnId, Blocked>, c: ConnId, b: Blocked, q: Bytes)
    requires c !in parked
    ensures Named(parked + [c], blocked[c := b], q) == Named(parked, blocked, q) + if q in b.queues then [c] else []
  {
    NamedSame(parked, blocked, blocked[c := b], q);
    assert (parked + [c])[..|parked|] == parked;
  }

  lemma {:induction false} NamedSame(parked: seq<ConnId>, blocked: map<ConnId, Blocked>, blocked': map<ConnId, Blocked>,
                                     q: Bytes)
    requires forall c | c in parked :: (c in blocked <==> c in blocked') && (c in blocked ==> blocked[c] == blocked'[c])
    ensures Named(parked, blocked', q) == Named(parked, blocked, q)
  {
    if parked != [] { NamedSame(parked[..|parked| - 1], blocked, blocked', q); }
  }

  lemma {:induction false} NamedMembers(parked: seq<ConnId>, blocked: map<ConnId, Blocked>, q: Bytes, c: ConnId)
    ensures c in Named(parked, blocked, q) <==> c in parked && c in blocked && q in blocked[c].queues
  {
    if parked != [] {
      NamedMembers(parked[..|parked| - 1], blocked, q, c);
      assert parked == parked[..|parked| - 1] + [parked[|parked| - 1]];
    }
  }

  lemma {:induction false} DroppedMembers(line: seq<ConnId>, c: ConnId, x: ConnId)
    ensures x in Dropped(line, c) <==> x in line && x != c
  {
    if line != [] {
      DroppedMembers(line[..|line| - 1], c, x);
      assert line == line[..|line| - 1] + [line[|line| - 1]];
    }
  }

  lemma {:induction false} DroppedAbsent(line: seq<ConnId>, c: ConnId)
    requires c !in line
    ensures Dropped(line, c) == line
  {
    if line != [] { DroppedAbsent(line[..|line| - 1], c); }
  }

  lemma {:induction false} DroppedDistinct(line: seq<ConnId>, c: ConnId)
    requires forall i, j | 0 <= i < j < |line| :: line[i] != line[j]
    ensures var r := Dropped(line, c); forall i, j | 0 <= i < j < |r| :: r[i] != r[j]
  {
    if line != [] {
      var rest, last := line[..|line| - 1], line[|line| - 1];
      DroppedDistinct(rest, c);
      var r := Dropped(rest, c);
      forall i | 0 <= i < |r| ensures r[i] != last {
        assert r[i] in r;
        DroppedMembers(rest, c, r[i]);
      }
    }
  }

  lemma NamedStep(parked: seq<ConnId>, last: ConnId, blocked: map<ConnId, Blocked>, q: Bytes)
    ensures Named(parked + [last], blocked, q) == Named(parked, blocked, q) +
            if last in blocked && q in blocked[last].queues then [last] else []
  {
    assert (parked + [last])[..|parked|] == parked;
  }

  lemma DroppedStep(line: seq<ConnId>, last: ConnId, c: ConnId)
    ensures Dropped(line + [last], c) == Dropped(line, c) + if last == c then [] else [last]
  {
    assert (line + [last])[..|line|] == line;
  }

  ghost predicate AllApart(line: seq<ConnId>) { forall i, j | 0 <= i < j < |line| :: line[i] != line[j] }

  lemma {:induction false} NamedDistinct(parked: seq<ConnId>, blocked: map<ConnId, Blocked>, q: Bytes)
    requires AllApart(parked)
    ensures AllApart(Named(parked, blocked, q))
  {
    if parked != [] {
      var rest, last := parked[..|parked| - 1], parked[|parked| - 1];
      NamedDistinct(rest, blocked, q);
      var r := Named(rest, blocked, q);
      forall i | 0 <= i < |r| ensures r[i] != last {
        assert r[i] in r;
        NamedMembers(rest, blocked, q, r[i]);
      }
    }
  }

  /** The head of a line leaves it as it was behind them. */
  lemma {:induction false} DroppedHead(line: seq<ConnId>)
    requires line != [] && AllApart(line)
    ensures Dropped(line, line[0]) == line[1..]
  {
    if |line| > 1 {
      var rest := line[..|line| - 1];
      DroppedHead(rest);
      assert line[1..] == rest[1..] + [line[|line| - 1]];
    }
  }

  /** Taking a connection out of the line of parked ones takes it out of every queue's line. */
  lemma {:induction false} NamedWithout(parked: seq<ConnId>, blocked: map<ConnId, Blocked>, c: ConnId, q: Bytes)
    ensures Named(Dropped(parked, c), blocked - {c}, q) == Dropped(Named(parked, blocked, q), c)
  {
    if parked != [] {
      var rest, last := parked[..|parked| - 1], parked[|parked| - 1];
      assert parked == rest + [last];
      NamedWithout(rest, blocked, c, q);
      DroppedStep(rest, last, c);
      NamedStep(rest, last, blocked, q);
      DroppedStep(Named(rest, blocked, q), last, c);
      var named := Named(rest, blocked, q);
      assert named + [] == named && Dropped(rest, c) + [] == Dropped(rest, c) &&
             Dropped(named, c) + [] == Dropped(named, c);
      if last != c { NamedStep(Dropped(rest, c), last, blocked - {c}, q); }
    }
  }

  lemma ParkOk(waiters: map<Bytes, seq<ConnId>>, waiters': map<Bytes, seq<ConnId>>, parked: seq<ConnId>,
               blocked: map<ConnId, Blocked>, c: ConnId, b: Blocked)
    requires LinesOk(waiters, parked, blocked) && c !in blocked
    requires AllJoined(waiters, waiters', b.queues, c)
    ensures LinesOk(waiters', parked + [c], blocked[c := b])
  {
    var parked', blocked' := parked + [c], blocked[c := b];
    forall q ensures LineOk(waiters', parked', blocked', q) {
      assert LineOk(waiters, parked, blocked, q) && Joined(waiters, waiters', b.queues, c, q);
      NamedNext(parked, blocked, c, b, q);
    }
  }

  /** The line of each named queue has grown by the connection; the others are the same. */
  ghost predicate Joined(waiters: map<Bytes, seq<ConnId>>, waiters': map<Bytes, seq<ConnId>>, queues: seq<Bytes>,
                         c: ConnId, q: Bytes) {
    LineOf(waiters', q) == LineOf(waiters, q) + if q in queues then [c] else []
  }

  ghost predicate AllJoined(waiters: map<Bytes, seq<ConnId>>, waiters': map<Bytes, seq<ConnId>>, queues: seq<Bytes>,
                            c: ConnId) {
    forall q :: Joined(waiters, waiters', queues, c, q)
  }

  ghost predicate AllDeparted(waiters: map<Bytes, seq<ConnId>>, waiters': map<Bytes, seq<ConnId>>, queues: seq<Bytes>,
                              c: ConnId) {
    forall q :: Departed(waiters, waiters', queues, c, q)
  }

  lemma JoinedNext(before: map<Bytes, seq<ConnId>>, was: map<Bytes, seq<ConnId>>, queues: seq<Bytes>, i: nat, c: ConnId)
    requires i < |queues| && AllJoined(before, was, queues[..i], c) &&
             forall i, j | 0 <= i < j < |queues| :: queues[i] != queues[j]
    ensures AllJoined(before, was[queues[i] := LineOf(was, queues[i]) + [c]], queues[..i + 1], c)
  {
    var some, more := queues[..i], queues[..i + 1];
    assert more == some + [queues[i]] && queues[i] !in some;
    var waiters := was[queues[i] := LineOf(was, queues[i]) + [c]];
    forall p ensures Joined(before, waiters, more, c, p) { assert Joined(before, was, some, c, p); }
  }

  ghost predicate Departed(waiters: map<Bytes, seq<ConnId>>, waiters': map<Bytes, seq<ConnId>>, queues: seq<Bytes>,
                           c: ConnId, q: Bytes) {
    LineOf(waiters', q) == if q in queues then Dropped(LineOf(waiters, q), c) else LineOf(waiters, q)
  }

  lemma {:induction false} DroppedTwice(line: seq<ConnId>, c: ConnId)
    ensures Dropped(Dropped(line, c), c) == Dropped(line, c)
  {
    DroppedMembers(line, c, c);
    DroppedAbsent(Dropped(line, c), c);
  }

  lemma DepartedNext(before: map<Bytes, seq<ConnId>>, was: map<Bytes, seq<ConnId>>, waiters: map<Bytes, seq<ConnId>>,
                     queues: seq<Bytes>, i: nat, c: ConnId)
    requires i < |queues| && AllDeparted(before, was, queues[..i], c)
    requires waiters == if queues[i] in was then was[queues[i] := Dropped(was[queues[i]], c)] else was
    ensures AllDeparted(before, waiters, queues[..i + 1], c)
  {
    var some, more := queues[..i], queues[..i + 1];
    assert more == some + [queues[i]];
    forall p ensures Departed(before, waiters, more, c, p) {
      assert Departed(before, was, some, c, p);
      DroppedTwice(LineOf(before, p), c);
    }
  }

  lemma UnparkOk(waiters: map<Bytes, seq<ConnId>>, waiters': map<Bytes, seq<ConnId>>, parked: seq<ConnId>,
                 blocked: map<ConnId, Blocked>, c: ConnId)
    requires LinesOk(waiters, parked, blocked) && c in blocked
    requires AllDeparted(waiters, waiters', blocked[c].queues, c)
    ensures LinesOk(waiters', Dropped(parked, c), blocked - {c})
  {
    var parked', blocked' := Dropped(parked, c), blocked - {c};
    forall q ensures LineOk(waiters', parked', blocked', q) {
      assert LineOk(waiters, parked, blocked, q) && Departed(waiters, waiters', blocked[c].queues, c, q);
      NamedWithout(parked, blocked, c, q);
      NamedMembers(parked, blocked, q, c);
      if q !in blocked[c].queues { DroppedAbsent(LineOf(waiters, q), c); }
    }
    DroppedDistinct(parked, c);
    forall x ensures x in parked' <==> x in blocked' { DroppedMembers(parked, c, x); }
  }

  // --- no lost wake-up -----------------------------------------------------------------------------

  ghost predicate ReadyIn(queues: map<Bytes, Queue>, q: Bytes) {
    q in queues && queues[q].ready.heap != []
  }

  /** A queue with a ready job and a waiter has been announced. */
  ghost predicate AwakeAt(waiters: map<Bytes, seq<ConnId>>, queues: map<Bytes, Queue>, notes: seq<Bytes>, q: Bytes) {
    ReadyIn(queues, q) && LineOf(waiters, q) != [] ==> q in notes
  }

  ghost predicate Awake(waiters: map<Bytes, seq<ConnId>>, queues: map<Bytes, Queue>, notes: seq<Bytes>) {
    forall q :: AwakeAt(waiters, queues, notes, q)
  }

  /** Whatever the engine does, it announces what it makes ready and forgets nothing. */
  lemma StaysAwake(waiters: map<Bytes, seq<ConnId>>, before: map<Bytes, Queue>, notes: seq<Bytes>,
                   queues: map<Bytes, Queue>, notes': seq<Bytes>)
    requires Awake(waiters, before, notes) && Announced(before, queues, notes') && Heard(notes, queues, notes')
    ensures Awake(waiters, queues, notes')
  {
    forall q ensures AwakeAt(waiters, queues, notes', q) {
      assert AwakeAt(waiters, before, notes, q) && AnnouncedAt(before, queues, notes', q);
      if q in queues && queues[q].ready.heap != [] { assert queues[q].ready.heap[0] in queues[q].ready.heap; }
    }
  }

  /** Nobody waits on a queue that has a ready job. */
  ghost predicate AllServed(waiters: map<Bytes, seq<ConnId>>, queues: map<Bytes, Queue>) {
    forall q :: ReadyIn(queues, q) ==> LineOf(waiters, q) == []
  }

  /** Lines and heaps that only shrink leave nobody waiting anew. */
  ghost predicate Shrunk(waiters: map<Bytes, seq<ConnId>>, queues: map<Bytes, Queue>, waiters': map<Bytes, seq<ConnId>>,
                         queues': map<Bytes, Queue>) {
    && (forall q | ReadyIn(queues', q) :: ReadyIn(queues, q))
    && (forall q | LineOf(waiters', q) != [] :: LineOf(waiters, q) != [])
  }

  /** One name comes before another for the first time. */
  ghost predicate NamedBefore(queues: seq<Bytes>, a: Bytes, b: Bytes) {
    exists p :: 0 <= p < |queues| && queues[p] == a && b !in queues[..p + 1]
  }

  /** The queues, each once, in the order they were first named. */
  ghost predicate FirstNamings(queues: seq<Bytes>, unique: seq<Bytes>) {
    && (forall q :: q in unique <==> q in queues)
    && (forall i, j | 0 <= i < j < |unique| :: unique[i] != unique[j])
    && (forall i, j | 0 <= i < j < |unique| :: NamedBefore(queues, unique[i], unique[j]))
  }

  lemma NextNaming(queues: seq<Bytes>, i: nat, unique: seq<Bytes>)
    requires i < |queues| && FirstNamings(queues[..i], unique)
    ensures FirstNamings(queues[..i + 1], if queues[i] in unique then unique else unique + [queues[i]])
  {
    var some, more, q := queues[..i], queues[..i + 1], queues[i];
    assert more == some + [q];
    forall a, b | NamedBefore(some, a, b) ensures NamedBefore(more, a, b) {
      var p :| 0 <= p < |some| && some[p] == a && b !in some[..p + 1];
      assert more[p] == a && more[..p + 1] == some[..p + 1];
    }
    if q !in unique {
      forall k | 0 <= k < |unique| ensures NamedBefore(more, unique[k], q) {
        assert unique[k] in unique;
        var p :| 0 <= p < |some| && some[p] == unique[k];
        assert more[p] == unique[k] && more[..p + 1] == some[..p + 1];
      }
    }
  }

  method Dedupe(queues: seq<Bytes>) returns (unique: seq<Bytes>)
    ensures FirstNamings(queues, unique)
  {
    hide FirstNamings;
    unique := [];
    NoNamings(queues);
    for i := 0 to |queues|
      invariant FirstNamings(queues[..i], unique)
    {
      NextNaming(queues, i, unique);
      if queues[i] !in unique { unique := unique + [queues[i]]; }
    }
    assert queues[..|queues|] == queues;
  }

  lemma NoNamings(queues: seq<Bytes>)
    ensures FirstNamings(queues[..0], [])
  {
  }

  lemma NewInLine(before: map<Bytes, seq<ConnId>>, waiters: map<Bytes, seq<ConnId>>, queues: map<Bytes, Queue>,
                  notes: seq<Bytes>,
                  names: seq<Bytes>, c: ConnId)
    requires AllJoined(before, waiters, names, c) && forall q | q in names :: !ReadyIn(queues, q)
    ensures Awake(before, queues, notes) ==> Awake(waiters, queues, notes)
    ensures AllServed(before, queues) ==> AllServed(waiters, queues)
  {
    hide ReadyIn;
    forall q | ReadyIn(queues, q) ensures LineOf(waiters, q) == LineOf(before, q) {
      assert Joined(before, waiters, names, c, q);
    }
    if Awake(before, queues, notes) {
      forall q ensures AwakeAt(waiters, queues, notes, q) { assert AwakeAt(before, queues, notes, q); }
    }
  }

  // --- timeouts -------------------------------------------------------------------------------------

  ghost predicate TimedAt(timers: map<T.TimerHandle, T.Timer>, blocked: map<ConnId, Blocked>, c: ConnId) {
    c in blocked ==> blocked[c].timeout in timers && timers[blocked[c].timeout].id == c
  }

  ghost predicate OwnedBy(timers: map<T.TimerHandle, T.Timer>, blocked: map<ConnId, Blocked>, h: T.TimerHandle) {
    h in timers ==> timers[h].id in blocked && blocked[timers[h].id].timeout == h
  }

  /** Every parked connection has its timer, and there are no other timers. */
  ghost predicate TimeoutsOk(timers: map<T.TimerHandle, T.Timer>, blocked: map<ConnId, Blocked>) {
    (forall c :: TimedAt(timers, blocked, c)) && (forall h :: OwnedBy(timers, blocked, h))
  }

  lemma TimeoutAdded(timers: map<T.TimerHandle, T.Timer>, blocked: map<ConnId, Blocked>, c: ConnId, b: Blocked,
                     timer: T.Timer)
    requires TimeoutsOk(timers, blocked) && c !in blocked && b.timeout !in timers && timer.id == c
    ensures TimeoutsOk(timers[b.timeout := timer], blocked[c := b])
  {
    var timers', blocked' := timers[b.timeout := timer], blocked[c := b];
    forall x ensures TimedAt(timers', blocked', x) { assert TimedAt(timers, blocked, x); }
    forall h ensures OwnedBy(timers', blocked', h) { assert OwnedBy(timers, blocked, h); }
  }

  lemma TimeoutDropped(timers: map<T.TimerHandle, T.Timer>, blocked: map<ConnId, Blocked>, c: ConnId)
    requires TimeoutsOk(timers, blocked) && c in blocked
    ensures TimeoutsOk(timers - {blocked[c].timeout}, blocked - {c})
  {
    var timers', blocked' := timers - {blocked[c].timeout}, blocked - {c};
    assert TimedAt(timers, blocked, c);
    forall x ensures TimedAt(timers', blocked', x) { assert TimedAt(timers, blocked, x); }
    forall h ensures OwnedBy(timers', blocked', h) { assert OwnedBy(timers, blocked, h); }
  }

  /** When the wait of a parked connection is over. */
  ghost function DeadlineOf(timers: map<T.TimerHandle, T.Timer>, blocked: map<ConnId, Blocked>, c: ConnId): nat
    requires c in blocked && TimedAt(timers, blocked, c)
  {
    timers[blocked[c].timeout].deadline
  }

  function Ids(fired: seq<T.TimerEvent>): seq<ConnId> {
    seq(|fired|, k requires 0 <= k < |fired| => fired[k].timer.id)
  }

  /** These timers have fired from the k-th on. */
  ghost predicate Firing(fired: seq<T.TimerEvent>, k: nat, firing: map<T.TimerHandle, T.Timer>) {
    && (forall j | k <= j < |fired| :: fired[j].handle in firing && firing[fired[j].handle] == fired[j].timer)
    && (forall h | h in firing :: exists j :: k <= j < |fired| && fired[j].handle == h)
    && (forall i, j | k <= i < j < |fired| :: fired[i].handle != fired[j].handle)
  }

  lemma FiringFrom(before: map<T.TimerHandle, T.Timer>, pending: map<T.TimerHandle, T.Timer>, fired: seq<T.TimerEvent>)
    requires T.Accounted(before, pending, fired)
    ensures var firing := before - pending.Keys;
            Firing(fired, 0, firing) && pending + firing == before && forall h | h in firing :: h !in pending
  {
    var firing := before - pending.Keys;
    forall h | h in firing ensures exists j :: 0 <= j < |fired| && fired[j].handle == h { assert T.Reported(fired, h); }
  }

  lemma StillFiring(fired: seq<T.TimerEvent>, k: nat, firing: map<T.TimerHandle, T.Timer>)
    requires Firing(fired, k, firing) && k < |fired|
    ensures fired[k].handle in firing && firing[fired[k].handle] == fired[k].timer
    ensures Firing(fired, k + 1, firing - {fired[k].handle}) &&
            Ids(fired[..k + 1]) == Ids(fired[..k]) + [fired[k].timer.id]
  {
    var rest := firing - {fired[k].handle};
    forall h | h in rest ensures exists j :: k + 1 <= j < |fired| && fired[j].handle == h {
      var j :| k <= j < |fired| && fired[j].handle == h;
    }
  }

  lemma NoneFiring(fired: seq<T.TimerEvent>, firing: map<T.TimerHandle, T.Timer>)
    requires Firing(fired, |fired|, firing)
    ensures firing == map[]
  {
  }

  lemma OwnerOf(timers: map<T.TimerHandle, T.Timer>, blocked: map<ConnId, Blocked>, h: T.TimerHandle)
    requires TimeoutsOk(timers, blocked) && h in timers
    ensures timers[h].id in blocked && blocked[timers[h].id].timeout == h
  {
    assert OwnedBy(timers, blocked, h);
  }

  /** The wait of these connections, each one once, is over at this time, and nobody else's is. */
  ghost predicate ExactlyDue(timers: map<T.TimerHandle, T.Timer>, blocked: map<ConnId, Blocked>, now: nat,
                             gone: seq<ConnId>) {
    && AllApart(gone) && (forall c | c in gone :: c in blocked)
    && (forall c | c in blocked ::
        TimedAt(timers, blocked, c) && (c in gone <==> DeadlineOf(timers, blocked, c) <= now))
  }

  /** In the order of their deadlines; what was overdue at the start counts as due then. */
  ghost predicate DueInOrder(timers: map<T.TimerHandle, T.Timer>, blocked: map<ConnId, Blocked>, start: nat,
                             gone: seq<ConnId>) {
    && (forall c | c in gone :: c in blocked && TimedAt(timers, blocked, c))
    && (forall j, k | 0 <= j < k < |gone| ::
          T.Max(DeadlineOf(timers, blocked, gone[j]), start) <= T.Max(DeadlineOf(timers, blocked, gone[k]), start))
  }

  lemma FiredIsDue(before: map<T.TimerHandle, T.Timer>, pending: map<T.TimerHandle, T.Timer>, fired: seq<T.TimerEvent>,
                   blocked: map<ConnId, Blocked>, start: nat, now: nat)
    requires T.Accounted(before, pending, fired) && T.AllBy(fired, now) &&
             forall h | h in pending :: pending[h].deadline > now
    requires TimeoutsOk(before, blocked) && T.InOrder(fired, start)
    ensures ExactlyDue(before, blocked, now, Ids(fired)) && DueInOrder(before, blocked, start, Ids(fired))
  {
    var gone := Ids(fired);
    forall k | 0 <= k < |fired| ensures gone[k] in blocked && blocked[gone[k]].timeout == fired[k].handle {
      OwnerOf(before, blocked, fired[k].handle);
    }
    forall c | c in blocked
      ensures TimedAt(before, blocked, c) && (c in gone <==> DeadlineOf(before, blocked, c) <= now) {
      assert TimedAt(before, blocked, c);
      var h := blocked[c].timeout;
      if before[h].deadline <= now {
        assert T.Reported(fired, h);
        var k :| 0 <= k < |fired| && fired[k].handle == h;
        assert gone[k] == c;
      }
    }
    forall k | 0 <= k < |fired| ensures DeadlineOf(before, blocked, gone[k]) == fired[k].timer.deadline {
    }
  }

  class Lines {
    const engine: Engine
    const timeouts: T.TimingWheel
    var waiters: map<Bytes, seq<ConnId>>
    var blocked: map<ConnId, Blocked>
    /** Unparked connections with input left to process. */
    var resume: seq<ConnId>
    /** The replies to parked connections, in the order they were queued. */
    var handed: seq<HandOver>
    /** The connections whose wait ended with a null reply, in that order. */
    var timedOut: seq<ConnId>
    /** The parked connections, longest waiting first. */
    ghost var parked: seq<ConnId>
    /** Timeouts that have fired and whose connections have yet to be looked at. */
    ghost var firing: map<T.TimerHandle, T.Timer>

    /** What it takes to have been parked: the request would be answered, not refused. */
    predicate Reservable(queues: seq<Bytes>, lease: int) {
      && queues != [] && (forall i | 0 <= i < |queues| :: ValidQueueName(queues[i]))
      && engine.options.minLease <= lease <= engine.options.maxLease
    }

    ghost predicate InLine()
      reads this`waiters, this`blocked, this`parked
    {
      LinesOk(waiters, parked, blocked) && forall c | c in blocked :: Reservable(blocked[c].queues, blocked[c].lease)
    }

    /** The two wheels are different ones. */
    ghost predicate Separate()
      reads engine, engine.state
    {
      timeouts != engine.state.wheel
    }

    /** Each wait has its timer, pending or just fired. */
    ghost predicate Timed()
      reads this`blocked, this`firing, timeouts
    {
      timeouts.Valid() && (forall h | h in firing :: h !in timeouts.pending) &&
        TimeoutsOk(timeouts.pending + firing, blocked)
    }

    /** ... and none has just fired. */
    ghost predicate Quiet()
      reads this`blocked, this`firing, timeouts
    {
      Timed() && firing == map[]
    }

    ghost predicate Valid()
      reads this, timeouts, engine, engine.state, engine.state.wheel
    {
      engine.Valid() && Separate() && InLine() && Quiet() &&
        Awake(waiters, engine.state.queues, engine.state.readyNotifications)
    }

    constructor (engine: Engine, mono: nat)
      requires engine.Valid()
      ensures Valid() && this.engine == engine && blocked == map[] && resume == [] && handed == [] && timedOut == []
      ensures fresh(timeouts) && timeouts.now == mono
    {
      this.engine := engine;
      timeouts := new T.TimingWheel(mono);
      waiters, blocked, resume, handed, timedOut, parked, firing := map[], map[], [], [], [], [], map[];
      new;
      assert timeouts.pending + firing == map[];
    }

    /** A place in the line of each queue. */
    method Enlist(c: ConnId, b: Blocked)
      requires InLine() && c !in blocked && Reservable(b.queues, b.lease)
      requires forall i, j | 0 <= i < j < |b.queues| :: b.queues[i] != b.queues[j]
      modifies this`waiters, this`blocked, this`parked
      ensures InLine() && parked == old(parked) + [c] && blocked == old(blocked)[c := b]
      ensures AllJoined(old(waiters), waiters, b.queues, c)
    {
      hide LinesOk;
      var unique := b.queues;
      ghost var before := waiters;
      for i := 0 to |unique|
        invariant AllJoined(before, waiters, unique[..i], c) && parked == old(parked) && blocked == old(blocked)
      {
        JoinedNext(before, waiters, unique, i, c);
        waiters := waiters[unique[i] := LineOf(waiters, unique[i]) + [c]];
      }
      assert unique[..|unique|] == unique;
      ParkOk(before, waiters, parked, blocked, c, b);
      blocked := blocked[c := b];
      parked := parked + [c];
    }

    /** The timer of a wait that is about to begin. */
    method Begin(c: ConnId, queues: seq<Bytes>, lease: int, deadline: nat) returns (handle: T.TimerHandle)
      requires Quiet() && c !in blocked && |timeouts.pending| < LIMIT
      modifies timeouts
      ensures timeouts.Valid() && TimeoutsOk(timeouts.pending + firing, blocked[c := Blocked(queues, lease, handle)])
      ensures timeouts.pending == old(timeouts.pending)[handle := T.Timer(deadline, 0, c)] &&
              timeouts.now == old(timeouts.now)
    {
      hide T.TimingWheel.Valid, TimeoutsOk, T.TimingWheel.Retired;
      timeouts.HasRoom();
      ghost var pending := timeouts.pending;
      assert pending + firing == pending;
      handle := timeouts.Schedule(deadline, 0, c);
      assert timeouts.pending + firing == timeouts.pending;
      TimeoutAdded(pending, blocked, c, Blocked(queues, lease, handle), T.Timer(deadline, 0, c));
    }

    /** park(): a queue named twice does not hold two places in line, and the wait ends at the
        deadline. */
    method Park(c: ConnId, queues: seq<Bytes>, lease: int, deadline: nat)
      requires Valid() && c !in blocked && Reservable(queues, lease) && |timeouts.pending| < LIMIT
      requires forall q | q in queues :: !ReadyIn(engine.state.queues, q)
      modifies this`waiters, this`blocked, this`parked, timeouts
      ensures Valid() && parked == old(parked) + [c] && c in blocked && blocked == old(blocked)[c := blocked[c]]
      ensures blocked[c].lease == lease && FirstNamings(queues, blocked[c].queues)
      ensures timeouts.pending == old(timeouts.pending)[blocked[c].timeout := T.Timer(deadline, 0, c)] &&
              timeouts.now == old(timeouts.now)
      ensures old(AllServed(waiters, engine.state.queues)) ==> AllServed(waiters, engine.state.queues)
    {
      hide Engine.Valid, InLine, T.TimingWheel.Valid, TimeoutsOk, T.TimingWheel.Retired, Awake, AllServed, AllJoined,
           ReadyIn;
      var unique := Dedupe(queues);
      assert queues[0] in queues;
      forall i | 0 <= i < |unique| ensures ValidQueueName(unique[i]) { assert unique[i] in unique; }
      var handle := Begin(c, unique, lease, deadline);
      Enlist(c, Blocked(unique, lease, handle));
      NewInLine(old(waiters), waiters, engine.state.queues, engine.state.readyNotifications, unique, c);
    }

    /** Out of every line. */
    method Withdraw(c: ConnId)
      requires InLine() && c in blocked
      modifies this`waiters, this`blocked, this`parked
      ensures InLine() && parked == Dropped(old(parked), c) && blocked == old(blocked) - {c}
      ensures AllDeparted(old(waiters), waiters, old(blocked)[c].queues, c)
    {
      hide LinesOk;
      ghost var before := waiters;
      var queues := blocked[c].queues;
      for i := 0 to |queues|
        invariant AllDeparted(before, waiters, queues[..i], c) && parked == old(parked) && blocked == old(blocked)
      {
        ghost var was := waiters;
        if queues[i] in waiters { waiters := waiters[queues[i] := Dropped(waiters[queues[i]], c)]; }
        DepartedNext(before, was, waiters, queues, i, c);
      }
      assert queues[..|queues|] == queues;
      UnparkOk(before, waiters, parked, blocked, c);
      blocked := blocked - {c};
      parked := Dropped(parked, c);
    }

    /** unpark(): out of every line, and the timer is cancelled unless it has fired. */
    method Unpark(c: ConnId)
      requires InLine() && Timed() && c in blocked
      modifies this`waiters, this`blocked, this`parked, this`firing, timeouts
      ensures InLine() && Timed() && parked == Dropped(old(parked), c) && blocked == old(blocked) - {c}
      ensures timeouts.now == old(timeouts.now) && timeouts.pending == old(timeouts.pending) - {old(blocked)[c].timeout}
      ensures firing == old(firing) - {old(blocked)[c].timeout}
      ensures AllDeparted(old(waiters), waiters, old(blocked)[c].queues, c)
    {
      hide InLine, TimeoutsOk, T.TimingWheel.Valid, T.TimingWheel.Retired, AllDeparted;
      var handle := blocked[c].timeout;
      TimeoutDropped(timeouts.pending + firing, blocked, c);
      Withdraw(c);
      var cancelled := timeouts.Cancel(handle);
      firing := firing - {handle};
      assert timeouts.pending + firing == (old(timeouts.pending) + old(firing)) - {handle};
    }

    /** A RESERVE for a parked connection one of whose queues has a ready job: it is never
        refused and never comes back empty. */
    method TryReserve(b: Blocked, ghost q: Bytes) returns (r: Reservation)
      requires engine.Valid() && engine.state.readyNotifications == [] && Reservable(b.queues, b.lease) &&
               q in b.queues && ReadyIn(engine.state.queues, q)
      modifies engine`log, engine`lastLsn, engine`events, engine.state, engine.state.wheel
      ensures engine.Valid() && engine.state.readyNotifications == [] && engine.Kept() &&
              engine.state.wheel == old(engine.state.wheel)
      ensures forall q | ReadyIn(engine.state.queues, q) :: ReadyIn(old(engine.state.queues), q)
      ensures r.queue in b.queues && engine.state.wallNow == old(engine.state.wallNow) &&
              engine.log == old(engine.log) + [LeaseOf(r, engine.state.wallNow)]
      ensures r.id in old(engine.state.jobs) &&
              Granted(r, old(engine.state.jobs)[r.id].job, r.id, old(engine.state.nextToken),
                      engine.state.wallNow + b.lease)
      ensures exists i :: 0 <= i < |b.queues| && old(engine.FirstReady(b.queues[i], r.id)) && r.queue == b.queues[i]
                          && forall j | 0 <= j < i :: old(engine.NoneReady(b.queues[j]))
    {
      hide Engine.Valid, Engine.Orderly, Engine.NoneReady, Announced, State.OnTime, AllSharp, Apply, Applies;
      SomeReady(q);
      ghost var i :| 0 <= i < |b.queues| && b.queues[i] == q;
      ghost var before := engine.state.queues;
      var answer := engine.Reserve(b.queues, b.lease);
      FewerReadyIn(before, engine.state.queues);
      return answer.value.value;
    }

    /** Replies, log and waiting connections. */
    function Books(): Desk
      reads this, engine
    {
      Desk(handed, engine.log, blocked, resume)
    }

    /** The hand-over to a connection in a line. */
    method Hand(q: Bytes, c: ConnId) returns (ghost h: HandOver)
      requires engine.Valid() && Separate() && InLine() && Quiet() && engine.state.readyNotifications == [] &&
               ReadyIn(engine.state.queues, q)
      requires c in LineOf(waiters, q) && c in blocked
      modifies this, timeouts, engine`log, engine`lastLsn, engine`events, engine.state, engine.state.wheel
      ensures engine.Valid() && Separate() && InLine() && Quiet() && engine.state.readyNotifications == [] &&
              engine.Kept()
      ensures Shrunk(old(waiters), old(engine.state.queues), waiters, engine.state.queues)
      ensures LineOf(waiters, q) == Dropped(old(LineOf(waiters, q)), c) && engine.state.wheel == old(engine.state.wheel)
      ensures resume == old(resume) + [c] && parked == Dropped(old(parked), c) &&
              engine.state.wallNow == old(engine.state.wallNow)
      ensures h.conn == c && Served(old(Books()), Books(), [h], engine.state.wallNow)
      ensures var r, queues := h.reservation, old(blocked)[c].queues;
              exists i :: 0 <= i < |queues| && old(engine.FirstReady(queues[i], r.id)) && r.queue == queues[i]
                          && forall j | 0 <= j < i :: old(engine.NoneReady(queues[j]))
    {
      hide Engine.Valid, Engine.Orderly, InLine, Timed, ReadyIn, Served, AllDeparted, Engine.FirstReady,
           Engine.NoneReady;
      InLineMeans(q, c);
      var b := blocked[c];
      var r := TryReserve(b, q);
      Unpark(c);
      FewerInLine(old(waiters), waiters, b.queues, c);
      resume := resume + [c];
      handed := handed + [HandOver(c, r)];
      h := HandOver(c, r);
      ServedOne(old(Books()), Books(), h, engine.state.wallNow);
    }

    /** One announced queue: its jobs go to its line, longest waiting first, until one of
        the two is empty. */
    method ServeQueue(q: Bytes) returns (ghost hs: seq<HandOver>)
      requires engine.Valid() && Separate() && InLine() && Quiet() && engine.state.readyNotifications == []
      modifies this, timeouts, engine`log, engine`lastLsn, engine`events, engine.state, engine.state.wheel
      ensures engine.Valid() && Separate() && InLine() && Quiet() && engine.state.readyNotifications == [] &&
              engine.Kept()
      ensures engine.state.wheel == old(engine.state.wheel) && engine.state.wallNow == old(engine.state.wallNow)
      ensures Shrunk(old(waiters), old(engine.state.queues), waiters, engine.state.queues)
      ensures !(ReadyIn(engine.state.queues, q) && LineOf(waiters, q) != [])
      ensures Served(old(Books()), Books(), hs, engine.state.wallNow) &&
              old(LineOf(waiters, q)) == Conns(hs) + LineOf(waiters, q)
    {
      hide Engine.Valid, Engine.Orderly, InLine, Quiet, Served, Books, AllApart;
      hs := [];
      ServedNone(Books(), engine.state.wallNow);
      while LineOf(waiters, q) != [] && q in engine.state.queues && engine.state.queues[q].ready.heap != []
        invariant engine.Valid() && Separate() && InLine() && Quiet() && engine.state.readyNotifications == [] &&
                  engine.Kept()
        invariant engine.state.wheel == old(engine.state.wheel) && engine.state.wallNow == old(engine.state.wallNow)
        invariant Shrunk(old(waiters), old(engine.state.queues), waiters, engine.state.queues)
        invariant Served(old(Books()), Books(), hs, engine.state.wallNow) &&
                  old(LineOf(waiters, q)) == Conns(hs) + LineOf(waiters, q)
        decreases |LineOf(waiters, q)|
      {
        ghost var line, books := LineOf(waiters, q), Books();
        var c := LineOf(waiters, q)[0];
        assert c in line;
        NoDoubles(q);
        InLineMeans(q, c);
        DroppedHead(line);
        ghost var h := Hand(q, c);
        ServedThrough(old(Books()), books, Books(), hs, [h], engine.state.wallNow);
        NextInLine(hs, h, line);
        hs := hs + [h];
      }
    }

    /** Hands newly ready jobs to parked RESERVEs. Afterwards nobody waits on a queue that
        has a ready job. */
    method ServeReadyWaiters() returns (ghost hs: seq<HandOver>)
      requires Valid()
      modifies this, timeouts, engine`log, engine`lastLsn, engine`events, engine.state, engine.state.wheel
      ensures Valid() && engine.state.readyNotifications == [] && AllServed(waiters, engine.state.queues)
      ensures engine.Kept() && engine.state.wheel == old(engine.state.wheel) &&
              engine.state.wallNow == old(engine.state.wallNow)
      ensures Served(old(Books()), Books(), hs, engine.state.wallNow)
    {
      hide Engine.Valid, Engine.Orderly, InLine, Quiet, Awake, Shrunk, Served, Books;
      hs := [];
      ServedNone(Books(), engine.state.wallNow);
      var names := Collect();
      for i := 0 to |names|
        invariant engine.Valid() && Separate() && InLine() && Quiet() && engine.state.readyNotifications == [] &&
                  engine.Kept()
        invariant engine.state.wheel == old(engine.state.wheel) && engine.state.wallNow == old(engine.state.wallNow)
        invariant Awake(waiters, engine.state.queues, names[i..])
        invariant Served(old(Books()), Books(), hs, engine.state.wallNow)
      {
        ghost var w, q, books := waiters, engine.state.queues, Books();
        ghost var more := ServeQueue(names[i]);
        OneServed(w, q, waiters, engine.state.queues, names, i);
        ServedThrough(old(Books()), books, Books(), hs, more, engine.state.wallNow);
        hs := hs + more;
      }
      NobodyWaits(waiters, engine.state.queues, names);
    }

    /** Takes the announcements; the engine does not depend on them. */
    method Collect() returns (names: seq<Bytes>)
      requires Valid()
      modifies engine.state`readyNotifications
      ensures engine.Valid() && Separate() && InLine() && Quiet() && engine.state.readyNotifications == [] &&
              Awake(waiters, engine.state.queues, names[0..])
      ensures engine.Kept()
    {
      hide State.Core, Sound, Keyed, RefsOk, AllCanRun, InLine, Quiet, Awake;
      names := engine.state.TakeReadyNotifications();
      assert names[0..] == names;
    }

    // --- the server's steps ---------------------------------------------------------------------------

    /** One wait ends; nobody else is worse off. */
    method Release(c: ConnId)
      requires engine.Valid() && Separate() && InLine() && Timed() && c in blocked
      requires Awake(waiters, engine.state.queues, engine.state.readyNotifications)
      modifies this`waiters, this`blocked, this`parked, this`firing, timeouts
      ensures engine.Valid() && Separate() && InLine() && Timed() &&
              Awake(waiters, engine.state.queues, engine.state.readyNotifications)
      ensures parked == Dropped(old(parked), c) && blocked == old(blocked) - {c}
      ensures timeouts.now == old(timeouts.now) && timeouts.pending == old(timeouts.pending) - {old(blocked)[c].timeout}
      ensures firing == old(firing) - {old(blocked)[c].timeout}
      ensures old(AllServed(waiters, engine.state.queues)) ==> AllServed(waiters, engine.state.queues)
    {
      hide Engine.Valid, InLine, Timed;
      ghost var before := waiters;
      Unpark(c);
      FewerInLine(before, waiters, old(blocked)[c].queues, c);
      StillAwake(before, waiters, engine.state.queues, engine.state.readyNotifications);
    }

    /** A parked connection closes. */
    method Leave(c: ConnId)
      requires Valid() && c in blocked
      modifies this`waiters, this`blocked, this`parked, this`firing, timeouts
      ensures Valid() && parked == Dropped(old(parked), c) && blocked == old(blocked) - {c}
      ensures timeouts.now == old(timeouts.now) && timeouts.pending == old(timeouts.pending) - {old(blocked)[c].timeout}
      ensures old(AllServed(waiters, engine.state.queues)) ==> AllServed(waiters, engine.state.queues)
    {
      hide Engine.Valid, InLine, Timed, Awake, AllServed;
      Release(c);
    }

    /** The loop over the timers that fired: each ends the wait of its connection. */
    method ReplyNull(fired: seq<T.TimerEvent>)
      requires engine.Valid() && Separate() && InLine() && Timed() && Firing(fired, 0, firing)
      requires Awake(waiters, engine.state.queues, engine.state.readyNotifications)
      modifies this, timeouts
      ensures Valid() && timeouts.pending == old(timeouts.pending) && timeouts.now == old(timeouts.now)
      ensures blocked == old(blocked) - (set c | c in Ids(fired))
      ensures timedOut == old(timedOut) + Ids(fired) && resume == old(resume) + Ids(fired) && handed == old(handed)
      ensures old(AllServed(waiters, engine.state.queues)) ==> AllServed(waiters, engine.state.queues)
    {
      hide Engine.Valid, InLine, TimeoutsOk, T.TimingWheel.Valid, Firing, Awake, AllServed;
      ghost var gone := [];
      for k := 0 to |fired|
        invariant engine.Valid() && Separate() && InLine() && Timed() && Firing(fired, k, firing)
        invariant Awake(waiters, engine.state.queues, engine.state.readyNotifications)
        invariant timeouts.pending == old(timeouts.pending) && timeouts.now == old(timeouts.now)
        invariant gone == Ids(fired[..k]) && blocked == old(blocked) - (set c | c in gone)
        invariant timedOut == old(timedOut) + gone && resume == old(resume) + gone && handed == old(handed)
        invariant old(AllServed(waiters, engine.state.queues)) ==> AllServed(waiters, engine.state.queues)
      {
        var c := fired[k].timer.id;
        StillFiring(fired, k, firing);
        OwnerOf(timeouts.pending + firing, blocked, fired[k].handle);
        if c in blocked && blocked[c].timeout == fired[k].handle {
          Release(c);
          timedOut := timedOut + [c];
          resume := resume + [c];
        }
        gone := gone + [c];
      }
      assert fired[..|fired|] == fired;
      NoneFiring(fired, firing);
    }

    /** expire_reserve_timeouts(): exactly the connections whose wait is over get a null reply
        and leave every line, in the order of their deadlines. */
    method ExpireTimeouts(mono: nat) returns (ghost gone: seq<ConnId>)
      requires Valid()
      modifies this, timeouts
      ensures Valid() && timeouts.now == T.Max(old(timeouts.now), mono)
      ensures ExactlyDue(old(timeouts.pending), old(blocked), timeouts.now, gone)
      ensures DueInOrder(old(timeouts.pending), old(blocked), old(timeouts.now), gone)
      ensures timedOut == old(timedOut) + gone && resume == old(resume) + gone && handed == old(handed)
      ensures blocked == old(blocked) - (set c | c in gone)
      ensures old(AllServed(waiters, engine.state.queues)) ==> AllServed(waiters, engine.state.queues)
    {
      hide Engine.Valid, InLine, TimeoutsOk, T.TimingWheel.Valid, T.TimingWheel.Retired, T.Accounted, T.InOrder,
           T.AllBy, Firing, Awake;
      hide AllServed, ExactlyDue, DueInOrder;
      ghost var before := timeouts.pending;
      assert before + firing == before;
      var fired := timeouts.Advance(mono);
      FiredIsDue(before, timeouts.pending, fired, blocked, old(timeouts.now), timeouts.now);
      FiringFrom(before, timeouts.pending, fired);
      firing := before - timeouts.pending.Keys;
      ReplyNull(fired);
      gone := Ids(fired);
    }

    /** RESERVE with a timeout: a job now, an error now, or a place in line. */
    method ReserveOrPark(c: ConnId, queues: seq<Bytes>, lease: int, timeout: nat, mono: nat)
      returns (answer: Option<Result<Option<Reservation>>>)
      requires Valid() && c !in blocked && |timeouts.pending| < LIMIT
      modifies this, timeouts, engine`log, engine`lastLsn, engine`events, engine.state, engine.state.wheel
      ensures Valid() && engine.Kept()
      ensures answer.None? ==>
              timeout > 0 && parked == old(parked) + [c] && c in blocked && blocked == old(blocked)[c := blocked[c]] &&
                blocked[c].lease == lease && FirstNamings(queues, blocked[c].queues)
      ensures answer.None? ==>
              timeouts.pending == old(timeouts.pending)[blocked[c].timeout := T.Timer(mono + timeout, 0, c)]
      ensures answer.Some? ==> blocked == old(blocked) && parked == old(parked)
      ensures answer.Some? && answer.value.Refusal? <==> !Reservable(queues, lease)
      ensures var r := if answer.Some? && answer.value.Answer? then answer.value.value else None;
              if r.Some? then
                && r.value.queue in queues && r.value.leaseExpiresAt == engine.state.wallNow + lease
                && engine.log == old(engine.log) + [LeaseOf(r.value, engine.state.wallNow)]
              else engine.log == old(engine.log)
      ensures answer == Some(Answer(None)) ==> timeout == 0
      ensures answer == None || answer == Some(Answer(None)) ==>
              forall q | q in queues :: !ReadyIn(engine.state.queues, q)
      ensures handed == old(handed) && resume == old(resume) && timedOut == old(timedOut) &&
              engine.state.wheel == old(engine.state.wheel)
      ensures answer.None? && old(AllServed(waiters, engine.state.queues)) ==> AllServed(waiters, engine.state.queues)
    {
      hide InLine, Quiet, Awake, Engine.NoneReady, Engine.FirstReady, Announced, Engine.Valid, State.OnTime, AllSharp,
           Apply, Applies, FirstNamings;
      ghost var before, notes := engine.state.queues, engine.state.readyNotifications;
      var r := engine.Reserve(queues, lease);
      if r.Refusal? { return Some(r); }
      if r.value.Some? {
        HeardMore(notes, engine.state.queues, engine.state.readyNotifications);
        StaysAwake(waiters, before, notes, engine.state.queues, engine.state.readyNotifications);
        return Some(r);
      }
      forall q | q in queues ensures !ReadyIn(engine.state.queues, q) {
        var i :| 0 <= i < |queues| && queues[i] == q;
        if ReadyIn(engine.state.queues, q) { SomeReady(q); }
      }
      if timeout == 0 { return Some(r); }
      Park(c, queues, lease, mono + timeout);
      return None;
    }

    /** execute() of a RESERVE: an answer is followed by the hand-over, a place in line is not. */
    method ReserveAndServe(c: ConnId, queues: seq<Bytes>, lease: int, timeout: nat, mono: nat)
      returns (answer: Option<Result<Option<Reservation>>>, ghost logged: seq<Record>, ghost hs: seq<HandOver>)
      requires Valid() && c !in blocked && |timeouts.pending| < LIMIT
      modifies this, timeouts, engine`log, engine`lastLsn, engine`events, engine.state, engine.state.wheel
      ensures Valid() && engine.Kept()
      ensures answer.Some? || old(AllServed(waiters, engine.state.queues)) ==> AllServed(waiters, engine.state.queues)
      ensures answer.None? ==>
              timeout > 0 && hs == [] && handed == old(handed) && c in blocked &&
                blocked == old(blocked)[c := blocked[c]] && blocked[c].lease == lease &&
                FirstNamings(queues, blocked[c].queues)
      ensures answer.None? ==>
              timeouts.pending == old(timeouts.pending)[blocked[c].timeout := T.Timer(mono + timeout, 0, c)]
      ensures answer.Some? ==> Served(old(Books()).(log := old(engine.log) + logged), Books(), hs, engine.state.wallNow)
      ensures answer.Some? && answer.value.Refusal? <==> !Reservable(queues, lease)
      ensures logged == if answer.Some? && answer.value.Answer? && answer.value.value.Some?
                        then [LeaseOf(answer.value.value.value, engine.state.wallNow)] else []
    {
      hide InLine, Quiet, Awake, Engine.Valid, Engine.Orderly, AllServed, Served, ReadyIn, FirstNamings;
      answer := ReserveOrPark(c, queues, lease, timeout, mono);
      logged := engine.log[|old(engine.log)|..];
      hs := [];
      if answer.Some? {
        assert Books() == old(Books()).(log := old(engine.log) + logged);
        hs := ServeReadyWaiters();
      }
    }

    /** ENQUEUE, and the hand-over it may lead to. */
    method EnqueueAndServe(request: EnqueueRequest, full: bool) returns (r: Result<Enqueued>, ghost hs: seq<HandOver>)
      requires Valid() && |engine.state.jobs| < LIMIT
      modifies this, timeouts, engine`log, engine`lastLsn, engine`events, engine.state, engine.state.wheel
      ensures Valid() && AllServed(waiters, engine.state.queues) && engine.Kept()
      ensures old(engine.RequestError(request)).Some? ==> r == Refusal(old(engine.RequestError(request)).value)
      ensures var created := r.Answer? && r.value.created;
              var logged := old(engine.log) + if created then [old(engine.NewRecord(request))] else [];
              (created ==> r.value.id == old(engine.state.nextJobId)) &&
                Served(old(Books()).(log := logged), Books(), hs, engine.state.wallNow)
    {
      hide InLine, Quiet, Awake, Announced, Engine.Valid, Engine.Orderly, State.OnTime, AllSharp, Apply, Applies,
           KeyIsFree, Engine.RequestError, Engine.HasLiveKey;
      ghost var before, notes := engine.state.queues, engine.state.readyNotifications;
      r := engine.Enqueue(request, full);
      if r.Answer? && r.value.created {
        HeardMore(notes, engine.state.queues, engine.state.readyNotifications);
        StaysAwake(waiters, before, notes, engine.state.queues, engine.state.readyNotifications);
      }
      hs := ServeReadyWaiters();
    }

    /** The hand-over after any command: whatever it made ready has been announced. */
    method Settle(ghost before: map<Bytes, Queue>, ghost notes: seq<Bytes>) returns (ghost hs: seq<HandOver>)
      requires engine.Valid() && Separate() && InLine() && Quiet() && Awake(waiters, before, notes)
      requires Announced(before, engine.state.queues, engine.state.readyNotifications)
      requires forall q | q in notes :: q in engine.state.readyNotifications
      modifies this, timeouts, engine`log, engine`lastLsn, engine`events, engine.state, engine.state.wheel
      ensures Valid() && AllServed(waiters, engine.state.queues)
      ensures engine.Kept() && engine.state.wheel == old(engine.state.wheel)
      ensures engine.state.wallNow == old(engine.state.wallNow) &&
              Served(old(Books()), Books(), hs, engine.state.wallNow)
    {
      hide InLine, Quiet, Awake, Announced, Engine.Valid, Engine.Orderly, AllServed, Served;
      HeardMore(notes, engine.state.queues, engine.state.readyNotifications);
      StaysAwake(waiters, before, notes, engine.state.queues, engine.state.readyNotifications);
      hs := ServeReadyWaiters();
    }

    /** ACK. */
    method AckAndServe(id: JobId, token: Token)
      returns (error: Option<Error>, ghost logged: seq<Record>, ghost hs: seq<HandOver>)
      requires Valid()
      modifies this, timeouts, engine`log, engine`lastLsn, engine`events, engine.state, engine.state.wheel
      ensures Valid() && AllServed(waiters, engine.state.queues) && engine.Kept()
      ensures Served(old(Books()).(log := old(engine.log) + logged), Books(), hs, engine.state.wallNow)
      ensures var d := old(engine.state.Persistent());
              && (error.None? <==>
                  IsLeased(d, id, token) || (id in d.jobs && d.jobs[id].status.Succeeded? && d.jobs[id].token == token))
              && logged == if IsLeased(d, id, token) then [JobSucceeded(id, token, engine.state.wallNow)] else []
    {
      hide InLine, Quiet, Awake, Announced, Engine.Valid, Engine.Orderly, State.OnTime, AllSharp, Apply, Applies,
           AllServed, Served;
      ghost var before, notes := engine.state.queues, engine.state.readyNotifications;
      AnnouncedSame(before, notes);
      error := engine.Ack(id, token);
      logged := engine.log[|old(engine.log)|..];
      assert Books() == old(Books()).(log := old(engine.log) + logged);
      hs := Settle(before, notes);
    }

    /** HEARTBEAT. */
    method HeartbeatAndServe(id: JobId, token: Token, lease: int)
      returns (r: Result<Time>, ghost logged: seq<Record>, ghost hs: seq<HandOver>)
      requires Valid()
      modifies this, timeouts, engine`log, engine`lastLsn, engine`events, engine.state, engine.state.wheel
      ensures Valid() && AllServed(waiters, engine.state.queues) && engine.Kept()
      ensures Served(old(Books()).(log := old(engine.log) + logged), Books(), hs, engine.state.wallNow)
      ensures r.Answer? <==>
                engine.options.minLease <= lease <= engine.options.maxLease &&
                  IsLeased(old(engine.state.Persistent()), id, token)
      ensures logged == if r.Answer? then [LeaseExtended(id, token, r.value, engine.state.wallNow)] else []
      ensures r.Answer? ==> r.value == engine.state.wallNow + lease
    {
      hide InLine, Quiet, Awake, Announced, Engine.Valid, Engine.Orderly, State.OnTime, AllSharp, Apply, Applies,
           AllServed, Served;
      ghost var before, notes := engine.state.queues, engine.state.readyNotifications;
      AnnouncedSame(before, notes);
      r := engine.Heartbeat(id, token, lease);
      logged := engine.log[|old(engine.log)|..];
      assert Books() == old(Books()).(log := old(engine.log) + logged);
      hs := Settle(before, notes);
    }

    /** FAIL, whose retry may be ready at once. */
    method FailAndServe(request: FailRequest)
      returns (r: Result<Failed>, ghost logged: seq<Record>, ghost hs: seq<HandOver>)
      requires Valid()
      modifies this, timeouts, engine`log, engine`lastLsn, engine`events, engine.state, engine.state.wheel
      ensures Valid() && AllServed(waiters, engine.state.queues) && engine.Kept()
      ensures Served(old(Books()).(log := old(engine.log) + logged), Books(), hs, engine.state.wallNow)
      ensures r.Answer? <==>
              (request.retryIn.Some? ==> 0 <= request.retryIn.value <= engine.options.maxDelay) &&
                IsLeased(old(engine.state.Persistent()), request.id, request.token)
      ensures if r.Answer? then
                |logged| == 1 && IsFailure(logged[0], request, old(engine.state.jobs)[request.id].job, r.value,
                                           engine.state.wallNow)
              else logged == []
    {
      hide InLine, Quiet, Awake, Announced, Engine.Valid, Engine.Orderly, State.OnTime, AllSharp, Apply, Applies,
           AllServed, Served;
      ghost var before, notes := engine.state.queues, engine.state.readyNotifications;
      AnnouncedSame(before, notes);
      r := engine.Fail(request);
      logged := engine.log[|old(engine.log)|..];
      assert Books() == old(Books()).(log := old(engine.log) + logged);
      hs := Settle(before, notes);
    }

    /** CANCEL. */
    method CancelAndServe(id: JobId) returns (error: Option<Error>, ghost logged: seq<Record>, ghost hs: seq<HandOver>)
      requires Valid()
      modifies this, timeouts, engine`log, engine`lastLsn, engine`events, engine.state, engine.state.wheel
      ensures Valid() && AllServed(waiters, engine.state.queues) && engine.Kept()
      ensures Served(old(Books()).(log := old(engine.log) + logged), Books(), hs, engine.state.wallNow)
      ensures var d := old(engine.state.Persistent()); error.None? <==> id in d.jobs && !Terminal(d.jobs[id].status)
      ensures logged == if error.None? then [JobCancelled(id, engine.state.wallNow)] else []
    {
      hide InLine, Quiet, Awake, Announced, Engine.Valid, Engine.Orderly, State.OnTime, AllSharp, Apply, Applies,
           AllServed, Served;
      ghost var before, notes := engine.state.queues, engine.state.readyNotifications;
      AnnouncedSame(before, notes);
      error := engine.Cancel(id);
      logged := engine.log[|old(engine.log)|..];
      assert Books() == old(Books()).(log := old(engine.log) + logged);
      hs := Settle(before, notes);
    }

    /** DLQ.RETRY of one job, which is ready at once. */
    method DlqRetryAndServe(id: JobId)
      returns (error: Option<Error>, ghost logged: seq<Record>, ghost hs: seq<HandOver>)
      requires Valid()
      modifies this, timeouts, engine`log, engine`lastLsn, engine`events, engine.state, engine.state.wheel
      ensures Valid() && AllServed(waiters, engine.state.queues) && engine.Kept()
      ensures Served(old(Books()).(log := old(engine.log) + logged), Books(), hs, engine.state.wallNow)
      ensures var d := old(engine.state.Persistent()); error.None? <==> id in d.jobs && d.jobs[id].status.Dead?
      ensures logged == if error.None? then [DeadJobRetried(id, engine.state.wallNow, engine.state.wallNow)] else []
    {
      hide InLine, Quiet, Awake, Announced, Engine.Valid, Engine.Orderly, State.OnTime, AllSharp, Apply, Applies,
           AllServed, Served;
      ghost var before, notes := engine.state.queues, engine.state.readyNotifications;
      AnnouncedSame(before, notes);
      error := engine.DlqRetry(id);
      logged := engine.log[|old(engine.log)|..];
      assert Books() == old(Books()).(log := old(engine.log) + logged);
      hs := Settle(before, notes);
    }

    /** DLQ.PURGE of one job. */
    method DlqPurgeAndServe(id: JobId)
      returns (error: Option<Error>, ghost logged: seq<Record>, ghost hs: seq<HandOver>)
      requires Valid()
      modifies this, timeouts, engine`log, engine`lastLsn, engine`events, engine.state, engine.state.wheel
      ensures Valid() && AllServed(waiters, engine.state.queues) && engine.Kept()
      ensures Served(old(Books()).(log := old(engine.log) + logged), Books(), hs, engine.state.wallNow)
      ensures var d := old(engine.state.Persistent()); error.None? <==> id in d.jobs && d.jobs[id].status.Dead?
      ensures logged == if error.None? then [JobsPurged([id])] else []
    {
      hide InLine, Quiet, Awake, Announced, Engine.Valid, Engine.Orderly, State.OnTime, AllSharp, Apply, Applies,
           AllServed, Served;
      ghost var before, notes := engine.state.queues, engine.state.readyNotifications;
      AnnouncedSame(before, notes);
      error := engine.DlqPurge(id);
      logged := engine.log[|old(engine.log)|..];
      assert Books() == old(Books()).(log := old(engine.log) + logged);
      hs := Settle(before, notes);
    }

    /** A dead job of the queue. */
    ghost predicate DeadIn(q: Bytes, id: JobId)
      reads engine, engine.state
    {
      id in engine.state.jobs && engine.state.jobs[id].job.queue == q && engine.state.jobs[id].job.status.Dead?
    }

    /** DLQ.RETRY ALL: every dead job of the queue is ready at once. */
    method DlqRetryAllAndServe(q: Bytes)
      returns (r: Result<nat>, ghost ids: seq<JobId>, ghost logged: seq<Record>, ghost hs: seq<HandOver>)
      requires Valid()
      modifies this, timeouts, engine`log, engine`lastLsn, engine`events, engine.state, engine.state.wheel
      ensures Valid() && AllServed(waiters, engine.state.queues) && engine.Kept()
      ensures Served(old(Books()).(log := old(engine.log) + logged), Books(), hs, engine.state.wallNow)
      ensures (r.Answer? <==> ValidQueueName(q)) && logged ==
              (if r.Answer? then Retries(ids, engine.state.wallNow) else [])
      ensures r.Answer? ==> r.value == |ids| && forall id :: id in ids <==> old(DeadIn(q, id))
    {
      hide InLine, Quiet, Awake, Announced, Engine.Valid, Engine.Orderly, State.OnTime, AllSharp, Apply, Applies,
           AllServed, Served;
      ghost var before, notes := engine.state.queues, engine.state.readyNotifications;
      AnnouncedSame(before, notes);
      r, ids := engine.DlqRetryAll(q);
      logged := engine.log[|old(engine.log)|..];
      assert Books() == old(Books()).(log := old(engine.log) + logged);
      hs := Settle(before, notes);
    }

    /** DLQ.PURGE ALL. */
    method DlqPurgeAllAndServe(q: Bytes) returns (r: Result<nat>, ghost logged: seq<Record>, ghost hs: seq<HandOver>)
      requires Valid()
      modifies this, timeouts, engine`log, engine`lastLsn, engine`events, engine.state, engine.state.wheel
      ensures Valid() && AllServed(waiters, engine.state.queues) && engine.Kept()
      ensures Served(old(Books()).(log := old(engine.log) + logged), Books(), hs, engine.state.wallNow)
      ensures (r.Answer? <==> ValidQueueName(q)) && OnlyPurges(old(engine.log), old(engine.log) + logged)
      ensures r.Answer? ==>
              r.value == |PurgedIds(logged)| && forall id :: id in PurgedIds(logged) <==> old(DeadIn(q, id))
      ensures r.Refusal? ==> logged == []
    {
      hide InLine, Quiet, Awake, Announced, Engine.Valid, Engine.Orderly, State.OnTime, AllSharp, Apply, Applies,
           AllServed, Served, PurgedIds;
      ghost var before, notes := engine.state.queues, engine.state.readyNotifications;
      AnnouncedSame(before, notes);
      r := engine.DlqPurgeAll(q);
      logged := engine.log[|old(engine.log)|..];
      assert engine.log == old(engine.log) + logged;
      hide OnlyPurges;
      assert Books() == old(Books()).(log := old(engine.log) + logged);
      hs := Settle(before, notes);
    }

    /** The tick, and the hand-over it may lead to: also after a clock jump, which makes
        every index anew. */
    method TickAndServe(wall: Time, mono: nat) returns (ghost ended: seq<Record>, ghost hs: seq<HandOver>)
      requires Valid()
      modifies this, timeouts, engine, engine.state, engine.state.wheel
      ensures Valid() && AllServed(waiters, engine.state.queues)
      ensures OnlyExpiries(old(engine.log), old(engine.log) + ended, old(engine.state.jobs), wall)
      ensures Served(old(Books()).(log := old(engine.log) + ended), Books(), hs, wall)
      ensures old(engine.Orderly()) && old(engine.state.wallNow) <= wall ==> engine.Orderly()
      ensures (old(engine.state.OnTime({})) && old(engine.state.wallNow) <= wall &&
               wall - mono == old(engine.state.wallNow) - old(engine.state.monoNow)) ||
              old(engine.JumpsTo(wall, mono)) ==>
                && engine.state.OnTime({}) && engine.state.Sharp()
                && (engine.options.minLease > 0 ==> engine.LeasesInTime())
    {
      hide InLine, Quiet, Awake, Announced, Heard, Engine.Valid, State.OnTime, AllSharp, OnlyExpiries, Engine.Orderly,
           NoneOverdue;
      ghost var before, notes := engine.state.queues, engine.state.readyNotifications;
      engine.Tick(wall, mono);
      Longer(old(engine.log), engine.log, old(engine.state.jobs), wall);
      ended := engine.log[|old(engine.log)|..];
      StaysAwake(waiters, before, notes, engine.state.queues, engine.state.readyNotifications);
      hs := ServeReadyWaiters();
    }

    lemma InLineMeans(q: Bytes, c: ConnId)
      requires InLine() && c in LineOf(waiters, q)
      ensures c in blocked && q in blocked[c].queues && Reservable(blocked[c].queues, blocked[c].lease) && q in waiters
    {
      assert LineOk(waiters, parked, blocked, q);
      NamedMembers(parked, blocked, q, c);
    }

    lemma NoDoubles(q: Bytes)
      requires InLine()
      ensures AllApart(LineOf(waiters, q))
    {
      assert LineOk(waiters, parked, blocked, q);
      NamedDistinct(parked, blocked, q);
    }

    lemma SomeReady(q: Bytes)
      requires engine.Valid() && ReadyIn(engine.state.queues, q)
      ensures !engine.NoneReady(q)
    {
      engine.TopOfHeap(q);
    }
  }

  lemma NextInLine(hs: seq<HandOver>, h: HandOver, line: seq<ConnId>)
    requires line != [] && h.conn == line[0]
    ensures Conns(hs) + line == Conns(hs + [h]) + line[1..]
  {
  }

  lemma Longer(before: seq<Record>, log: seq<Record>, was: map<JobId, LiveJob>, now: Time)
    requires OnlyExpiries(before, log, was, now)
    ensures before <= log && log == before + log[|before|..]
  {
  }

  lemma HeardMore(notes: seq<Bytes>, queues: map<Bytes, Queue>, notes': seq<Bytes>)
    requires forall q | q in notes :: q in notes'
    ensures Heard(notes, queues, notes')
  {
  }

  lemma StillAwake(waiters: map<Bytes, seq<ConnId>>, waiters': map<Bytes, seq<ConnId>>, queues: map<Bytes, Queue>,
                   notes: seq<Bytes>)
    requires Awake(waiters, queues, notes) && forall q | LineOf(waiters', q) != [] :: LineOf(waiters, q) != []
    ensures Awake(waiters', queues, notes)
  {
    forall q ensures AwakeAt(waiters', queues, notes, q) { assert AwakeAt(waiters, queues, notes, q); }
  }

  lemma OneServed(waiters: map<Bytes, seq<ConnId>>, queues: map<Bytes, Queue>, waiters': map<Bytes, seq<ConnId>>,
                  queues': map<Bytes, Queue>, names: seq<Bytes>, i: nat)
    requires i < |names| && Awake(waiters, queues, names[i..]) && Shrunk(waiters, queues, waiters', queues')
    requires !(ReadyIn(queues', names[i]) && LineOf(waiters', names[i]) != [])
    ensures Awake(waiters', queues', names[i + 1..])
  {
    var some, rest := names[i..], names[i + 1..];
    assert some == [names[i]] + rest;
    forall q ensures AwakeAt(waiters', queues', rest, q) { assert AwakeAt(waiters, queues, some, q); }
  }

  lemma NobodyWaits(waiters: map<Bytes, seq<ConnId>>, queues: map<Bytes, Queue>, names: seq<Bytes>)
    requires Awake(waiters, queues, names[|names|..])
    ensures AllServed(waiters, queues) && Awake(waiters, queues, [])
  {
    var none := names[|names|..];
    assert none == [];
    forall q | ReadyIn(queues, q) ensures LineOf(waiters, q) == [] { assert AwakeAt(waiters, queues, none, q); }
  }

  lemma FewerReadyIn(before: map<Bytes, Queue>, queues: map<Bytes, Queue>)
    requires Announced(before, queues, [])
    ensures forall q | ReadyIn(queues, q) :: ReadyIn(before, q)
  {
    forall q | ReadyIn(queues, q) ensures ReadyIn(before, q) {
      assert AnnouncedAt(before, queues, [], q);
      assert queues[q].ready.heap[0] in queues[q].ready.heap;
    }
  }

  lemma FewerInLine(waiters: map<Bytes, seq<ConnId>>, waiters': map<Bytes, seq<ConnId>>, queues: seq<Bytes>, c: ConnId)
    requires AllDeparted(waiters, waiters', queues, c)
    ensures forall q | LineOf(waiters', q) != [] :: LineOf(waiters, q) != []
    ensures forall q | q in queues :: LineOf(waiters', q) == Dropped(LineOf(waiters, q), c)
  {
    forall q | LineOf(waiters', q) != [] ensures LineOf(waiters, q) != [] {
      assert Departed(waiters, waiters', queues, c, q);
    }
    forall q | q in queues ensures LineOf(waiters', q) == Dropped(LineOf(waiters, q), c) {
      assert Departed(waiters, waiters', queues, c, q);
    }
  }
}
