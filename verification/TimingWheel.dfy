/**
 The hierarchical timing wheel: six levels of 64 slots over a slab of linked nodes,
 proved to behave like a plain map from timer handles to timers.
 */
module TimingWheels {
  import opened Wrappers
  import opened WheelTime
  import opened Slab

  datatype TimerHandle = TimerHandle(index: nat, generation: nat)
  datatype Timer = Timer(deadline: nat, kind: nat, id: nat)
  datatype TimerEvent = TimerEvent(handle: TimerHandle, timer: Timer)
  datatype Expiration = Expiration(level: nat, slot: nat, deadline: nat)
  function Max(a: nat, b: nat): nat { if a < b then b else a }

  function TimerOf(node: Node): Timer { Timer(node.deadline, node.kind, node.id) }

  /** A node on a list is where its deadline belongs at this time. */
  ghost predicate Timed(nodes: seq<Node>, now: nat, i: int) {
    0 <= i < |nodes| ==>
      && (nodes[i].list == DUE ==> nodes[i].deadline <= now)
      && (nodes[i].list < DUE ==> Placed(now, nodes[i].deadline, nodes[i].list / SLOTS, nodes[i].list % SLOTS))
  }

  /** The bit of a slot is set exactly if its list is not empty. */
  ghost predicate Bit(occupied: seq<set<nat>>, lists: seq<seq<nat>>, level: nat, slot: nat)
    requires |occupied| == LEVELS && |lists| == FREE && level < LEVELS
  {
    slot in occupied[level] <==> slot < SLOTS && lists[SLOTS * level + slot] != []
  }

  ghost predicate Bitmaps(occupied: seq<set<nat>>, lists: seq<seq<nat>>) {
    && |occupied| == LEVELS && |lists| == FREE
    && forall level: nat, slot: nat | level < LEVELS :: Bit(occupied, lists, level, slot)
  }

  lemma BitmapsUpdate(occupied: seq<set<nat>>, lists: seq<seq<nat>>, list: nat, s: seq<nat>)
    requires Bitmaps(occupied, lists) && list < FREE
    ensures list >= DUE ==> Bitmaps(occupied, lists[list := s])
    ensures list < DUE && s == [] ==>
              Bitmaps(occupied[list / SLOTS := occupied[list / SLOTS] - {list % SLOTS}], lists[list := s])
    ensures list < DUE && s != [] ==>
              Bitmaps(occupied[list / SLOTS := occupied[list / SLOTS] + {list % SLOTS}], lists[list := s])
    ensures list < DUE && s != [] && lists[list] != [] ==> Bitmaps(occupied, lists[list := s])
  {
    var lists' := lists[list := s];
    var level0, slot0 := list / SLOTS, list % SLOTS;
    assert SLOTS * level0 + slot0 == list;
    var occupied' := if list >= DUE then occupied
                     else if s == [] then occupied[level0 := occupied[level0] - {slot0}]
                     else occupied[level0 := occupied[level0] + {slot0}];
    forall level: nat, slot: nat | level < LEVELS ensures Bit(occupied', lists', level, slot) {
      assert Bit(occupied, lists, level, slot);
      assert slot < SLOTS ==> (SLOTS * level + slot == list <==> level == level0 && slot == slot0);
    }
    if list < DUE && s != [] && lists[list] != [] {
      assert Bit(occupied, lists, level0, slot0);
      assert occupied[level0] + {slot0} == occupied[level0];
      assert occupied' == occupied;
    }
  }

  /** The list that place() files a deadline under. */
  function TargetList(now: nat, deadline: nat): (list: nat)
    ensures list <= DUE && (list == DUE <==> deadline <= now)
    ensures list < DUE ==> Placed(now, deadline, list / SLOTS, list % SLOTS)
  {
    if deadline <= now then DUE
    else
      var (level, slot) := Choose(now, deadline);
      assert (SLOTS * level + slot) / SLOTS == level && (SLOTS * level + slot) % SLOTS == slot;
      SLOTS * level + slot
  }

  /** Slot deadlines bound when anything has to happen: while time stays below the
      deadline of every occupied slot, every node stays where it belongs. */
  lemma TimePasses(nodes: seq<Node>, now: nat, later: nat, i: nat)
    requires Timed(nodes, now, i) && now <= later
    requires i < |nodes| && nodes[i].list < DUE ==>
             later < SlotDeadline(now, nodes[i].list / SLOTS, nodes[i].list % SLOTS)
    ensures Timed(nodes, later, i)
  {
    if i < |nodes| && nodes[i].list < DUE {
      PlacedStays(now, later, nodes[i].deadline, nodes[i].list / SLOTS, nodes[i].list % SLOTS);
    }
  }

  /** The handle names a timer that is in the slab now. */
  ghost predicate Live(nodes: seq<Node>, h: TimerHandle) {
    h.index < |nodes| && nodes[h.index].list != FREE && nodes[h.index].generation == h.generation
  }

  /** The map and the slab agree on one handle. */
  ghost predicate Agrees(nodes: seq<Node>, pending: map<TimerHandle, Timer>, h: TimerHandle) {
    && (h in pending <==> Live(nodes, h))
    && (h in pending ==> pending[h] == TimerOf(nodes[h.index]))
  }

  ghost predicate Pending(nodes: seq<Node>, pending: map<TimerHandle, Timer>) {
    forall h :: Agrees(nodes, pending, h)
  }

  /** What firing has done so far: `fired` lists, once each, the timers that were in
      `before` and are gone from `pending`. */
  ghost predicate Accounted(before: map<TimerHandle, Timer>, pending: map<TimerHandle, Timer>, fired: seq<TimerEvent>) {
    && (forall h | h in pending :: h in before && pending[h] == before[h])
    && (forall k | 0 <= k < |fired| :: fired[k].handle in before && fired[k].handle !in pending
                                       && fired[k].timer == before[fired[k].handle])
    && (forall j, k | 0 <= j < k < |fired| :: fired[j].handle != fired[k].handle)
    && (forall h | h in before && h !in pending :: Reported(fired, h))
  }

  ghost predicate Reported(fired: seq<TimerEvent>, h: TimerHandle) {
    exists k :: 0 <= k < |fired| && fired[k].handle == h
  }

  /** Generations only grow, and they grow when a node is released: a handle that has gone
      stale stays stale. */
  ghost predicate Older(before: seq<Node>, nodes: seq<Node>) {
    |before| <= |nodes| && forall i | 0 <= i < |before| ::
      && before[i].generation <= nodes[i].generation
      && (before[i].list != FREE && nodes[i].list == FREE ==> before[i].generation < nodes[i].generation)
  }

  lemma GoneIsStale(before: seq<Node>, nodes: seq<Node>, was: map<TimerHandle, Timer>, pending: map<TimerHandle, Timer>,
                    h: TimerHandle)
    requires Older(before, nodes) && Pending(before, was) && Pending(nodes, pending) && h in was && h !in pending
    ensures h.index < |nodes| && h.generation < nodes[h.index].generation
  {
    assert Agrees(before, was, h) && Agrees(nodes, pending, h);
  }

  /** The map after firing one timer after the other. */
  ghost function Remaining(before: map<TimerHandle, Timer>, fired: seq<TimerEvent>): map<TimerHandle, Timer> {
    if fired == [] then before
    else Remaining(before, fired[..|fired| - 1]) - {fired[|fired| - 1].handle}
  }

  /** Each event reports a timer that was pending until then. */
  ghost predicate Fires(before: map<TimerHandle, Timer>, fired: seq<TimerEvent>) {
    fired == [] ||
    var rest, last := fired[..|fired| - 1], fired[|fired| - 1];
    && Fires(before, rest)
    && last.handle in Remaining(before, rest)
    && last.timer == Remaining(before, rest)[last.handle]
  }

  lemma FiresNext(before: map<TimerHandle, Timer>, fired: seq<TimerEvent>, event: TimerEvent)
    requires Fires(before, fired)
    requires event.handle in Remaining(before, fired) && event.timer == Remaining(before, fired)[event.handle]
    ensures Fires(before, fired + [event])
    ensures Remaining(before, fired + [event]) == Remaining(before, fired) - {event.handle}
  {
    assert (fired + [event])[..|fired|] == fired;
  }

  lemma {:induction false} FiresAppend(before: map<TimerHandle, Timer>, first: seq<TimerEvent>, second: seq<TimerEvent>)
    requires Fires(before, first) && Fires(Remaining(before, first), second)
    ensures Fires(before, first + second)
    ensures Remaining(before, first + second) == Remaining(Remaining(before, first), second)
  {
    if second == [] {
      assert first + second == first;
    } else {
      var rest, last := second[..|second| - 1], second[|second| - 1];
      FiresAppend(before, first, rest);
      FiresNext(before, first + rest, last);
      assert first + rest + [last] == first + second;
    }
  }

  lemma {:induction false} FiresIsAccounted(before: map<TimerHandle, Timer>, fired: seq<TimerEvent>)
    requires Fires(before, fired)
    ensures Accounted(before, Remaining(before, fired), fired)
  {
    hide Accounted;
    if fired == [] {
      NothingFired(before);
    } else {
      var rest, last := fired[..|fired| - 1], fired[|fired| - 1];
      FiresIsAccounted(before, rest);
      AccountedNext(before, Remaining(before, rest), rest, last);
      assert rest + [last] == fired;
    }
  }

  lemma NothingFired(before: map<TimerHandle, Timer>)
    ensures Accounted(before, before, [])
  {
  }

  lemma AccountedNext(before: map<TimerHandle, Timer>, pending: map<TimerHandle, Timer>, fired: seq<TimerEvent>,
                      event: TimerEvent)
    requires Accounted(before, pending, fired) && event.handle in pending && event.timer == pending[event.handle]
    ensures Accounted(before, pending - {event.handle}, fired + [event])
  {
    var more := fired + [event];
    forall h | h in before && h !in pending - {event.handle} ensures Reported(more, h) {
      if h == event.handle {
        assert more[|fired|].handle == h;
      } else {
        assert Reported(fired, h);
        var k :| 0 <= k < |fired| && fired[k].handle == h;
        assert more[k].handle == h;
      }
    }
  }

  /** Fired in order of deadline, where a deadline already past counts as `start`. */
  ghost predicate InOrder(fired: seq<TimerEvent>, start: nat) {
    forall j, k | 0 <= j < k < |fired| :: Max(fired[j].timer.deadline, start) <= Max(fired[k].timer.deadline, start)
  }

  ghost predicate AllBy(fired: seq<TimerEvent>, now: nat) {
    forall k | 0 <= k < |fired| :: fired[k].timer.deadline <= now
  }

  ghost predicate AllAt(fired: seq<TimerEvent>, now: nat) {
    forall k | 0 <= k < |fired| :: fired[k].timer.deadline == now
  }

  lemma InOrderAppend(fired: seq<TimerEvent>, batch: seq<TimerEvent>, start: nat, was: nat, now: nat)
    requires InOrder(fired, start) && AllBy(fired, was) && AllAt(batch, now) && start <= was <= now
    ensures InOrder(fired + batch, start) && AllBy(fired + batch, now)
  {
  }

  lemma NoneYet(before: map<TimerHandle, Timer>, nodes: seq<Node>, now: nat)
    ensures Fires(before, []) && Remaining(before, []) == before && AllBy([], now) && InOrder([], now)
    ensures Older(nodes, nodes)
  {
  }

  lemma OlderThrough(a: seq<Node>, b: seq<Node>, c: seq<Node>)
    requires Older(a, b) && Older(b, c)
    ensures Older(a, c) && |a| <= |c|
  {
  }

  lemma AllByLater(fired: seq<TimerEvent>, now: nat, later: nat)
    requires AllBy(fired, now) && now <= later
    ensures AllBy(fired, later)
  {
  }

  /** What was already due counts as fired at the start. */
  lemma InOrderDue(due: seq<TimerEvent>, later: seq<TimerEvent>, start: nat, now: nat)
    requires AllBy(due, start) && AllBy(later, now) && start <= now && InOrder(later, start)
    ensures InOrder(due + later, start) && AllBy(due + later, now)
  {
  }

  /** The slot k places after `first`, going round. */
  function Around(first: nat, k: nat): nat { (first + k) % SLOTS }

  /** The distance from `first` to the nearest occupied slot, going round: what a
      rotate and a count of trailing zeros compute on the bitmap. */
  function Distance(occupied: set<nat>, first: nat, from: nat): (d: nat)
    requires from <= SLOTS
    ensures from <= d <= SLOTS && (d < SLOTS ==> Around(first, d) in occupied)
    ensures forall k :: from <= k < d ==> Around(first, k) !in occupied
    decreases SLOTS - from
  {
    if from == SLOTS || Around(first, from) in occupied then from else Distance(occupied, first, from + 1)
  }

  /** The distance from the slot after the current position to a slot tells when it comes up. */
  lemma RoundTrip(current: nat, slot: nat)
    requires slot < SLOTS
    ensures var first := (current % SLOTS + 1) % SLOTS;
            var k := (slot + SLOTS - first) % SLOTS;
            && Around(first, k) == slot
            && NextIndex(current, slot) == current + 1 + k
            && forall d | 0 <= d < SLOTS && Around(first, d) == slot :: d == k
  {
  }

  lemma DistanceIsLeast(occupied: set<nat>, current: nat, slot: nat)
    requires slot in occupied && slot < SLOTS
    ensures var first := (current % SLOTS + 1) % SLOTS;
            && Distance(occupied, first, 0) < SLOTS
            && var nearest := Around(first, Distance(occupied, first, 0));
               nearest in occupied && nearest < SLOTS && NextIndex(current, nearest) <= NextIndex(current, slot)
  {
    var first := (current % SLOTS + 1) % SLOTS;
    RoundTrip(current, slot);
    assert Around(first, (slot + SLOTS - first) % SLOTS) in occupied;
    RoundTrip(current, Around(first, Distance(occupied, first, 0)));
  }

  /** Scanning from the slot after the current position finds the slot of the level
      that comes up first. */
  lemma NearestComesFirst(now: nat, level: nat, occupied: set<nat>, slot: nat)
    requires slot in occupied && slot < SLOTS
    ensures var first := (Shr(now, level) % SLOTS + 1) % SLOTS;
            && Distance(occupied, first, 0) < SLOTS
            && var nearest := Around(first, Distance(occupied, first, 0));
               && nearest in occupied && nearest < SLOTS
               && SlotDeadline(now, level, nearest) <= SlotDeadline(now, level, slot)
  {
    var current := Shr(now, level);
    DistanceIsLeast(occupied, current, slot);
    var first := (current % SLOTS + 1) % SLOTS;
    var nearest := Around(first, Distance(occupied, first, 0));
    SlotDeadlineIsNextIndex(now, level, slot);
    SlotDeadlineIsNextIndex(now, level, nearest);
    var a, b := NextIndex(current, nearest), NextIndex(current, slot);
    ShlAdd(a, b - a, level);
  }

  lemma PendingRelease(nodes: seq<Node>, pending: map<TimerHandle, Timer>, index: nat, freeHead: nat)
    requires Pending(nodes, pending) && index < |nodes| && nodes[index].list != FREE
    ensures var h := TimerHandle(index, nodes[index].generation);
            && h in pending && |pending - {h}| == |pending| - 1
            && Pending(Released(nodes, index, freeHead), pending - {h})
  {
    var h := TimerHandle(index, nodes[index].generation);
    assert Agrees(nodes, pending, h);
    assert (pending - {h}).Keys == pending.Keys - {h};
    forall g ensures Agrees(Released(nodes, index, freeHead), pending - {h}, g) { assert Agrees(nodes, pending, g); }
  }

  lemma PendingAdd(nodes: seq<Node>, nodes': seq<Node>, pending: map<TimerHandle, Timer>, index: nat)
    requires Pending(nodes, pending) && |nodes'| == |nodes| && index < |nodes| && nodes[index].list == FREE
    requires nodes'[index].list != FREE
    requires forall i | 0 <= i < |nodes| :: SameTimer(nodes'[i], nodes[i].(list := nodes'[i].list))
    requires forall i | 0 <= i < |nodes| && i != index :: nodes'[i].list == nodes[i].list
    ensures var h := TimerHandle(index, nodes[index].generation);
            && h !in pending
            && Pending(nodes', pending[h := TimerOf(nodes[index])])
  {
    var h := TimerHandle(index, nodes[index].generation);
    var pending' := pending[h := TimerOf(nodes[index])];
    assert Agrees(nodes, pending, h);
    forall g ensures Agrees(nodes', pending', g) {
      assert Agrees(nodes, pending, g);
      assert g.index < |nodes| ==> SameTimer(nodes'[g.index], nodes[g.index].(list := nodes'[g.index].list));
    }
  }

  /** What a free node carries does not matter. */
  lemma PendingRewrite(nodes: seq<Node>, nodes': seq<Node>, pending: map<TimerHandle, Timer>, index: nat)
    requires Pending(nodes, pending) && index < |nodes| && nodes[index].list == FREE
    requires |nodes'| == |nodes| && nodes' == nodes[index := nodes'[index]] && nodes'[index].list == FREE
    ensures Pending(nodes', pending)
  {
    forall g ensures Agrees(nodes', pending, g) { assert Agrees(nodes, pending, g); }
  }

  /** An occupied slot does not come up before the tick. */
  ghost predicate NotBefore(occupied: seq<set<nat>>, now: nat, tick: nat, level: nat, slot: nat) {
    level < |occupied| && slot in occupied[level] ==> slot < SLOTS && tick <= SlotDeadline(now, level, slot)
  }

  /** `best` is the slot on the levels below `upto` that comes up first, if any is occupied. */
  ghost predicate FirstUp(occupied: seq<set<nat>>, upto: nat, now: nat, best: Option<Expiration>)
    requires upto <= |occupied|
  {
    match best
    case None => forall level | 0 <= level < upto :: occupied[level] == {}
    case Some(e) =>
      && e.level < upto && e.slot < SLOTS && e.slot in occupied[e.level]
      && e.deadline == SlotDeadline(now, e.level, e.slot)
      && forall level: nat, slot: nat | level < upto :: NotBefore(occupied, now, e.deadline, level, slot)
  }

  /** One round of the search: the nearest slot of the level against the best so far. */
  function Better(best: Option<Expiration>, now: nat, level: nat, occupied: set<nat>): Option<Expiration> {
    if occupied == {} then best
    else
      var first := (Shr(now, level) % SLOTS + 1) % SLOTS;
      var slot := Around(first, Distance(occupied, first, 0));
      var deadline := SlotDeadline(now, level, slot);
      if best.None? || deadline < best.value.deadline then Some(Expiration(level, slot, deadline)) else best
  }

  lemma BetterIsFirst(occupied: seq<set<nat>>, lists: seq<seq<nat>>, level: nat, now: nat, best: Option<Expiration>)
    requires Bitmaps(occupied, lists) && level < LEVELS
    requires FirstUp(occupied, level, now, best)
    ensures FirstUp(occupied, level + 1, now, Better(best, now, level, occupied[level]))
  {
    if occupied[level] != {} {
      var some :| some in occupied[level];
      assert Bit(occupied, lists, level, some);
      NearestComesFirst(now, level, occupied[level], some);
    }
    var best' := Better(best, now, level, occupied[level]);
    if best'.Some? {
      var tick := best'.value.deadline;
      forall l: nat, s: nat | l < level + 1 ensures NotBefore(occupied, now, tick, l, s) {
        assert Bit(occupied, lists, l, s);
        if l == level && s in occupied[l] {
          NearestComesFirst(now, level, occupied[level], s);
        } else if l < level && best.Some? {
          assert NotBefore(occupied, now, best.value.deadline, l, s);
        }
      }
    }
  }

  predicate SameTimer(a: Node, b: Node) {
    a.deadline == b.deadline && a.id == b.id && a.kind == b.kind && a.generation == b.generation && a.list == b.list
  }

  /** The position of a node on the list it names. */
  ghost function PositionOf(nodes: seq<Node>, heads: seq<nat>, lists: seq<seq<nat>>,
                            freeHead: nat, free: seq<nat>, loose: set<nat>, index: nat): (k: nat)
    requires Partition(nodes, heads, lists, freeHead, free, loose)
    requires index < |nodes| && nodes[index].list != FREE && index !in loose
    ensures nodes[index].list < FREE
    ensures k < |lists[nodes[index].list]| && lists[nodes[index].list][k] == index
  {
    assert Homed(nodes, lists, free, loose, index);
    var k :| 0 <= k < |lists[nodes[index].list]| && lists[nodes[index].list][k] == index;
    k
  }

  lemma UnlinkKeepsTimers(nodes: seq<Node>, heads: seq<nat>, lists: seq<seq<nat>>,
                          freeHead: nat, free: seq<nat>, loose: set<nat>, l: nat, k: nat)
    requires Partition(nodes, heads, lists, freeHead, free, loose)
    requires l < FREE && k < |lists[l]|
    ensures lists[l][k] < |nodes|
    ensures nodes[lists[l][k]].prev == NIL || nodes[lists[l][k]].prev < |nodes|
    ensures nodes[lists[l][k]].next == NIL || nodes[lists[l][k]].next < |nodes|
    ensures var r := Unlinked(nodes, lists[l][k]);
            r[lists[l][k]] == nodes[lists[l][k]] && forall i | 0 <= i < |nodes| :: SameTimer(r[i], nodes[i])
  {
    assert ListOk(nodes, heads, lists, l);
    UnlinkShrinks(nodes, lists[l], k, l, heads[l]);
    UnlinkFrame(nodes, lists[l], k, l, heads[l], lists[l][k]);
  }

  lemma EmptyIff(nodes: seq<Node>, heads: seq<nat>, lists: seq<seq<nat>>,
                 freeHead: nat, free: seq<nat>, loose: set<nat>, l: nat)
    requires Partition(nodes, heads, lists, freeHead, free, loose) && l < FREE
    ensures heads[l] == NIL <==> lists[l] == []
  {
    assert ListOk(nodes, heads, lists, l);
    ChainWalk(nodes, lists[l], l, heads[l]);
    assert lists[l] != [] ==> lists[l][0] in lists[l];
  }

  lemma HeadIsHomed(nodes: seq<Node>, heads: seq<nat>, lists: seq<seq<nat>>,
                    freeHead: nat, free: seq<nat>, loose: set<nat>, l: nat)
    requires Partition(nodes, heads, lists, freeHead, free, loose) && l < FREE
    ensures heads[l] != NIL ==> heads[l] < |nodes| && heads[l] !in loose
  {
    assert ListOk(nodes, heads, lists, l);
    OnItsList(nodes, heads, lists, freeHead, free, loose, l);
    assert lists[l] != [] ==> lists[l][0] in lists[l];
  }

  lemma DueHead(nodes: seq<Node>, heads: seq<nat>, lists: seq<seq<nat>>, freeHead: nat, free: seq<nat>)
    requires Partition(nodes, heads, lists, freeHead, free, {}) && heads[DUE] != NIL
    ensures heads[DUE] < |nodes| && nodes[heads[DUE]].list == DUE
  {
    assert ListOk(nodes, heads, lists, DUE);
    assert heads[DUE] in lists[DUE];
    OnItsList(nodes, heads, lists, freeHead, free, {}, DUE);
  }

  ghost predicate InSlot(nodes: seq<Node>, now: nat, level: nat, slot: nat, i: nat) {
    i < |nodes| && nodes[i].list == SLOTS * level + slot && Placed(now, nodes[i].deadline, level, slot)
  }

  /** When time moves to the tick of the slot that comes up first, every node outside
      that slot stays where it belongs, because no other slot comes up at that tick. */
  lemma SlotMoves(nodes: seq<Node>, heads: seq<nat>, lists: seq<seq<nat>>, freeHead: nat, free: seq<nat>,
                  occupied: seq<set<nat>>, now: nat, next: Expiration)
    requires Partition(nodes, heads, lists, freeHead, free, {}) && Bitmaps(occupied, lists)
    requires forall i :: Timed(nodes, now, i)
    requires FirstUp(occupied, LEVELS, now, Some(next))
    ensures now < next.deadline
    ensures forall i | i in lists[SLOTS * next.level + next.slot] ::
              InSlot(nodes, now, next.level, next.slot, i)
    ensures forall i | i !in lists[SLOTS * next.level + next.slot] :: Timed(nodes, next.deadline, i)
  {
    var list := SLOTS * next.level + next.slot;
    assert list / SLOTS == next.level && list % SLOTS == next.slot;
    OnItsList(nodes, heads, lists, freeHead, free, {}, list);
    assert Bit(occupied, lists, next.level, next.slot);
    forall i | i in lists[list] ensures InSlot(nodes, now, next.level, next.slot, i) { assert Timed(nodes, now, i); }
    var first := lists[list][0];
    assert first in lists[list];
    PlacedNotLate(now, nodes[first].deadline, next.level, next.slot);
    forall i | i !in lists[list] ensures Timed(nodes, next.deadline, i) {
      assert Timed(nodes, now, i);
      if 0 <= i < |nodes| && nodes[i].list < DUE {
        var level, slot := nodes[i].list / SLOTS, nodes[i].list % SLOTS;
        assert Homed(nodes, lists, free, {}, i);
        assert Bit(occupied, lists, level, slot);
        assert NotBefore(occupied, now, next.deadline, level, slot);
        if level <= next.level {
          NoTies(now, nodes[i].deadline, level, slot, nodes[first].deadline, next.level, next.slot);
        } else {
          NoTies(now, nodes[first].deadline, next.level, next.slot, nodes[i].deadline, level, slot);
        }
      }
      if 0 <= i < |nodes| { TimePasses(nodes, now, next.deadline, i); }
    }
  }

  /** While time stays below the tick of the slot that comes up first, nothing moves. */
  lemma SlotsWait(nodes: seq<Node>, heads: seq<nat>, lists: seq<seq<nat>>, freeHead: nat, free: seq<nat>,
                  occupied: seq<set<nat>>, now: nat, later: nat, next: Option<Expiration>)
    requires Partition(nodes, heads, lists, freeHead, free, {}) && Bitmaps(occupied, lists)
    requires forall i :: Timed(nodes, now, i)
    requires FirstUp(occupied, LEVELS, now, next) && now <= later
    requires next.Some? ==> later < next.value.deadline
    ensures forall i :: Timed(nodes, later, i)
  {
    forall i ensures Timed(nodes, later, i) {
      assert Timed(nodes, now, i);
      if 0 <= i < |nodes| {
        if nodes[i].list < DUE {
          var level, slot := nodes[i].list / SLOTS, nodes[i].list % SLOTS;
          assert Homed(nodes, lists, free, {}, i);
          assert Bit(occupied, lists, level, slot);
          assert NotBefore(occupied, now, next.value.deadline, level, slot);
        }
        TimePasses(nodes, now, later, i);
      }
    }
  }

  /** An occupied slot holds a pending timer. */
  lemma SlotHoldsTimer(nodes: seq<Node>, heads: seq<nat>, lists: seq<seq<nat>>, freeHead: nat, free: seq<nat>,
                       occupied: seq<set<nat>>, pending: map<TimerHandle, Timer>, next: Expiration)
    requires Partition(nodes, heads, lists, freeHead, free, {}) && Bitmaps(occupied, lists) && Pending(nodes, pending)
    requires next.level < LEVELS && next.slot in occupied[next.level]
    ensures pending != map[]
  {
    assert Bit(occupied, lists, next.level, next.slot);
    var list := SLOTS * next.level + next.slot;
    OnItsList(nodes, heads, lists, freeHead, free, {}, list);
    var i := lists[list][0];
    assert i in lists[list];
    assert Agrees(nodes, pending, TimerHandle(i, nodes[i].generation));
  }

  /** The first slot to come up does so no later than any deadline in the slots. */
  lemma WakesInTime(nodes: seq<Node>, heads: seq<nat>, lists: seq<seq<nat>>, freeHead: nat, free: seq<nat>,
                    occupied: seq<set<nat>>, now: nat, next: Option<Expiration>, i: nat)
    requires Partition(nodes, heads, lists, freeHead, free, {}) && Bitmaps(occupied, lists)
    requires Timed(nodes, now, i) && FirstUp(occupied, LEVELS, now, next)
    requires i < |nodes| && nodes[i].list != FREE && lists[DUE] == []
    ensures next.Some? && next.value.deadline <= nodes[i].deadline
  {
    assert Homed(nodes, lists, free, {}, i);
    var level, slot := nodes[i].list / SLOTS, nodes[i].list % SLOTS;
    assert Bit(occupied, lists, level, slot);
    PlacedNotLate(now, nodes[i].deadline, level, slot);
    if next.Some? { assert NotBefore(occupied, now, next.value.deadline, level, slot); }
  }

  // --- when there is something to do ---------------------------------------------------

  /** Nothing is due, and time may move to t without any slot coming up. */
  ghost predicate Rests(nodes: seq<Node>, now: nat, t: nat) {
    forall i | 0 <= i < |nodes| ::
      && nodes[i].list != DUE
      && (nodes[i].list < DUE ==> t < SlotDeadline(now, nodes[i].list / SLOTS, nodes[i].list % SLOTS))
  }

  /** Some timer has fired or moved to another slot. */
  ghost predicate Stirred(before: seq<Node>, nodes: seq<Node>, fired: seq<TimerEvent>) {
    fired != [] || exists i | 0 <= i < |before| :: i < |nodes| && nodes[i].list != before[i].list
  }

  /** Everything rests exactly until the first slot comes up. */
  lemma RestsUntil(nodes: seq<Node>, heads: seq<nat>, lists: seq<seq<nat>>, freeHead: nat, free: seq<nat>,
                   occupied: seq<set<nat>>, now: nat, next: Option<Expiration>, t: nat)
    requires Partition(nodes, heads, lists, freeHead, free, {}) && Bitmaps(occupied, lists) && lists[DUE] == []
    requires FirstUp(occupied, LEVELS, now, next)
    ensures Rests(nodes, now, t) <==> next.None? || t < next.value.deadline
  {
    if next.None? || t < next.value.deadline {
      forall i | 0 <= i < |nodes|
        ensures nodes[i].list != DUE && (nodes[i].list < DUE ==>
                  t < SlotDeadline(now, nodes[i].list / SLOTS, nodes[i].list % SLOTS))
      {
        assert Homed(nodes, lists, free, {}, i);
        if nodes[i].list < DUE {
          var level, slot := nodes[i].list / SLOTS, nodes[i].list % SLOTS;
          assert Bit(occupied, lists, level, slot);
          assert NotBefore(occupied, now, next.value.deadline, level, slot);
        }
      }
    } else {
      var i := FirstOfSlot(nodes, heads, lists, freeHead, free, occupied, next.value);
    }
  }

  /** An occupied slot has a node on it. */
  lemma FirstOfSlot(nodes: seq<Node>, heads: seq<nat>, lists: seq<seq<nat>>, freeHead: nat, free: seq<nat>,
                    occupied: seq<set<nat>>, next: Expiration) returns (i: nat)
    requires Partition(nodes, heads, lists, freeHead, free, {}) && Bitmaps(occupied, lists)
    requires next.level < LEVELS && next.slot in occupied[next.level]
    ensures i < |nodes| && next.slot < SLOTS && nodes[i].list == SLOTS * next.level + next.slot
    ensures nodes[i].list / SLOTS == next.level && nodes[i].list % SLOTS == next.slot && nodes[i].list < DUE
  {
    assert Bit(occupied, lists, next.level, next.slot);
    var list := SLOTS * next.level + next.slot;
    OnItsList(nodes, heads, lists, freeHead, free, {}, list);
    i := lists[list][0];
    assert i in lists[list];
  }

  /** Either nothing is due, or some pending timer is. */
  lemma DueIfNot(nodes: seq<Node>, heads: seq<nat>, lists: seq<seq<nat>>, freeHead: nat, free: seq<nat>,
                 pending: map<TimerHandle, Timer>, now: nat) returns (h: TimerHandle)
    requires Partition(nodes, heads, lists, freeHead, free, {}) && Pending(nodes, pending)
    requires forall i :: Timed(nodes, now, i)
    ensures Rests(nodes, now, now) <==> lists[DUE] == []
    ensures lists[DUE] != [] ==> h in pending && pending[h].deadline <= now
    ensures forall t | t >= now && Rests(nodes, now, t) :: Rests(nodes, now, now)
  {
    OnItsList(nodes, heads, lists, freeHead, free, {}, DUE);
    if lists[DUE] == [] {
      h := TimerHandle(0, 0);
      forall i | 0 <= i < |nodes|
        ensures nodes[i].list != DUE && (nodes[i].list < DUE ==>
                  now < SlotDeadline(now, nodes[i].list / SLOTS, nodes[i].list % SLOTS))
      {
        assert Homed(nodes, lists, free, {}, i) && Timed(nodes, now, i);
        if nodes[i].list < DUE {
          PlacedNotLate(now, nodes[i].deadline, nodes[i].list / SLOTS, nodes[i].list % SLOTS);
        }
      }
    } else {
      var i := lists[DUE][0];
      assert i in lists[DUE];
      h := TimerHandle(i, nodes[i].generation);
      assert Agrees(nodes, pending, h) && Timed(nodes, now, i);
    }
  }

  /** A node of a slot that was emptied is on another list now. */
  lemma EmptiedStirs(before: seq<Node>, nodes: seq<Node>, heads: seq<nat>, lists: seq<seq<nat>>, freeHead: nat,
                     free: seq<nat>, fired: seq<TimerEvent>, list: nat, i: nat)
    requires Partition(nodes, heads, lists, freeHead, free, {}) && list < DUE && lists[list] == []
    requires i < |before| <= |nodes| && before[i].list == list
    ensures Stirred(before, nodes, fired)
  {
    assert Homed(nodes, lists, free, {}, i);
  }

  /** If the earliest deadline differs from now in its lowest digit only, the first slot comes
      up exactly then. */
  lemma WakesExactly(nodes: seq<Node>, heads: seq<nat>, lists: seq<seq<nat>>, freeHead: nat, free: seq<nat>,
                     occupied: seq<set<nat>>, now: nat, next: Expiration, deadline: nat)
    requires Partition(nodes, heads, lists, freeHead, free, {}) && Bitmaps(occupied, lists)
    requires (forall i :: Timed(nodes, now, i)) && FirstUp(occupied, LEVELS, now, Some(next))
    requires next.deadline <= deadline && Shr(deadline, 1) == Shr(now, 1)
    requires forall i | 0 <= i < |nodes| && nodes[i].list < DUE :: deadline <= nodes[i].deadline
    ensures next.deadline == deadline
  {
    var i := FirstOfSlot(nodes, heads, lists, freeHead, free, occupied, next);
    assert Timed(nodes, now, i);
    PlacedNotLate(now, nodes[i].deadline, next.level, next.slot);
    if next.level > 0 {
      SlotDeadlineIsNextIndex(now, next.level, next.slot);
      var k := NextIndex(Shr(now, next.level), next.slot);
      ShrOfShl(k, next.level);
      ShrMonotone(now, next.deadline, 1);
      ShrMonotone(next.deadline, deadline, 1);
      SameAbove(now, next.deadline, 1, next.level);
      assert false;
    }
  }

  lemma LinkKeepsTimers(nodes: seq<Node>, index: nat, list: nat, head: nat)
    requires index < |nodes| && (head == NIL || head < |nodes|)
    ensures var r := Linked(nodes, index, list, head);
            && r[index].list == list
            && forall i | 0 <= i < |nodes| ::
                 && SameTimer(r[i], nodes[i].(list := r[i].list))
                 && (i != index ==> r[i].list == nodes[i].list)
                 && (i != index && i != head ==> r[i] == nodes[i])
  {
  }

  /** Relinking nodes changes no timer. */
  lemma PendingFrame(nodes: seq<Node>, nodes': seq<Node>, pending: map<TimerHandle, Timer>)
    requires Pending(nodes, pending) && |nodes'| == |nodes|
    requires forall i | 0 <= i < |nodes| ::
             TimerOf(nodes'[i]) == TimerOf(nodes[i]) && nodes'[i].generation == nodes[i].generation
    requires forall i | 0 <= i < |nodes| :: nodes'[i].list == FREE <==> nodes[i].list == FREE
    ensures Pending(nodes', pending)
  {
    forall g ensures Agrees(nodes', pending, g) { assert Agrees(nodes, pending, g); }
  }

  /** With no free node, every node of the slab is a pending timer. */
  lemma {:induction false} SlabFits(nodes: seq<Node>, pending: map<TimerHandle, Timer>, upto: nat)
    returns (handles: set<TimerHandle>)
    requires Pending(nodes, pending) && upto <= |nodes| && forall i | 0 <= i < upto :: nodes[i].list != FREE
    ensures handles <= pending.Keys && |handles| == upto && forall h | h in handles :: h.index < upto
  {
    if upto == 0 {
      handles := {};
    } else {
      var fewer := SlabFits(nodes, pending, upto - 1);
      var h := TimerHandle(upto - 1, nodes[upto - 1].generation);
      assert Agrees(nodes, pending, h);
      handles := fewer + {h};
    }
  }

  lemma {:induction false} SubsetIsSmaller<A>(a: set<A>, b: set<A>)
    requires a <= b
    ensures |a| <= |b|
  {
    if a != {} {
      var x :| x in a;
      SubsetIsSmaller(a - {x}, b - {x});
    }
  }

  class TimingWheel {
    var now: nat
    var size: nat
    var nodes: seq<Node>
    var freeHead: nat
    var heads: seq<nat>
    var occupied: seq<set<nat>>

    /** The lists as sequences of slab indices, and the free list. */
    ghost var lists: seq<seq<nat>>
    ghost var free: seq<nat>
    /** What the wheel means: the pending timers by handle. */
    ghost var pending: map<TimerHandle, Timer>

    /** The slab is sound and every node that is not loose is where it belongs. */
    ghost predicate Sound(loose: set<nat>)
      reads this
    {
      && Partition(nodes, heads, lists, freeHead, free, loose)
      && Bitmaps(occupied, lists)
      && (forall i | i !in loose :: Timed(nodes, now, i))
    }

    ghost predicate Inv(loose: set<nat>)
      reads this
    {
      && Sound(loose)
      && Pending(nodes, pending)
      && size == |pending|
    }

    ghost predicate Valid()
      reads this
    {
      Inv({})
    }

    /** The handle was issued once and its timer is gone for good. */
    ghost predicate Retired(h: TimerHandle)
      reads this
    {
      h.index < |nodes| && h.generation < nodes[h.index].generation
    }

    lemma RetiredIsGone(h: TimerHandle)
      requires Valid() && Retired(h)
      ensures h !in pending
    {
      assert Agrees(nodes, pending, h);
    }

    constructor (start: nat)
      ensures Valid()
      ensures now == start && pending == map[]
      ensures forall h :: !Retired(h)
    {
      now := start;
      size := 0;
      nodes := [];
      freeHead := NIL;
      heads := seq(FREE, _ => NIL);
      occupied := seq(LEVELS, _ => {});
      lists := seq(FREE, _ => []);
      free := [];
      pending := map[];
    }

    /** The slab is full only when it holds as many timers as it can address. */
    lemma HasRoom()
      requires Valid() && |pending| < NIL
      ensures freeHead != NIL || |nodes| < NIL
    {
      if freeHead == NIL {
        WalkEnds(nodes, free);
        forall i | 0 <= i < |nodes| ensures nodes[i].list != FREE { assert Homed(nodes, lists, free, {}, i); }
        var handles := SlabFits(nodes, pending, |nodes|);
        SubsetIsSmaller(handles, pending.Keys);
        assert |pending.Keys| == |pending|;
      }
    }

    // --- slab and lists --------------------------------------------------------------

    method Allocate() returns (index: nat)
      requires Inv({}) && (freeHead != NIL || |nodes| < NIL)
      modifies this`nodes, this`freeHead, this`free
      ensures Inv({index})
      ensures index < |nodes| && nodes[index].list == FREE && |nodes| >= |old(nodes)|
      ensures index < |old(nodes)| ==> nodes == old(nodes)
      ensures index >= |old(nodes)| ==> nodes == old(nodes) + [nodes[index]] && nodes[index].generation == 0
    {
      ghost var before := nodes;
      if freeHead != NIL {
        index := freeHead;
        PartitionTake(nodes, heads, lists, freeHead, free, {});
        freeHead := nodes[index].next;
        free := free[1..];
      } else {
        index := |nodes|;
        var node := Node(0, 0, NIL, NIL, 0, FREE, 0);
        PartitionGrow(nodes, heads, lists, freeHead, free, {}, node);
        nodes := nodes + [node];
      }
      assert {} + {index} == {index};
      forall i | i !in {index} ensures Timed(nodes, now, i) { assert Timed(before, now, i); }
      forall g ensures Agrees(nodes, pending, g) { assert Agrees(before, pending, g); }
    }

    method Release(index: nat, ghost loose: set<nat>)
      requires Inv(loose) && index in loose && nodes[index].list != FREE
      modifies this`nodes, this`freeHead, this`free, this`pending, this`size
      ensures Inv(loose - {index})
      ensures nodes == Released(old(nodes), index, old(freeHead))
      ensures pending == old(pending) - {TimerHandle(index, old(nodes)[index].generation)}
    {
      ghost var before := nodes;
      PartitionRelease(nodes, heads, lists, freeHead, free, loose, index);
      PendingRelease(nodes, pending, index, freeHead);
      pending := pending - {TimerHandle(index, nodes[index].generation)};
      nodes := Released(nodes, index, freeHead);
      freeHead := index;
      free := [index] + free;
      size := size - 1;
      forall i | i !in loose - {index} ensures Timed(nodes, now, i) {
        if i != index { assert Timed(before, now, i); }
      }
    }

    /** Puts a loose node at the front of a list. */
    method Link(index: nat, list: nat, ghost loose: set<nat>)
      requires Partition(nodes, heads, lists, freeHead, free, loose) && Bitmaps(occupied, lists)
      requires index in loose && list < FREE
      modifies this`nodes, this`heads, this`occupied, this`lists
      ensures Partition(nodes, heads, lists, freeHead, free, loose - {index}) && Bitmaps(occupied, lists)
      ensures old(heads)[list] == NIL || old(heads)[list] < |old(nodes)|
      ensures nodes == Linked(old(nodes), index, list, old(heads)[list])
      ensures lists == old(lists)[list := [index] + old(lists)[list]]
    {
      PartitionLink(nodes, heads, lists, freeHead, free, loose, index, list);
      BitmapsUpdate(occupied, lists, list, [index] + lists[list]);
      nodes := Linked(nodes, index, list, heads[list]);
      heads := heads[list := index];
      lists := lists[list := [index] + lists[list]];
      if list < DUE {
        occupied := occupied[list / SLOTS := occupied[list / SLOTS] + {list % SLOTS}];
      }
    }

    /** Takes a node off its list; its own fields do not change. */
    method Unlink(index: nat, ghost loose: set<nat>)
      requires Inv(loose)
      requires index < |nodes| && nodes[index].list != FREE && index !in loose
      modifies this`nodes, this`heads, this`occupied, this`lists
      ensures Inv(loose + {index})
      ensures |nodes| == |old(nodes)| && nodes[index] == old(nodes)[index]
      ensures forall i | 0 <= i < |nodes| :: SameTimer(nodes[i], old(nodes)[i])
    {
      var node := nodes[index];
      ghost var linked := nodes;
      ghost var k := PositionOf(nodes, heads, lists, freeHead, free, loose, index);
      ghost var s := Without(lists[node.list], k);
      UnlinkKeepsTimers(nodes, heads, lists, freeHead, free, loose, node.list, k);
      PartitionUnlink(nodes, heads, lists, freeHead, free, loose, node.list, k);
      BitmapsUpdate(occupied, lists, node.list, s);
      nodes := Unlinked(nodes, index);
      if node.prev == NIL {
        heads := heads[node.list := node.next];
      } else {
        assert heads[node.list := heads[node.list]] == heads;
      }
      lists := lists[node.list := s];
      EmptyIff(nodes, heads, lists, freeHead, free, loose + {index}, node.list);
      if heads[node.list] == NIL && node.list < DUE {
        occupied := occupied[node.list / SLOTS := occupied[node.list / SLOTS] - {node.list % SLOTS}];
      }
      PendingFrame(linked, nodes, pending);
      forall i | i !in loose + {index} ensures Timed(nodes, now, i) { assert Timed(linked, now, i); }
    }

    /** Chooses the list for a loose node from its deadline and the current time. */
    method Place(index: nat, ghost loose: set<nat>)
      requires Sound(loose) && index in loose
      modifies this`nodes, this`heads, this`occupied, this`lists
      ensures Sound(loose - {index})
      ensures |nodes| == |old(nodes)| && nodes[index].list == TargetList(now, nodes[index].deadline)
      ensures lists == old(lists)[nodes[index].list := [index] + old(lists)[nodes[index].list]]
      ensures forall i | 0 <= i < |nodes| :: SameTimer(nodes[i], old(nodes)[i].(list := nodes[i].list))
      ensures forall i | 0 <= i < |nodes| && i != index :: nodes[i].list == old(nodes)[i].list
      ensures forall i | 0 <= i < |nodes| && i in loose && i != index :: nodes[i] == old(nodes)[i]
    {
      var list := TargetList(now, nodes[index].deadline);
      ghost var before := nodes;
      ghost var head := heads[list];
      HeadIsHomed(nodes, heads, lists, freeHead, free, loose, list);
      Link(index, list, loose);
      LinkKeepsTimers(before, index, list, head);
      forall i | i !in loose - {index} ensures Timed(nodes, now, i) {
        if i != index { assert Timed(before, now, i); }
      }
    }

    // --- public operations --------------------------------------------------------------

    /** Adds one timer under a handle that was never used before. */
    method Schedule(deadline: nat, kind: nat, id: nat) returns (handle: TimerHandle)
      requires Valid() && (freeHead != NIL || |nodes| < NIL)
      modifies this
      ensures Valid() && now == old(now)
      ensures handle !in old(pending) && !old(Retired(handle))
      ensures pending == old(pending)[handle := Timer(deadline, kind, id)]
      ensures forall h :: Retired(h) <==> old(Retired(h))
    {
      var index := Allocate();
      ghost var blank := nodes;
      nodes := nodes[index := nodes[index].(deadline := deadline, id := id, kind := kind)];
      ghost var filled := nodes;
      PartitionFrame(blank, nodes, heads, lists, freeHead, free, {index});
      forall i | i !in {index} ensures Timed(nodes, now, i) { assert Timed(blank, now, i); }
      PendingRewrite(blank, nodes, pending, index);
      Place(index, {index});
      assert {index} - {index} == {};
      PendingAdd(filled, nodes, pending, index);
      handle := TimerHandle(index, nodes[index].generation);
      pending := pending[handle := Timer(deadline, kind, id)];
      size := size + 1;
    }

    /** Removes exactly the timer the handle names; a stale handle changes nothing. */
    method Cancel(handle: TimerHandle) returns (cancelled: bool)
      requires Valid()
      modifies this
      ensures Valid() && now == old(now)
      ensures cancelled <==> handle in old(pending)
      ensures pending == old(pending) - {handle}
      ensures cancelled ==> Retired(handle)
      ensures forall h | h != handle :: Retired(h) <==> old(Retired(h))
      ensures !cancelled ==>
              nodes == old(nodes) && heads == old(heads) && freeHead == old(freeHead) && size == old(size)
    {
      assert Agrees(nodes, pending, handle);
      if handle.index >= |nodes| { return false; }
      var node := nodes[handle.index];
      if node.list == FREE || node.generation != handle.generation { return false; }
      Unlink(handle.index, {});
      assert {} + {handle.index} == {handle.index};
      Release(handle.index, {handle.index});
      assert {handle.index} - {handle.index} == {};
      return true;
    }

    /** Reports a loose node's timer and frees the node. */
    method Fire(index: nat, ghost loose: set<nat>) returns (event: TimerEvent)
      requires Inv(loose) && index in loose && nodes[index].list != FREE
      modifies this`nodes, this`freeHead, this`free, this`pending, this`size
      ensures Inv(loose - {index})
      ensures nodes == Released(old(nodes), index, old(freeHead))
      ensures event.handle == TimerHandle(index, old(nodes)[index].generation) && event.handle in old(pending)
      ensures event.timer == old(pending)[event.handle] == TimerOf(old(nodes)[index])
      ensures pending == old(pending) - {event.handle}
    {
      var node := nodes[index];
      event := TimerEvent(TimerHandle(index, node.generation), TimerOf(node));
      assert Agrees(nodes, pending, event.handle);
      Release(index, loose);
    }

    /** The slot that comes up first, with the tick at which it does. */
    method NextExpiration() returns (best: Option<Expiration>)
      requires Bitmaps(occupied, lists)
      ensures FirstUp(occupied, LEVELS, now, best)
    {
      best := None;
      for level := 0 to LEVELS
        invariant FirstUp(occupied, level, now, best)
      {
        BetterIsFirst(occupied, lists, level, now, best);
        best := Better(best, now, level, occupied[level]);
      }
    }

    /** With nothing on the due list, every pending timer lies in the future. */
    lemma NothingDue()
      requires Valid() && lists[DUE] == []
      ensures forall h | h in pending :: pending[h].deadline > now
    {
      forall h | h in pending ensures pending[h].deadline > now {
        assert Agrees(nodes, pending, h);
        assert Homed(nodes, lists, free, {}, h.index);
        assert Timed(nodes, now, h.index);
        var list := nodes[h.index].list;
        assert list != DUE;
        PlacedNotLate(now, nodes[h.index].deadline, list / SLOTS, list % SLOTS);
      }
    }

    /** The first loop of advance(): everything on the due list fires. */
    method FireDue() returns (fired: seq<TimerEvent>)
      requires Valid()
      modifies this`nodes, this`heads, this`occupied, this`lists, this`freeHead, this`free, this`pending, this`size
      ensures Valid() && lists[DUE] == []
      ensures Fires(old(pending), fired) && pending == Remaining(old(pending), fired)
      ensures AllBy(fired, now)
      ensures Older(old(nodes), nodes)
      ensures old(heads[DUE]) == NIL ==> fired == [] && unchanged(this)
    {
      fired := [];
      ghost var before, start := pending, nodes;
      while heads[DUE] != NIL
        invariant Valid()
        invariant old(heads[DUE]) == NIL ==> fired == [] && unchanged(this)
        invariant Fires(before, fired) && pending == Remaining(before, fired)
        invariant AllBy(fired, now)
        invariant Older(start, nodes)
        decreases size
      {
        var index := heads[DUE];
        DueHead(nodes, heads, lists, freeHead, free);
        assert Timed(nodes, now, index);
        Unlink(index, {});
        assert {} + {index} == {index};
        var event := Fire(index, {index});
        assert {index} - {index} == {};
        FiresNext(before, fired, event);
        fired := fired + [event];
      }
      EmptyIff(nodes, heads, lists, freeHead, free, {}, DUE);
    }

    /** One timer of a slot that came up: it fires if this is its tick and cascades to
        another slot if it is not. */
    method SettleOne(index: nat, level: nat, slot: nat, ghost loose: set<nat>, ghost was: nat)
      returns (fired: Option<TimerEvent>)
      requires Inv(loose) && index in loose
      requires level < LEVELS && slot < SLOTS && now == SlotDeadline(was, level, slot)
      requires lists[DUE] == [] && lists[SLOTS * level + slot] == []
      requires InSlot(nodes, was, level, slot, index)
      modifies this`nodes, this`heads, this`occupied, this`lists, this`freeHead, this`free, this`pending, this`size
      ensures Inv(loose - {index})
      ensures lists[DUE] == [] && lists[SLOTS * level + slot] == []
      ensures Older(old(nodes), nodes) &&
              forall i | i in loose && i != index :: i < |old(nodes)| && nodes[i] == old(nodes)[i]
      ensures fired.None? ==> pending == old(pending)
      ensures fired.Some? ==> var e := fired.value;
                e.handle in old(pending) && e.timer == old(pending)[e.handle] && e.timer.deadline == now &&
                  pending == old(pending) - {e.handle}
    {
      if nodes[index].deadline <= now {
        PlacedNotLate(was, nodes[index].deadline, level, slot);
        var event := Fire(index, loose);
        fired := Some(event);
      } else {
        ghost var walked := nodes;
        CascadeLeavesSlot(was, nodes[index].deadline, level, slot);
        Place(index, loose);
        PendingFrame(walked, nodes, pending);
        fired := None;
      }
    }

    /** Walks a detached slot and settles its timers one by one. */
    method Settle(level: nat, slot: nat, head: nat, ghost detached: seq<nat>, ghost was: nat)
      returns (fired: seq<TimerEvent>)
      requires level < LEVELS && slot < SLOTS && now == SlotDeadline(was, level, slot)
      requires Inv(Elements(detached)) && Walk(nodes, detached) && Distinct(detached) && head == At(detached, 0)
      requires lists[DUE] == [] && lists[SLOTS * level + slot] == []
      requires forall i | i in detached :: InSlot(nodes, was, level, slot, i)
      modifies this`nodes, this`heads, this`occupied, this`lists, this`freeHead, this`free, this`pending, this`size
      ensures Valid() && lists[DUE] == [] && lists[SLOTS * level + slot] == []
      ensures Fires(old(pending), fired) && pending == Remaining(old(pending), fired)
      ensures AllAt(fired, now)
      ensures Older(old(nodes), nodes)
    {
      ghost var before, start := pending, nodes;
      ghost var rest: seq<nat> := detached;
      var index := head;
      fired := [];
      while index != NIL
        invariant Inv(Elements(rest))
        invariant lists[DUE] == [] && lists[SLOTS * level + slot] == []
        invariant Walk(nodes, rest) && Distinct(rest) && index == At(rest, 0)
        invariant forall i | i in rest :: InSlot(nodes, was, level, slot, i)
        invariant Fires(before, fired) && pending == Remaining(before, fired)
        invariant AllAt(fired, now)
        invariant Older(start, nodes)
        decreases |rest|
      {
        assert index in rest;
        WalkTail(nodes, rest);
        var following := nodes[index].next;
        ghost var walked := nodes;
        var event := SettleOne(index, level, slot, Elements(rest), was);
        if event.Some? {
          FiresNext(before, fired, event.value);
          fired := fired + [event.value];
        }
        assert forall i | i in rest[1..] :: i in Elements(rest) && i != index && nodes[i] == walked[i];
        WalkFrame(walked, nodes, rest[1..]);
        rest := rest[1..];
        index := following;
      }
      WalkEnds(nodes, rest);
      assert Elements(rest) == {};
    }

    /** The body of the second loop of advance(): time moves to the tick of the slot
        that comes up first, and the slot is emptied. */
    method ProcessSlot(next: Expiration) returns (fired: seq<TimerEvent>)
      requires Valid() && lists[DUE] == []
      requires FirstUp(occupied, LEVELS, now, Some(next))
      modifies this
      ensures Valid() && lists[DUE] == [] && lists[SLOTS * next.level + next.slot] == []
      ensures now == next.deadline > old(now)
      ensures Fires(old(pending), fired) && pending == Remaining(old(pending), fired)
      ensures AllAt(fired, now)
      ensures Older(old(nodes), nodes)
    {
      var list := SLOTS * next.level + next.slot;
      ghost var detached, was := lists[list], now;
      SlotMoves(nodes, heads, lists, freeHead, free, occupied, now, next);
      PartitionDetach(nodes, heads, lists, freeHead, free, list);
      BitmapsUpdate(occupied, lists, list, []);
      assert list / SLOTS == next.level && list % SLOTS == next.slot;
      now := next.deadline;
      var index := heads[list];
      heads := heads[list := NIL];
      lists := lists[list := []];
      occupied := occupied[next.level := occupied[next.level] - {next.slot}];
      fired := Settle(next.level, next.slot, index, detached, was);
    }

    /** The second loop of advance(): slots are processed in the order they come up. */
    method ProcessSlots(target: nat) returns (fired: seq<TimerEvent>)
      requires Valid() && lists[DUE] == [] && now < target
      modifies this
      ensures Valid() && lists[DUE] == [] && now == target
      ensures Fires(old(pending), fired) && pending == Remaining(old(pending), fired)
      ensures AllBy(fired, now) && InOrder(fired, old(now))
      ensures Older(old(nodes), nodes)
      ensures old(Rests(nodes, now, target)) ==> fired == [] && nodes == old(nodes)
      ensures old(Rests(nodes, now, target - 1)) && !old(Rests(nodes, now, target)) ==>
              Stirred(old(nodes), nodes, fired)
    {
      hide Rests, Stirred, Fires, Remaining, AllBy, InOrder, Older;
      ghost var before, start, origin := pending, nodes, now;
      fired := [];
      NoneYet(before, start, origin);
      var next := NextExpiration();
      ghost var first := next;
      RestsUntil(nodes, heads, lists, freeHead, free, occupied, now, first, target);
      RestsUntil(nodes, heads, lists, freeHead, free, occupied, now, first, target - 1);
      ghost var moved: nat := 0;
      if first.Some? { moved := FirstOfSlot(nodes, heads, lists, freeHead, free, occupied, first.value); }
      while next.Some? && next.value.deadline <= target
        invariant Valid() && lists[DUE] == []
        invariant origin <= now <= target
        invariant now == origin ==> next == first && fired == [] && nodes == start
        invariant now != origin ==> first.Some? && first.value.deadline <= now
        invariant now != origin && now == first.value.deadline ==> lists[start[moved].list] == []
        invariant FirstUp(occupied, LEVELS, now, next)
        invariant Fires(before, fired) && pending == Remaining(before, fired)
        invariant AllBy(fired, now) && InOrder(fired, origin)
        invariant Older(start, nodes) && |start| <= |nodes|
        decreases target - now
      {
        ghost var was, slab := now, nodes;
        var batch := ProcessSlot(next.value);
        FiresAppend(before, fired, batch);
        InOrderAppend(fired, batch, origin, was, now);
        OlderThrough(start, slab, nodes);
        fired := fired + batch;
        next := NextExpiration();
      }
      AllByLater(fired, now, target);
      SlotsWait(nodes, heads, lists, freeHead, free, occupied, now, target, next);
      if first.Some? && first.value.deadline == target {
        EmptiedStirs(start, nodes, heads, lists, freeHead, free, fired, start[moved].list, moved);
      }
      now := target;
    }

    /** Moves time forward and reports every timer whose deadline has come. */
    method Advance(target: nat) returns (fired: seq<TimerEvent>)
      requires Valid()
      modifies this
      ensures Valid()
      ensures now == Max(old(now), target)
      ensures Accounted(old(pending), pending, fired)
      ensures AllBy(fired, now)
      ensures forall h | h in pending :: pending[h].deadline > now
      ensures InOrder(fired, old(now))
      ensures forall h | old(Retired(h)) :: Retired(h)
      ensures forall h | h in old(pending) && h !in pending :: Retired(h)
      ensures old(Rests(nodes, now, Max(now, target))) ==> fired == [] && nodes == old(nodes)
      ensures target >= old(now) && (target == old(now) || old(Rests(nodes, now, target - 1))) &&
              !old(Rests(nodes, now, target)) ==>
                Stirred(old(nodes), nodes, fired)
    {
      hide Partition, Bitmaps, Timed, Pending, Older, Fires, Accounted, InOrder, AllBy, Rests;
      ghost var before, start, origin := pending, nodes, now;
      EmptyIff(nodes, heads, lists, freeHead, free, {}, DUE);
      ghost var due := DueIfNot(nodes, heads, lists, freeHead, free, pending, now);
      fired := FireDue();
      NoneYet(before, start, origin);
      InOrderDue(fired, [], origin, origin);
      assert fired + [] == fired;
      if target > now {
        ghost var slab := nodes;
        var later := ProcessSlots(target);
        FiresAppend(before, fired, later);
        InOrderDue(fired, later, origin, now);
        OlderThrough(start, slab, nodes);
        fired := fired + later;
      }
      NothingDue();
      FiresIsAccounted(before, fired);
      forall h | h in before && h !in pending ensures Retired(h) { GoneIsStale(start, nodes, before, pending, h); }
    }

    /** The earliest tick at which advance() has work to do: until then every timer rests where it
        is, and then one fires or moves. It is never after a deadline, and it is the earliest
        deadline itself once that differs from now in the lowest digit only. */
    method NextWakeup() returns (tick: Option<nat>)
      requires Valid()
      ensures tick.None? <==> pending == map[]
      ensures tick.Some? ==> tick.value >= now && forall h | h in pending :: tick.value <= Max(pending[h].deadline, now)
      ensures tick.Some? ==> (tick.value > now <==> forall h | h in pending :: pending[h].deadline > now)
      ensures tick.Some? ==>
                && (forall t: nat | now <= t < tick.value :: Rests(nodes, now, t))
                && !Rests(nodes, now, tick.value)
      ensures forall h | h in pending && pending[h].deadline > now && Shr(pending[h].deadline, 1) == Shr(now, 1) &&
                         (forall g | g in pending :: pending[h].deadline <= pending[g].deadline) ::
                tick == Some(pending[h].deadline)
    {
      ghost var due := DueIfNot(nodes, heads, lists, freeHead, free, pending, now);
      EmptyIff(nodes, heads, lists, freeHead, free, {}, DUE);
      if heads[DUE] != NIL { return Some(now); }
      var next := NextExpiration();
      NothingDue();
      forall t: nat ensures Rests(nodes, now, t) <==> next.None? || t < next.value.deadline {
        RestsUntil(nodes, heads, lists, freeHead, free, occupied, now, next, t);
      }
      if next.Some? {
        SlotHoldsTimer(nodes, heads, lists, freeHead, free, occupied, pending, next.value);
        SlotDeadlineIsNextIndex(now, next.value.level, next.value.slot);
        forall h | h in pending ensures next.value.deadline <= pending[h].deadline {
          assert Agrees(nodes, pending, h);
          WakesInTime(nodes, heads, lists, freeHead, free, occupied, now, next, h.index);
        }
        forall h | h in pending && Shr(pending[h].deadline, 1) == Shr(now, 1) &&
                   (forall g | g in pending :: pending[h].deadline <= pending[g].deadline)
          ensures next.value.deadline == pending[h].deadline
        {
          EarliestInSlots(pending[h].deadline);
          WakesExactly(nodes, heads, lists, freeHead, free, occupied, now, next.value, pending[h].deadline);
        }
        return Some(next.value.deadline);
      }
      forall h | h in pending ensures false {
        assert Agrees(nodes, pending, h);
        WakesInTime(nodes, heads, lists, freeHead, free, occupied, now, next, h.index);
      }
      return None;
    }

    lemma EarliestInSlots(deadline: nat)
      requires Valid() && forall g | g in pending :: deadline <= pending[g].deadline
      ensures forall i | 0 <= i < |nodes| && nodes[i].list < DUE :: deadline <= nodes[i].deadline
    {
      forall i | 0 <= i < |nodes| && nodes[i].list < DUE ensures deadline <= nodes[i].deadline {
        assert Agrees(nodes, pending, TimerHandle(i, nodes[i].generation));
      }
    }
  }
}
