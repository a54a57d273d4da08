/** The ready heap of a queue: a binary heap of jobs that knows where each job is. */
module ReadyHeaps {

  /** What orders a job, and its id. */
  datatype Entry = Entry(priority: int, runAt: int, id: nat)

  /** Higher priority first, then the earlier run time, then the smaller id. */
  predicate Before(a: Entry, b: Entry) {
    if a.priority != b.priority then a.priority > b.priority
    else if a.runAt != b.runAt then a.runAt < b.runAt
    else a.id < b.id
  }

  lemma NotBeforeIsTransitive(a: Entry, b: Entry, c: Entry)
    requires !Before(b, a) && !Before(c, b)
    ensures !Before(c, a)
  {
  }

  /** `heap` is the array; `index` is the position each job carries while it is in it. */
  datatype Heap = Heap(heap: seq<Entry>, index: map<nat, nat>)

  const EMPTY := Heap([], map[])

  function Parent(i: nat): nat
    requires i > 0
  {
    (i - 1) / 2
  }

  ghost predicate OrderedAt(g: seq<Entry>, k: nat) {
    0 < k < |g| ==> !Before(g[k], g[Parent(k)])
  }

  ghost predicate Ordered(g: seq<Entry>) {
    forall k: nat :: OrderedAt(g, k)
  }

  /** Each job is where its index says, and nowhere else. */
  ghost predicate Indexed(g: seq<Entry>, index: map<nat, nat>) {
    && (forall i | 0 <= i < |g| :: g[i].id in index && index[g[i].id] == i)
    && (forall id | id in index :: index[id] < |g| && g[index[id]].id == id)
  }

  /** is_consistent() */
  ghost predicate Consistent(h: Heap) {
    Ordered(h.heap) && Indexed(h.heap, h.index)
  }

  ghost predicate SameElements(g: seq<Entry>, g': seq<Entry>) {
    |g| == |g'| && forall e :: e in g <==> e in g'
  }

  /** The children of c are ordered against the parent of c. */
  ghost predicate Grand(g: seq<Entry>, c: nat) {
    c > 0 ==> forall k | 0 < k < |g| && Parent(k) == c :: !Before(g[k], g[Parent(c)])
  }

  /** Ordered everywhere but at `up` against its parent and at the children of `down`. */
  ghost predicate OrderedBut(g: seq<Entry>, up: nat, down: nat) {
    forall k: nat :: k != up && (k > 0 ==> Parent(k) != down) ==> OrderedAt(g, k)
  }

  function Swap(g: seq<Entry>, i: nat, j: nat): seq<Entry>
    requires i < |g| && j < |g|
  {
    g[i := g[j]][j := g[i]]
  }

  lemma SwapKeeps(g: seq<Entry>, index: map<nat, nat>, i: nat, j: nat)
    requires i < |g| && j < |g| && Indexed(g, index)
    ensures SameElements(g, Swap(g, i, j))
    ensures Indexed(Swap(g, i, j), index[g[j].id := i][g[i].id := j])
  {
    var g' := Swap(g, i, j);
    forall e | e in g ensures e in g' {
      var k :| 0 <= k < |g| && g[k] == e;
      assert g'[if k == i then j else if k == j then i else k] == e;
    }
  }

  /** One step up: the hole and its parent change places. */
  lemma StepUp(g: seq<Entry>, i: nat, down: nat)
    requires 0 < i < |g| && OrderedBut(g, i, down) && Grand(g, i) && (down == i || down >= |g|)
    requires Before(g[i], g[Parent(i)])
    ensures OrderedBut(Swap(g, i, Parent(i)), Parent(i), |g|) && Grand(Swap(g, i, Parent(i)), Parent(i))
  {
    var p := Parent(i);
    var g' := Swap(g, i, p);
    forall k: nat | k != p && (k > 0 ==> Parent(k) != |g|) ensures OrderedAt(g', k) {
      if 0 < k < |g| && k != i && Parent(k) != i {
        assert OrderedAt(g, k);
        if Parent(k) == p { NotBeforeIsTransitive(g[i], g[p], g[k]); }
      }
    }
    if p > 0 {
      assert OrderedAt(g, p);
      forall k | 0 < k < |g| && Parent(k) == p ensures !Before(g'[k], g'[Parent(p)]) {
        if k != i {
          assert OrderedAt(g, k);
          NotBeforeIsTransitive(g[Parent(p)], g[p], g[k]);
        }
      }
    }
  }

  /** One step down: the hole and its first child change places. */
  lemma StepDown(g: seq<Entry>, i: nat, child: nat)
    requires i < |g| && OrderedBut(g, |g|, i) && Grand(g, i)
    requires 0 < child < |g| && Parent(child) == i && Before(g[child], g[i])
    requires forall k | 0 < k < |g| && Parent(k) == i :: !Before(g[k], g[child])
    ensures OrderedBut(Swap(g, i, child), |g|, child) && Grand(Swap(g, i, child), child)
  {
    var g' := Swap(g, i, child);
    forall k: nat | k != |g| && (k > 0 ==> Parent(k) != child) ensures OrderedAt(g', k) {
      if 0 < k < |g| && k != i && Parent(k) != i { assert OrderedAt(g, k); }
    }
    forall k | 0 < k < |g| && Parent(k) == child ensures !Before(g'[k], g'[i]) { assert OrderedAt(g, k); }
  }

  lemma AllOrdered(g: seq<Entry>, up: nat, down: nat)
    requires OrderedBut(g, up, down) && OrderedAt(g, up)
    requires forall k | 0 < k < |g| && Parent(k) == down :: !Before(g[k], g[down])
    ensures Ordered(g)
  {
    forall k: nat ensures OrderedAt(g, k) { }
  }

  /** Moves the job at `start` up to where it belongs. While it runs, the job is in no
      slot: its place is the hole at `i`. */
  method SiftUp(h: Heap, start: nat) returns (r: Heap, at: nat)
    requires start < |h.heap| && Indexed(h.heap, h.index) && OrderedBut(h.heap, start, start) && Grand(h.heap, start)
    ensures at <= start && at < |r.heap| && r.heap[at] == h.heap[start]
    ensures SameElements(h.heap, r.heap) && Indexed(r.heap, r.index)
    ensures if at == start then r == h && OrderedAt(h.heap, start) else Ordered(r.heap)
  {
    hide Before, Indexed, OrderedBut, Grand, Ordered;
    var job := h.heap[start];
    var heap, index: map<nat, nat>, i: nat := h.heap, h.index, start;
    assert heap[i := job] == heap;
    SameIndex(h.heap, h.index, start);
    while i > 0
      invariant i <= start && |heap| == |h.heap|
      invariant SameElements(h.heap, heap[i := job]) && Indexed(heap[i := job], index[job.id := i])
      invariant OrderedBut(heap[i := job], i, if i == start then start else |heap|) && Grand(heap[i := job], i)
      invariant i == start ==> heap == h.heap && index == h.index
    {
      var parent: nat := (i - 1) / 2;
      if !Before(job, heap[parent]) { break; }
      ghost var g, was: map<nat, nat> := heap[i := job], index[job.id := i];
      SwapKeeps(g, index[job.id := i], i, parent);
      StepUp(g, i, if i == start then start else |heap|);
      heap := heap[i := heap[parent]];
      index := index[heap[i].id := i];
      assert heap[parent := job] == Swap(g, i, parent);
      OtherIndex(g, was, i, parent);
      assert index[job.id := parent] == was[g[parent].id := i][job.id := parent];
      i := parent;
    }
    heap := heap[i := job];
    index := index[job.id := i];
    if i != start { AllOrdered(heap, i, |heap|); }
    return Heap(heap, index), i;
  }

  lemma SameIndex(g: seq<Entry>, index: map<nat, nat>, i: nat)
    requires Indexed(g, index) && i < |g|
    ensures index[g[i].id := i] == index
  {
  }

  lemma OtherIndex(g: seq<Entry>, index: map<nat, nat>, i: nat, j: nat)
    requires Indexed(g, index) && i < |g| && j < |g| && i != j
    ensures g[i].id != g[j].id
  {
  }

  /** Moves the job at `start` down to where it belongs. */
  method SiftDown(h: Heap, start: nat) returns (r: Heap)
    requires start < |h.heap| && Indexed(h.heap, h.index) && OrderedBut(h.heap, |h.heap|, start) && Grand(h.heap, start)
    ensures SameElements(h.heap, r.heap) && Consistent(r)
  {
    hide Before, Indexed, OrderedBut, Grand, Ordered;
    var job := h.heap[start];
    var heap, index: map<nat, nat>, i: nat := h.heap, h.index, start;
    assert heap[i := job] == heap;
    SameIndex(h.heap, h.index, start);
    while true
      invariant i < |heap| == |h.heap|
      invariant SameElements(h.heap, heap[i := job]) && Indexed(heap[i := job], index[job.id := i])
      invariant OrderedBut(heap[i := job], |heap|, i) && Grand(heap[i := job], i)
      decreases |heap| - i
    {
      ghost var g, was: map<nat, nat> := heap[i := job], index[job.id := i];
      var child: nat := 2 * i + 1;
      if child >= |heap| {
        AllOrdered(g, |heap|, i);
        break;
      }
      if child + 1 < |heap| && Before(heap[child + 1], heap[child]) { child := child + 1; }
      FirstChild(g, i, child);
      if !Before(heap[child], job) {
        forall k | 0 < k < |g| && Parent(k) == i ensures !Before(g[k], g[i]) {
          NotBeforeIsTransitive(g[i], g[child], g[k]);
        }
        AllOrdered(g, |heap|, i);
        break;
      }
      SwapKeeps(g, index[job.id := i], i, child);
      StepDown(g, i, child);
      heap := heap[i := heap[child]];
      index := index[heap[i].id := i];
      assert heap[child := job] == Swap(g, i, child);
      OtherIndex(g, was, i, child);
      assert index[job.id := child] == was[g[child].id := i][job.id := child];
      i := child;
    }
    return Heap(heap[i := job], index[job.id := i]);
  }

  /** Of two children, the one that was chosen comes first. */
  lemma FirstChild(g: seq<Entry>, i: nat, child: nat)
    requires i < |g| && 2 * i + 1 <= child <= 2 * i + 2 && child < |g|
    requires child == 2 * i + 1 ==> child + 1 < |g| ==> !Before(g[child + 1], g[child])
    requires child == 2 * i + 2 ==> Before(g[child], g[child - 1])
    ensures Parent(child) == i && forall k | 0 < k < |g| && Parent(k) == i :: !Before(g[k], g[child])
  {
  }

  method Push(h: Heap, job: Entry) returns (r: Heap)
    requires Consistent(h) && job.id !in h.index
    ensures Consistent(r) && (forall e :: e in r.heap <==> e in h.heap || e == job) && |r.heap| == |h.heap| + 1
  {
    hide Before;
    var last := |h.heap|;
    var grown := Heap(h.heap + [job], h.index[job.id := last]);
    forall k: nat | k != last ensures OrderedAt(grown.heap, k) { assert OrderedAt(h.heap, k); }
    assert forall k: nat | 0 < k :: Parent(k) < k;
    var at;
    r, at := SiftUp(grown, last);
    if at == last { AllOrdered(grown.heap, last, last); }
  }

  /** Takes a job out, wherever it is: the last one moves into the hole. */
  method Remove(h: Heap, id: nat) returns (r: Heap)
    requires Consistent(h) && id in h.index
    ensures Consistent(r) && (forall e :: e in r.heap <==> e in h.heap && e.id != id) && |r.heap| == |h.heap| - 1
  {
    hide Before, Ordered, Indexed, OrderedBut, Grand;
    HoleIsThere(h, id);
    var hole, end := h.index[id], |h.heap| - 1;
    var last := h.heap[end];
    if last.id == id {
      PopLast(h);
      return Heap(h.heap[..end], h.index - {id});
    }
    var moved := Heap(h.heap[..end][hole := last], (h.index - {id})[last.id := hole]);
    FillHole(h, id);
    var at;
    r, at := SiftUp(moved, hole);
    if at == hole {
      OnlyDown(moved.heap, hole);
    } else {
      OrderedEverywhere(r.heap, at);
    }
    r := SiftDown(r, at);
  }

  lemma HoleIsThere(h: Heap, id: nat)
    requires Consistent(h) && id in h.index
    ensures h.index[id] < |h.heap| && h.heap[h.index[id]].id == id
  {
  }

  /** The last job in the place of the one that left. */
  lemma FillHole(h: Heap, id: nat)
    requires Consistent(h) && id in h.index && h.heap[|h.heap| - 1].id != id
    ensures var hole, end := h.index[id], |h.heap| - 1;
            var last := h.heap[end];
            var g, index := h.heap[..end][hole := last], (h.index - {id})[last.id := hole];
            && hole < end && Indexed(g, index) && OrderedBut(g, hole, hole) && Grand(g, hole)
            && forall e :: e in g <==> e in h.heap && e.id != id
  {
    FillHoleOrder(h.heap, h.index[id]);
    FillHoleElements(h.heap, h.index, h.index[id]);
  }

  lemma FillHoleOrder(heap: seq<Entry>, hole: nat)
    requires Ordered(heap) && hole < |heap| - 1
    ensures var g := heap[..|heap| - 1][hole := heap[|heap| - 1]];
            OrderedBut(g, hole, hole) && Grand(g, hole)
  {
    hide Before;
    var g := heap[..|heap| - 1][hole := heap[|heap| - 1]];
    forall k: nat | k != hole && (k > 0 ==> Parent(k) != hole) ensures OrderedAt(g, k) { assert OrderedAt(heap, k); }
    if hole > 0 {
      forall k | 0 < k < |g| && Parent(k) == hole ensures !Before(g[k], g[Parent(hole)]) {
        assert OrderedAt(heap, k) && OrderedAt(heap, hole);
        NotBeforeIsTransitive(heap[Parent(hole)], heap[hole], heap[k]);
      }
    }
  }

  lemma FillHoleElements(heap: seq<Entry>, index: map<nat, nat>, hole: nat)
    requires Indexed(heap, index) && hole < |heap| - 1
    ensures var end := |heap| - 1;
            var id, last := heap[hole].id, heap[end];
            var g := heap[..end][hole := last];
            && Indexed(g, (index - {id})[last.id := hole])
            && forall e :: e in g <==> e in heap && e.id != id
  {
    hide Before;
    var end := |heap| - 1;
    var id, last := heap[hole].id, heap[end];
    var g := heap[..end][hole := last];
    forall e | e in heap && e.id != id ensures e in g {
      var k :| 0 <= k < |heap| && heap[k] == e;
      assert g[if k == end then hole else k] == e;
    }
    forall e | e in g ensures e in heap && e.id != id {
      var k :| 0 <= k < |g| && g[k] == e;
      assert heap[if k == hole then end else k] == e;
    }
  }

  lemma OnlyDown(g: seq<Entry>, i: nat)
    requires OrderedBut(g, i, i) && OrderedAt(g, i) && i < |g|
    ensures OrderedBut(g, |g|, i)
  {
    forall k: nat | k != |g| && (k > 0 ==> Parent(k) != i) ensures OrderedAt(g, k) { }
  }

  lemma OrderedEverywhere(g: seq<Entry>, i: nat)
    requires Ordered(g) && i < |g|
    ensures OrderedBut(g, |g|, i) && Grand(g, i)
  {
    hide Before;
    if i > 0 {
      forall k | 0 < k < |g| && Parent(k) == i ensures !Before(g[k], g[Parent(i)]) {
        assert OrderedAt(g, k) && OrderedAt(g, i);
        NotBeforeIsTransitive(g[Parent(i)], g[i], g[k]);
      }
    }
  }

  /** The top comes before every other job in the heap. */
  lemma {:induction false} TopIsFirst(h: Heap, i: nat)
    requires Consistent(h) && i < |h.heap|
    ensures i == 0 || Before(h.heap[0], h.heap[i])
  {
    if i > 0 {
      var p := Parent(i);
      TopIsFirst(h, p);
      assert OrderedAt(h.heap, i);
      assert h.heap[i].id != h.heap[p].id && h.heap[i].id != h.heap[0].id;
    }
  }

  lemma PopLast(h: Heap)
    requires Consistent(h) && h.heap != []
    ensures var end := |h.heap| - 1; var r := Heap(h.heap[..end], h.index - {h.heap[end].id});
            && Consistent(r) && forall e :: e in r.heap <==> e in h.heap && e.id != h.heap[end].id
  {
    var end := |h.heap| - 1;
    forall k: nat ensures OrderedAt(h.heap[..end], k) { assert OrderedAt(h.heap, k); }
    forall e | e in h.heap && e.id != h.heap[end].id ensures e in h.heap[..end] {
      var k :| 0 <= k < |h.heap| && h.heap[k] == e;
      assert h.heap[..end][k] == e;
    }
  }
}
