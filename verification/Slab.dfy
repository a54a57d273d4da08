/**
 The slab of the timing wheel: nodes linked by index into doubly linked lists, and
 a singly linked free list. The lists are given as sequences of indices, and the
 lemmas say what one link or unlink does to the list it touches and that it leaves
 every other list alone.
 */
module Slab {

  const NIL: nat := 0xFFFF_FFFF
  /** Slot lists are numbered 64 * level + slot; two more ids follow them. */
  const DUE: nat := 384
  const FREE: nat := 385

  datatype Node = Node(deadline: nat, id: nat, prev: nat, next: nat, generation: nat, list: nat, kind: nat)

  function At(s: seq<nat>, k: int): nat {
    if 0 <= k < |s| then s[k] else NIL
  }

  ghost function Elements(s: seq<nat>): set<nat> {
    set i | i in s
  }

  ghost predicate Distinct(s: seq<nat>) {
    forall j, k :: 0 <= j < k < |s| ==> s[j] != s[k]
  }

  /** The k-th element of s leads to the next one. */
  ghost predicate Leads(nodes: seq<Node>, s: seq<nat>, k: int) {
    0 <= k < |s| ==> s[k] < |nodes| && nodes[s[k]].next == At(s, k + 1)
  }

  /** s is what one walks through by `next`, starting at its first element. */
  ghost predicate Walk(nodes: seq<Node>, s: seq<nat>) {
    forall k :: Leads(nodes, s, k)
  }

  /** The k-th element of s is linked to both neighbours and knows its list. */
  ghost predicate Member(nodes: seq<Node>, s: seq<nat>, list: nat, k: int) {
    && Leads(nodes, s, k)
    && (0 <= k < |s| ==> nodes[s[k]].list == list && nodes[s[k]].prev == At(s, k - 1))
  }

  /** s is exactly the doubly linked list `list`. */
  ghost predicate Chain(nodes: seq<Node>, s: seq<nat>, list: nat, head: nat) {
    && |nodes| <= NIL
    && Distinct(s)
    && head == At(s, 0)
    && forall k :: Member(nodes, s, list, k)
  }

  lemma ChainWalk(nodes: seq<Node>, s: seq<nat>, list: nat, head: nat)
    requires Chain(nodes, s, list, head)
    ensures Walk(nodes, s)
    ensures forall i | i in s :: i < |nodes| && nodes[i].list == list
  {
    forall k ensures Leads(nodes, s, k) { assert Member(nodes, s, list, k); }
    forall i | i in s ensures i < |nodes| && nodes[i].list == list {
      var k :| 0 <= k < |s| && s[k] == i;
      assert Member(nodes, s, list, k);
    }
  }

  predicate SameLinks(a: Node, b: Node) {
    a.prev == b.prev && a.next == b.next && a.list == b.list
  }

  /** A chain survives any change that keeps the links of its own nodes. */
  lemma ChainFrame(nodes: seq<Node>, nodes': seq<Node>, s: seq<nat>, list: nat, head: nat)
    requires Chain(nodes, s, list, head)
    requires |nodes| <= |nodes'| <= NIL
    requires forall i | i in s :: i < |nodes| && SameLinks(nodes[i], nodes'[i])
    ensures Chain(nodes', s, list, head)
  {
    forall k ensures Member(nodes', s, list, k) {
      assert Member(nodes, s, list, k);
      if 0 <= k < |s| { assert s[k] in s; }
    }
  }

  lemma WalkFrame(nodes: seq<Node>, nodes': seq<Node>, s: seq<nat>)
    requires Walk(nodes, s)
    requires |nodes| <= |nodes'|
    requires forall i | i in s :: i < |nodes| && nodes'[i].next == nodes[i].next
    ensures Walk(nodes', s)
  {
    forall k ensures Leads(nodes', s, k) {
      assert Leads(nodes, s, k);
      if 0 <= k < |s| { assert s[k] in s; }
    }
  }

  lemma WalkTail(nodes: seq<Node>, s: seq<nat>)
    requires Walk(nodes, s) && s != [] && Distinct(s)
    ensures s[0] < |nodes| && nodes[s[0]].next == At(s[1..], 0)
    ensures Walk(nodes, s[1..]) && Distinct(s[1..]) && s[0] !in s[1..]
    ensures Elements(s[1..]) == Elements(s) - {s[0]}
  {
    assert s == [s[0]] + s[1..];
    assert Leads(nodes, s, 0);
    forall k ensures Leads(nodes, s[1..], k) { assert Leads(nodes, s, k + 1); }
  }

  /** A walk that starts at NIL is empty. */
  lemma WalkEnds(nodes: seq<Node>, s: seq<nat>)
    requires Walk(nodes, s) && |nodes| <= NIL && At(s, 0) == NIL
    ensures s == []
  {
    assert Leads(nodes, s, 0);
  }

  // --- link -----------------------------------------------------------------------

  /** The node array after link(): the node becomes the head of the list. */
  function Linked(nodes: seq<Node>, index: nat, list: nat, head: nat): (r: seq<Node>)
    requires index < |nodes| && (head == NIL || head < |nodes|)
    ensures |r| == |nodes|
  {
    var r := nodes[index := nodes[index].(list := list, prev := NIL, next := head)];
    if head != NIL then r[head := r[head].(prev := index)] else r
  }

  lemma LinkExtends(nodes: seq<Node>, s: seq<nat>, index: nat, list: nat, head: nat)
    requires Chain(nodes, s, list, head) && index < |nodes| && index !in s
    ensures head == NIL || head < |nodes|
    ensures Chain(Linked(nodes, index, list, head), [index] + s, list, index)
  {
    assert Member(nodes, s, list, 0);
    var r := Linked(nodes, index, list, head);
    var t := [index] + s;
    forall k ensures Member(r, t, list, k) {
      assert Member(nodes, s, list, k - 1);
      if k == 1 < |t| {
        assert r[t[1]] == nodes[s[0]].(prev := index);
      } else if 1 < k < |t| {
        assert s[k - 1] != s[0] && s[k - 1] in s;
        assert r[t[k]] == nodes[s[k - 1]];
      }
    }
  }

  // --- unlink ---------------------------------------------------------------------

  /** The node array after unlink(): the neighbours are joined. */
  function Unlinked(nodes: seq<Node>, index: nat): (r: seq<Node>)
    requires index < |nodes|
    requires nodes[index].prev == NIL || nodes[index].prev < |nodes|
    requires nodes[index].next == NIL || nodes[index].next < |nodes|
    ensures |r| == |nodes|
  {
    var node := nodes[index];
    var r := if node.prev != NIL then nodes[node.prev := nodes[node.prev].(next := node.next)] else nodes;
    if node.next != NIL then r[node.next := r[node.next].(prev := node.prev)] else r
  }

  function Without(s: seq<nat>, k: nat): (r: seq<nat>)
    requires k < |s|
    ensures |r| == |s| - 1
  {
    s[..k] + s[k + 1..]
  }

  lemma WithoutMembers(s: seq<nat>, k: nat)
    requires k < |s| && Distinct(s)
    ensures Distinct(Without(s, k))
    ensures forall i :: i in Without(s, k) <==> i in s && i != s[k]
  {
    var t := Without(s, k);
    forall i | i in s && i != s[k] ensures i in t {
      var j :| 0 <= j < |s| && s[j] == i;
      assert t[if j < k then j else j - 1] == i;
    }
  }

  lemma UnlinkShrinks(nodes: seq<Node>, s: seq<nat>, k: nat, list: nat, head: nat)
    requires Chain(nodes, s, list, head) && k < |s|
    ensures s[k] < |nodes|
    ensures var node := nodes[s[k]];
            && (node.prev == NIL || (node.prev < |nodes| && node.prev in s))
            && (node.next == NIL || (node.next < |nodes| && node.next in s))
            && Chain(Unlinked(nodes, s[k]), Without(s, k), list, if node.prev == NIL then node.next else head)
  {
    assert Member(nodes, s, list, k - 1) && Member(nodes, s, list, k) && Member(nodes, s, list, k + 1);
    var r := Unlinked(nodes, s[k]);
    var t := Without(s, k);
    WithoutMembers(s, k);
    forall j ensures Member(r, t, list, j) {
      if 0 <= j < |t| {
        var m := if j < k then j else j + 1;
        assert t[j] == s[m];
        assert Member(nodes, s, list, m);
        assert m != k - 1 ==> At(s, k - 1) != s[m];
        assert m != k + 1 ==> At(s, k + 1) != s[m];
        assert At(t, j + 1) == if j + 1 < k then At(s, j + 1) else At(s, j + 2);
        assert At(t, j - 1) == if j - 1 < k then At(s, j - 1) else At(s, j);
      }
    }
  }

  /** Unlinking touches only nodes of the same list, and not the node itself. */
  lemma UnlinkFrame(nodes: seq<Node>, s: seq<nat>, k: nat, list: nat, head: nat, i: nat)
    requires Chain(nodes, s, list, head) && k < |s|
    requires i < |nodes| && (i !in s || i == s[k])
    ensures s[k] < |nodes| && (nodes[s[k]].prev == NIL || nodes[s[k]].prev < |nodes|)
    ensures nodes[s[k]].next == NIL || nodes[s[k]].next < |nodes|
    ensures Unlinked(nodes, s[k])[i] == nodes[i]
  {
    assert Member(nodes, s, list, k - 1) && Member(nodes, s, list, k) && Member(nodes, s, list, k + 1);
  }

  // --- the whole slab ---------------------------------------------------------------

  /** Where a node is: on its list, on the free list, or loose between two lists. */
  ghost predicate Homed(nodes: seq<Node>, lists: seq<seq<nat>>, free: seq<nat>, loose: set<nat>, i: nat)
    requires i < |nodes| && |lists| == FREE
  {
    && nodes[i].list <= FREE
    && (i in (if nodes[i].list == FREE then free else lists[nodes[i].list]) <==> i !in loose)
  }

  ghost predicate ListOk(nodes: seq<Node>, heads: seq<nat>, lists: seq<seq<nat>>, l: nat)
    requires |heads| == |lists| == FREE
  {
    l < FREE ==> Chain(nodes, lists[l], l, heads[l])
  }

  /** The slab is partitioned: every node that is not loose is on exactly the list it
      names, and the links agree with the lists. */
  ghost predicate Partition(nodes: seq<Node>, heads: seq<nat>, lists: seq<seq<nat>>,
                            freeHead: nat, free: seq<nat>, loose: set<nat>)
  {
    && |heads| == |lists| == FREE
    && |nodes| <= NIL
    && (forall l: nat :: ListOk(nodes, heads, lists, l))
    && Distinct(free) && Walk(nodes, free) && freeHead == At(free, 0)
    && (forall i | i in free :: i < |nodes| && nodes[i].list == FREE)
    && (forall i | i in loose :: i < |nodes|)
    && (forall i | 0 <= i < |nodes| :: Homed(nodes, lists, free, loose, i))
  }

  /** Any node on a list is homed there and nowhere else. */
  lemma OnItsList(nodes: seq<Node>, heads: seq<nat>, lists: seq<seq<nat>>,
                  freeHead: nat, free: seq<nat>, loose: set<nat>, l: nat)
    requires Partition(nodes, heads, lists, freeHead, free, loose) && l < FREE
    ensures forall i | i in lists[l] :: i < |nodes| && nodes[i].list == l && i !in loose && i !in free
  {
    assert ListOk(nodes, heads, lists, l);
    ChainWalk(nodes, lists[l], l, heads[l]);
    forall i | i in lists[l] ensures i < |nodes| && nodes[i].list == l && i !in loose && i !in free {
      assert Homed(nodes, lists, free, loose, i);
    }
  }

  /** Rewriting what a node carries, without its links, changes no list. */
  lemma PartitionFrame(nodes: seq<Node>, nodes': seq<Node>, heads: seq<nat>, lists: seq<seq<nat>>,
                       freeHead: nat, free: seq<nat>, loose: set<nat>)
    requires Partition(nodes, heads, lists, freeHead, free, loose)
    requires |nodes'| == |nodes| && forall i | 0 <= i < |nodes| :: SameLinks(nodes[i], nodes'[i])
    ensures Partition(nodes', heads, lists, freeHead, free, loose)
  {
    forall m: nat ensures ListOk(nodes', heads, lists, m) {
      assert ListOk(nodes, heads, lists, m);
      if m < FREE {
        OnItsList(nodes, heads, lists, freeHead, free, loose, m);
        ChainFrame(nodes, nodes', lists[m], m, heads[m]);
      }
    }
    WalkFrame(nodes, nodes', free);
    forall i | 0 <= i < |nodes'| ensures Homed(nodes', lists, free, loose, i) {
      assert Homed(nodes, lists, free, loose, i);
    }
  }

  lemma PartitionLink(nodes: seq<Node>, heads: seq<nat>, lists: seq<seq<nat>>,
                      freeHead: nat, free: seq<nat>, loose: set<nat>, index: nat, l: nat)
    requires Partition(nodes, heads, lists, freeHead, free, loose)
    requires index in loose && l < FREE
    ensures heads[l] == NIL || heads[l] < |nodes|
    ensures Partition(Linked(nodes, index, l, heads[l]), heads[l := index], lists[l := [index] + lists[l]],
                      freeHead, free, loose - {index})
  {
    forall m | 0 <= m < FREE ensures index !in lists[m] { OnItsList(nodes, heads, lists, freeHead, free, loose, m); }
    assert index !in free by { assert Homed(nodes, lists, free, loose, index); }
    assert ListOk(nodes, heads, lists, l);
    LinkExtends(nodes, lists[l], index, l, heads[l]);
    var r, heads', lists' := Linked(nodes, index, l, heads[l]), heads[l := index], lists[l := [index] + lists[l]];
    assert heads[l] != NIL ==> heads[l] in lists[l];
    OnItsList(nodes, heads, lists, freeHead, free, loose, l);
    forall m: nat ensures ListOk(r, heads', lists', m) {
      assert ListOk(nodes, heads, lists, m);
      if m < FREE && m != l {
        OnItsList(nodes, heads, lists, freeHead, free, loose, m);
        ChainFrame(nodes, r, lists[m], m, heads[m]);
      }
    }
    WalkFrame(nodes, r, free);
    forall i | 0 <= i < |r| ensures Homed(r, lists', free, loose - {index}, i) {
      assert Homed(nodes, lists, free, loose, i);
    }
  }

  lemma PartitionUnlink(nodes: seq<Node>, heads: seq<nat>, lists: seq<seq<nat>>,
                        freeHead: nat, free: seq<nat>, loose: set<nat>, l: nat, k: nat)
    requires Partition(nodes, heads, lists, freeHead, free, loose)
    requires l < FREE && k < |lists[l]|
    ensures var index := lists[l][k];
            && index < |nodes| && nodes[index].list == l
            && (nodes[index].prev == NIL || nodes[index].prev < |nodes|)
            && (nodes[index].next == NIL || nodes[index].next < |nodes|)
            && Partition(Unlinked(nodes, index),
                         heads[l := if nodes[index].prev == NIL then nodes[index].next else heads[l]],
                         lists[l := Without(lists[l], k)], freeHead, free, loose + {index})
  {
    var s, index := lists[l], lists[l][k];
    assert ListOk(nodes, heads, lists, l);
    UnlinkShrinks(nodes, s, k, l, heads[l]);
    OnItsList(nodes, heads, lists, freeHead, free, loose, l);
    WithoutMembers(s, k);
    var r, lists' := Unlinked(nodes, index), lists[l := Without(s, k)];
    var heads' := heads[l := if nodes[index].prev == NIL then nodes[index].next else heads[l]];
    forall i | 0 <= i < |nodes| && (i !in s || i == index) ensures r[i] == nodes[i] {
      UnlinkFrame(nodes, s, k, l, heads[l], i);
    }
    forall m: nat ensures ListOk(r, heads', lists', m) {
      assert ListOk(nodes, heads, lists, m);
      if m < FREE && m != l {
        OnItsList(nodes, heads, lists, freeHead, free, loose, m);
        ChainFrame(nodes, r, lists[m], m, heads[m]);
      }
    }
    WalkFrame(nodes, r, free);
    forall i | 0 <= i < |r| ensures Homed(r, lists', free, loose + {index}, i) {
      assert Homed(nodes, lists, free, loose, i);
    }
  }

  /** release(): a loose node goes to the front of the free list under a new generation. */
  function Released(nodes: seq<Node>, index: nat, freeHead: nat): (r: seq<Node>)
    requires index < |nodes|
    ensures |r| == |nodes|
  {
    nodes[index := nodes[index].(generation := nodes[index].generation + 1, list := FREE, prev := NIL, next :=
                                 freeHead)]
  }

  lemma PartitionRelease(nodes: seq<Node>, heads: seq<nat>, lists: seq<seq<nat>>,
                         freeHead: nat, free: seq<nat>, loose: set<nat>, index: nat)
    requires Partition(nodes, heads, lists, freeHead, free, loose)
    requires index in loose
    ensures Partition(Released(nodes, index, freeHead), heads, lists, index, [index] + free, loose - {index})
  {
    var r := Released(nodes, index, freeHead);
    assert index !in free by { assert Homed(nodes, lists, free, loose, index); }
    forall m: nat ensures ListOk(r, heads, lists, m) {
      assert ListOk(nodes, heads, lists, m);
      if m < FREE {
        OnItsList(nodes, heads, lists, freeHead, free, loose, m);
        ChainFrame(nodes, r, lists[m], m, heads[m]);
      }
    }
    WalkFrame(nodes, r, free);
    forall k ensures Leads(r, [index] + free, k) { assert Leads(r, free, k - 1); }
    forall i | 0 <= i < |r| ensures Homed(r, lists, [index] + free, loose - {index}, i) {
      assert Homed(nodes, lists, free, loose, i);
    }
  }

  /** allocate(), first case: the head of the free list is taken. */
  lemma PartitionTake(nodes: seq<Node>, heads: seq<nat>, lists: seq<seq<nat>>,
                      freeHead: nat, free: seq<nat>, loose: set<nat>)
    requires Partition(nodes, heads, lists, freeHead, free, loose) && free != []
    ensures freeHead < |nodes| && nodes[freeHead].list == FREE
    ensures Partition(nodes, heads, lists, nodes[freeHead].next, free[1..], loose + {freeHead})
  {
    hide Walk, Distinct, ListOk;
    WalkTail(nodes, free);
    var rest := free[1..];
    assert freeHead == free[0] && free == [freeHead] + rest;
    assert forall i :: i in free <==> i == freeHead || i in rest;
    assert Homed(nodes, lists, free, loose, freeHead);
    forall i | 0 <= i < |nodes| ensures Homed(nodes, lists, rest, loose + {freeHead}, i) {
      assert Homed(nodes, lists, free, loose, i);
    }
  }

  /** allocate(), second case: the slab grows by one default node. */
  lemma PartitionGrow(nodes: seq<Node>, heads: seq<nat>, lists: seq<seq<nat>>,
                      freeHead: nat, free: seq<nat>, loose: set<nat>, node: Node)
    requires Partition(nodes, heads, lists, freeHead, free, loose)
    requires |nodes| < NIL && node.list == FREE
    ensures Partition(nodes + [node], heads, lists, freeHead, free, loose + {|nodes|})
  {
    var r := nodes + [node];
    forall m: nat ensures ListOk(r, heads, lists, m) {
      assert ListOk(nodes, heads, lists, m);
      if m < FREE {
        OnItsList(nodes, heads, lists, freeHead, free, loose, m);
        ChainFrame(nodes, r, lists[m], m, heads[m]);
      }
    }
    WalkFrame(nodes, r, free);
    forall i | 0 <= i < |r| ensures Homed(r, lists, free, loose + {|nodes|}, i) {
      if i < |nodes| { assert Homed(nodes, lists, free, loose, i); }
    }
  }

  /** Detaching a whole list leaves its nodes loose and still walkable. */
  lemma PartitionDetach(nodes: seq<Node>, heads: seq<nat>, lists: seq<seq<nat>>,
                        freeHead: nat, free: seq<nat>, l: nat)
    requires Partition(nodes, heads, lists, freeHead, free, {})
    requires l < FREE
    ensures Partition(nodes, heads[l := NIL], lists[l := []], freeHead, free, Elements(lists[l]))
    ensures Walk(nodes, lists[l]) && Distinct(lists[l]) && heads[l] == At(lists[l], 0)
  {
    var heads', lists', loose := heads[l := NIL], lists[l := []], Elements(lists[l]);
    assert ListOk(nodes, heads, lists, l);
    ChainWalk(nodes, lists[l], l, heads[l]);
    forall m: nat ensures ListOk(nodes, heads', lists', m) {
      assert ListOk(nodes, heads, lists, m);
      if m == l {
        forall k ensures Member(nodes, [], l, k) {}
      }
    }
    forall i | 0 <= i < |nodes| ensures Homed(nodes, lists', free, loose, i) {
      assert Homed(nodes, lists, free, {}, i);
    }
  }
}
