/** The doubly linked list of adlist.c: pointer surgery that refines operations on a
    sequence of nodes, and iteration that survives deleting the current node. */
module Adlist {

  class Node<V> {
    var prev: Node?<V>
    var next: Node?<V>
    var value: V

    constructor (value: V)
      ensures this.value == value && prev == null && next == null
    {
      this.value := value;
      prev, next := null, null;
    }
  }

  /** Neighbours along a sequence of nodes; null beyond either end. */
  ghost function At<V>(s: seq<Node<V>>, i: int): Node?<V> {
    if 0 <= i < |s| then s[i] else null
  }

  /** The links of the nodes mirror their order in `s`, and no node occurs twice. */
  ghost predicate Linked<V>(s: seq<Node<V>>)
    reads s
  {
    && (forall i | 0 <= i < |s| :: s[i].prev == At(s, i - 1) && s[i].next == At(s, i + 1))
    && Distinct(s)
  }

  ghost predicate Distinct<V>(s: seq<Node<V>>) {
    forall i, j | 0 <= i < j < |s| :: s[i] != s[j]
  }

  ghost function ValuesOf<V>(s: seq<Node<V>>): seq<V>
    reads s
  {
    seq(|s|, i requires 0 <= i < |s| reads s => s[i].value)
  }

  lemma AtIs<V>(s: seq<Node<V>>, i: int)
    ensures 0 <= i < |s| ==> At(s, i) == s[i]
    ensures !(0 <= i < |s|) ==> At(s, i) == null
  {
  }

  /** All nodes but the one at `i`, which may point anywhere, skip it. */
  ghost predicate Skips<V>(s: seq<Node<V>>, i: nat)
    reads s
  {
    forall k | 0 <= k < |s| && k != i ::
      && s[k].prev == (if k == i + 1 then At(s, i - 1) else At(s, k - 1))
      && s[k].next == (if k == i - 1 then At(s, i + 1) else At(s, k + 1))
  }

  ghost predicate IsWithout<V>(s: seq<Node<V>>, i: nat, t: seq<Node<V>>) {
    i < |s| == |t| + 1 && (forall k | 0 <= k < i :: t[k] == s[k]) && (forall k | i <= k < |t| :: t[k] == s[k + 1])
  }

  lemma SkippedLink<V>(s: seq<Node<V>>, i: nat, t: seq<Node<V>>, k: nat)
    requires IsWithout(s, i, t) && Skips(s, i) && k < |t|
    ensures t[k].prev == At(t, k - 1) && t[k].next == At(t, k + 1)
  {
    hide At;
    AtIs(t, k - 1); AtIs(t, k + 1);
    var j := if k < i then k else k + 1;
    AtIs(s, j - 1); AtIs(s, j + 1); AtIs(s, j - 2); AtIs(s, j + 2);
  }

  /** The links along `s` without the node at `i`. */
  lemma LinkedWithout<V>(s: seq<Node<V>>, i: nat)
    requires i < |s| && Distinct(s) && Skips(s, i)
    ensures Linked(s[..i] + s[i + 1..])
  {
    hide At, Skips;
    var t := s[..i] + s[i + 1..];
    assert IsWithout(s, i, t);
    forall k | 0 <= k < |t| ensures t[k].prev == At(t, k - 1) && t[k].next == At(t, k + 1) {
      SkippedLink(s, i, t, k);
    }
  }

  /** The links along `s` once `node` is spliced in at position `p`. */
  lemma LinkedWith<V>(s: seq<Node<V>>, p: nat, node: Node<V>)
    requires p <= |s| && node !in s && Distinct(s)
    requires node.prev == At(s, p - 1) && node.next == At(s, p)
    requires forall k | 0 <= k < |s| ::
      && s[k].prev == (if k == p then node else At(s, k - 1))
      && s[k].next == (if k == p - 1 then node else At(s, k + 1))
    ensures Linked(s[..p] + [node] + s[p..])
  {
    hide At, Linked, Distinct;
    SplicedLinks(s, p, node, s[..p] + [node] + s[p..]);
  }

  lemma SplicedLinks<V>(s: seq<Node<V>>, p: nat, node: Node<V>, t: seq<Node<V>>)
    requires p <= |s| && node !in s && Distinct(s)
    requires |t| == |s| + 1 && t[p] == node
    requires forall k | 0 <= k < p :: t[k] == s[k]
    requires forall k | p < k < |t| :: t[k] == s[k - 1]
    requires node.prev == At(s, p - 1) && node.next == At(s, p)
    requires forall k | 0 <= k < |s| ::
      && s[k].prev == (if k == p then node else At(s, k - 1))
      && s[k].next == (if k == p - 1 then node else At(s, k + 1))
    ensures Linked(t)
  {
    hide At;
    forall k | 0 <= k < |t| ensures t[k].prev == At(t, k - 1) && t[k].next == At(t, k + 1) {
      AtIs(t, k - 1); AtIs(t, k + 1);
      if k == p {
        AtIs(s, p - 1); AtIs(s, p);
      } else {
        var j := if k < p then k else k - 1;
        AtIs(s, j - 1); AtIs(s, j + 1);
      }
    }
  }

  twostate lemma SameValues<V>(s: seq<Node<V>>)
    requires forall n | n in s :: n.value == old(n.value)
    ensures ValuesOf(s) == old(ValuesOf(s))
  {
  }

  lemma ValuesWith<V>(s: seq<Node<V>>, p: nat, node: Node<V>)
    requires p <= |s|
    ensures |ValuesOf(s)| == |s|
    ensures ValuesOf(s[..p] + [node] + s[p..]) == ValuesOf(s)[..p] + [node.value] + ValuesOf(s)[p..]
  {
  }

  lemma ValuesWithout<V>(s: seq<Node<V>>, i: nat)
    requires i < |s|
    ensures |ValuesOf(s)| == |s|
    ensures ValuesOf(s[..i] + s[i + 1..]) == ValuesOf(s)[..i] + ValuesOf(s)[i + 1..]
  {
  }

  class List<V> {
    var head: Node?<V>
    var tail: Node?<V>
    var len: nat
    /** The nodes of the list, first to last. */
    ghost var spine: seq<Node<V>>

    ghost predicate Valid()
      reads this, spine
    {
      && head == At(spine, 0) && tail == At(spine, |spine| - 1) && len == |spine|
      && Linked(spine)
    }

    ghost function Values(): seq<V>
      reads this, spine
    {
      ValuesOf(spine)
    }

    constructor ()
      ensures Valid() && spine == [] && Values() == []
    {
      head, tail, len, spine := null, null, 0, [];
    }

    /** Remove all elements. */
    method Empty()
      requires Valid()
      modifies this
      ensures Valid() && spine == []
    {
      head, tail := null, null;
      len := 0;
      spine := [];
    }

    method LinkNodeHead(node: Node<V>)
      requires Valid() && node !in spine
      modifies this, node, spine
      ensures Valid() && spine == [node] + old(spine)
      ensures forall n | n in spine :: n.value == old(n.value)
    {
      ghost var s := spine;
      hide At;
      AtIs(s, 0); AtIs(s, |s| - 1); AtIs(s, -1);
      if len == 0 {
        head, tail := node, node;
        node.prev, node.next := null, null;
      } else {
        node.prev := null;
        node.next := head;
        head.prev := node;
        head := node;
      }
      len := len + 1;
      spine := s[..0] + [node] + s[0..];
      LinkedWith(s, 0, node);
      AtIs(spine, 0); AtIs(spine, |spine| - 1);
    }

    method LinkNodeTail(node: Node<V>)
      requires Valid() && node !in spine
      modifies this, node, spine
      ensures Valid() && spine == old(spine) + [node]
      ensures forall n | n in spine :: n.value == old(n.value)
    {
      ghost var s := spine;
      hide At;
      AtIs(s, 0); AtIs(s, |s| - 1); AtIs(s, |s|);
      if len == 0 {
        head, tail := node, node;
        node.prev, node.next := null, null;
      } else {
        node.prev := tail;
        node.next := null;
        tail.next := node;
        tail := node;
      }
      len := len + 1;
      spine := s[..|s|] + [node] + s[|s|..];
      LinkedWith(s, |s|, node);
      AtIs(spine, 0); AtIs(spine, |spine| - 1);
    }

    method AddNodeHead(value: V)
      requires Valid()
      modifies this, spine
      ensures Valid() && |spine| > 0 && spine[1..] == old(spine) && fresh(spine[0])
      ensures Values() == [value] + old(Values())
    {
      hide At, Linked, ValuesOf;
      ghost var s := spine;
      var node := new Node(value);
      LinkNodeHead(node);
      SameValues(s);
      ValuesWith(s, 0, node);
      assert spine == s[..0] + [node] + s[0..];
    }

    method AddNodeTail(value: V)
      requires Valid()
      modifies this, spine
      ensures Valid() && |spine| > 0 && spine[..|spine| - 1] == old(spine) && fresh(spine[|spine| - 1])
      ensures Values() == old(Values()) + [value]
    {
      hide At, Linked, ValuesOf;
      ghost var s := spine;
      var node := new Node(value);
      LinkNodeTail(node);
      SameValues(s);
      ValuesWith(s, |s|, node);
      assert spine == s[..|s|] + [node] + s[|s|..];
    }

    /** Insert next to the node at position `i`. */
    method InsertNode(oldNode: Node<V>, value: V, after: bool, ghost i: nat) returns (node: Node<V>)
      requires Valid() && i < |spine| && spine[i] == oldNode
      modifies this, spine
      ensures Valid() && fresh(node) && node.value == value
      ensures var p := if after then i + 1 else i;
        spine == old(spine)[..p] + [node] + old(spine)[p..]
      ensures forall n | n in old(spine) :: n.value == old(n.value)
    {
      hide At;
      node := new Node(value);
      if after {
        node.prev := oldNode;
        node.next := oldNode.next;
        AtIs(spine, i); AtIs(spine, |spine| - 1); AtIs(spine, i + 1);
        if tail == oldNode { tail := node; }
        Splice(node, i + 1);
      } else {
        node.next := oldNode;
        node.prev := oldNode.prev;
        AtIs(spine, i); AtIs(spine, 0); AtIs(spine, i - 1);
        if head == oldNode { head := node; }
        Splice(node, i);
      }
    }

    /** The common end of an insertion: let the neighbours point back at `node`. */
    method Splice(node: Node<V>, ghost p: nat)
      requires Linked(spine) && len == |spine| && p <= |spine| && node !in spine
      requires node.prev == At(spine, p - 1) && node.next == At(spine, p)
      requires head == if p == 0 then node else At(spine, 0)
      requires tail == if p == |spine| then node else At(spine, |spine| - 1)
      modifies this, node, spine
      ensures Valid() && spine == old(spine)[..p] + [node] + old(spine)[p..]
      ensures node.value == old(node.value) && forall n | n in old(spine) :: n.value == old(n.value)
    {
      ghost var s := spine;
      hide At;
      AtIs(s, 0); AtIs(s, |s| - 1); AtIs(s, p - 1); AtIs(s, p);
      if node.prev != null { node.prev.next := node; }
      if node.next != null { node.next.prev := node; }
      len := len + 1;
      spine := s[..p] + [node] + s[p..];
      LinkedWith(s, p, node);
      AtIs(spine, 0); AtIs(spine, |spine| - 1);
    }

    /** Remove the node at position `i` without freeing it. */
    method UnlinkNode(node: Node<V>, ghost i: nat)
      requires Valid() && i < |spine| && spine[i] == node
      modifies this, spine
      ensures Valid() && node.prev == null && node.next == null
      ensures spine == old(spine)[..i] + old(spine)[i + 1..]
      ensures forall n | n in old(spine) :: n.value == old(n.value)
    {
      ghost var s := spine;
      hide At, Linked, Skips;
      AtIs(s, 0); AtIs(s, |s| - 1); AtIs(s, i - 1); AtIs(s, i + 1);
      var prev, next := Bypass(node, s, i);
      if prev == null { head := next; }
      if next == null { tail := prev; }
      len := len - 1;
      spine := s[..i] + s[i + 1..];
      LinkedWithout(s, i);
      AtIs(spine, 0); AtIs(spine, |spine| - 1);
    }

    /** Make the neighbours of a node point past it. */
    static method Bypass(node: Node<V>, ghost s: seq<Node<V>>, ghost i: nat) returns (prev: Node?<V>, next: Node?<V>)
      requires Linked(s) && i < |s| && s[i] == node
      modifies s
      ensures Distinct(s) && Skips(s, i) && node.prev == null && node.next == null
      ensures prev == At(s, i - 1) && next == At(s, i + 1)
      ensures forall n | n in s :: n.value == old(n.value)
    {
      hide At;
      AtIs(s, i - 1); AtIs(s, i + 1);
      prev, next := node.prev, node.next;
      if prev != null { prev.next := next; }
      if next != null { next.prev := prev; }
      node.next := null;
      node.prev := null;
    }

    /** Remove the node at position `i`; freeing it has no counterpart here. */
    method DelNode(node: Node<V>, ghost i: nat)
      requires Valid() && i < |spine| && spine[i] == node
      modifies this, spine
      ensures Valid() && spine == old(spine)[..i] + old(spine)[i + 1..]
      ensures |old(Values())| == |old(spine)| && Values() == old(Values())[..i] + old(Values())[i + 1..]
    {
      hide At, Linked, ValuesOf;
      ghost var s := spine;
      ValuesWithout(s, i);
      UnlinkNode(node, i);
      SameValues(s);
      ValuesWithout(s, i);
    }

    /** Move the last node to the front. */
    method RotateTailToHead()
      requires Valid()
      modifies this, spine
      ensures Valid()
      ensures var n := |old(spine)|;
        spine == if n <= 1 then old(spine) else [old(spine)[n - 1]] + old(spine)[..n - 1]
      ensures forall n | n in spine :: n.value == old(n.value)
    {
      if len <= 1 { return; }
      ghost var s, u := spine, [spine[|spine| - 1]] + spine[..|spine| - 1];
      hide At, Linked;
      AtIs(s, 0); AtIs(s, |s| - 1); AtIs(s, |s| - 2);
      LinksAt(s, |s| - 1);
      var last, first := tail, head;
      var before := last.prev;
      AtIs(u, 0); AtIs(u, |u| - 1);
      tail, head, spine := before, last, u;
      TurnToHead(last, before, first, s, u);
    }

    /** Put the last node of a chain in front of the first. */
    static method TurnToHead(last: Node<V>, before: Node<V>, first: Node<V>, ghost s: seq<Node<V>>, ghost u: seq<Node<V>>)
      requires |s| >= 2 && u == [s[|s| - 1]] + s[..|s| - 1]
      requires Linked(s) && last == s[|s| - 1] && before == s[|s| - 2] && first == s[0]
      modifies s
      ensures Linked(u) && forall n | n in u :: n.value == old(n.value)
    {
      hide At;
      before.next := null;
      first.prev := last;
      last.prev := null;
      last.next := first;
      RotatedToHead(s, u);
    }

    /** Move the first node to the end. */
    method RotateHeadToTail()
      requires Valid()
      modifies this, spine
      ensures Valid()
      ensures spine == if |old(spine)| <= 1 then old(spine) else old(spine)[1..] + [old(spine)[0]]
      ensures forall n | n in spine :: n.value == old(n.value)
    {
      if len <= 1 { return; }
      ghost var s, u := spine, spine[1..] + [spine[0]];
      hide At, Linked;
      AtIs(s, 0); AtIs(s, |s| - 1); AtIs(s, 1);
      LinksAt(s, 0);
      var first, last := head, tail;
      var second := first.next;
      AtIs(u, 0); AtIs(u, |u| - 1);
      head, tail, spine := second, first, u;
      TurnToTail(first, second, last, s, u);
    }

    /** Put the first node of a chain behind the last. */
    static method TurnToTail(first: Node<V>, second: Node<V>, last: Node<V>, ghost s: seq<Node<V>>, ghost u: seq<Node<V>>)
      requires |s| >= 2 && u == s[1..] + [s[0]]
      requires Linked(s) && first == s[0] && second == s[1] && last == s[|s| - 1]
      modifies s
      ensures Linked(u) && forall n | n in u :: n.value == old(n.value)
    {
      hide At;
      second.prev := null;
      last.next := first;
      first.next := null;
      first.prev := last;
      RotatedToTail(s, u);
    }

    /** Append all nodes of `o`, which is left empty. */
    method Join(o: List<V>)
      requires Valid() && o.Valid() && o != this && forall n | n in o.spine :: n !in spine
      modifies this, spine, o, o.spine
      ensures Valid() && o.Valid()
      ensures spine == old(spine) + old(o.spine) && o.spine == []
      ensures forall n | n in spine :: n.value == old(n.value)
    {
      ghost var s, t := spine, o.spine;
      hide At, Linked;
      if o.len == 0 {
        assert s + t == s;
        return;
      }
      AtIs(t, 0);
      Bridge(tail, o.head, s, t);
      JoinedEnds(s, t);
      EmptyLinked<V>();
      TakeOver(o, s + t);
    }

    /** Adopt the ends and the length of `o`, which becomes an empty list. */
    method TakeOver(o: List<V>, ghost u: seq<Node<V>>)
      requires o != this && Linked(u) && len + o.len == |u|
      requires (if tail == null then o.head else head) == At(u, 0) && o.tail == At(u, |u| - 1)
      modifies this, o
      ensures Valid() && spine == u && o.Valid() && o.spine == []
    {
      if tail == null { head := o.head; }
      tail, len, spine := o.tail, len + o.len, u;
      o.head, o.tail, o.len, o.spine := null, null, 0, [];
    }

    /** Make the last node of one chain and the first of another point at each other. */
    static method Bridge(last: Node?<V>, first: Node<V>, ghost s: seq<Node<V>>, ghost t: seq<Node<V>>)
      requires Linked(s) && Linked(t) && |t| >= 1 && first == t[0] && last == At(s, |s| - 1)
      requires forall n | n in t :: n !in s
      modifies s, t
      ensures Linked(s + t)
      ensures forall n | n in s + t :: n.value == old(n.value)
    {
      hide At;
      AtIs(s, |s| - 1);
      assert forall k | 0 <= k < |t| :: t[k] in t && t[k] !in s;
      assert forall k, l | 0 <= k < |s| && 0 <= l < |t| :: s[k] != t[l];
      first.prev := last;
      if last != null { last.next := first; }
      JoinedLinks(s, t);
    }

    /** The node at an index, counted from the tail when negative. */
    method Index(index: int) returns (n: Node?<V>)
      requires Valid()
      ensures n == At(spine, if index >= 0 then index else |spine| + index)
    {
      hide At;
      if index < 0 {
        var k := -index - 1;
        n := tail;
        while k != 0 && n != null
          invariant 0 <= k <= -index - 1 && n == At(spine, |spine| + index + k)
        {
          AtIs(spine, |spine| + index + k);
          n := n.prev;
          k := k - 1;
        }
        AtIs(spine, |spine| + index + k); AtIs(spine, |spine| + index);
      } else {
        var k := index;
        n := head;
        while k != 0 && n != null
          invariant 0 <= k <= index && n == At(spine, index - k)
        {
          AtIs(spine, index - k);
          n := n.next;
          k := k - 1;
        }
        AtIs(spine, index - k); AtIs(spine, index);
      }
    }
  }

  // ---------------------------------------------------------------------
  // Iteration

  class ListIter<V> {
    var next: Node?<V>
    var forward: bool

    /** `listRewind` and `listRewindTail`. */
    constructor (list: List<V>, forward: bool)
      ensures this.forward == forward && next == if forward then list.head else list.tail
    {
      this.forward := forward;
      next := if forward then list.head else list.tail;
    }

    /** `listNext`: the successor is fetched before the current node is handed out. */
    method Next() returns (current: Node?<V>)
      modifies this
      ensures current == old(next) && forward == old(forward)
      ensures next == if current == null then null else if forward then current.next else current.prev
    {
      current := next;
      if current != null {
        next := if forward then current.next else current.prev;
      }
    }
  }

  /** The nodes of `s` whose index is not to be deleted. */
  ghost function Kept<V>(s: seq<Node<V>>, delete: nat -> bool, n: nat): seq<Node<V>>
    requires n <= |s|
  {
    if n == 0 then [] else Kept(s, delete, n - 1) + if delete(n - 1) then [] else [s[n - 1]]
  }

  /** What is kept of the last `n` nodes of `s` by a walk from the tail. */
  ghost function KeptBack<V>(s: seq<Node<V>>, delete: nat -> bool, n: nat): seq<Node<V>>
    requires n <= |s|
  {
    if n == 0 then [] else (if delete(n - 1) then [] else [s[|s| - n]]) + KeptBack(s, delete, n - 1)
  }

  /** Hand out the node at position `p` and then possibly delete it: the iterator goes
      on with the node that followed (or preceded) it. */
  method Visit<V>(list: List<V>, iter: ListIter<V>, doomed: bool, ghost p: nat, ghost nodes: set<Node<V>>) returns (node: Node<V>)
    requires list.Valid() && p < |list.spine| && iter.next == list.spine[p]
    requires forall n | n in list.spine :: n in nodes
    modifies list, nodes, iter
    ensures forall n | n in list.spine :: n in nodes
    ensures list.Valid() && node == old(list.spine)[p] && iter.forward == old(iter.forward)
    ensures iter.next == At(old(list.spine), if iter.forward then p + 1 else p - 1)
    ensures list.spine == if doomed then old(list.spine)[..p] + old(list.spine)[p + 1..] else old(list.spine)
  {
    hide At;
    node := iter.Next();
    if doomed { list.UnlinkNode(node, p); }
  }

  /** The list `s` after `i` steps from the head; `p` is the position reached. */
  ghost predicate ForwardState<V>(all: seq<Node<V>>, delete: nat -> bool, i: nat, s: seq<Node<V>>, p: nat) {
    && i <= |all| && s == Kept(all, delete, i) + all[i..] && p == |Kept(all, delete, i)|
  }

  lemma ForwardStep<V>(all: seq<Node<V>>, delete: nat -> bool, i: nat, s: seq<Node<V>>, p: nat)
    requires ForwardState(all, delete, i, s, p) && p < |s|
    ensures i < |all| && s[p] == all[i]
    ensures if delete(i) then ForwardState(all, delete, i + 1, s[..p] + s[p + 1..], p)
            else ForwardState(all, delete, i + 1, s, p + 1)
  {
    var t := if delete(i) then s[..p] + s[p + 1..] else s;
    assert t == Kept(all, delete, i + 1) + all[i + 1..];
  }

  lemma PrefixStep<V>(all: seq<Node<V>>, i: nat)
    requires i < |all|
    ensures all[..i] + [all[i]] == all[..i + 1]
  {
  }

  lemma AtWithout<V>(s: seq<Node<V>>, p: nat)
    requires p < |s|
    ensures At(s[..p] + s[p + 1..], p) == At(s, p + 1)
  {
  }

  lemma ForwardEnd<V>(all: seq<Node<V>>, delete: nat -> bool, i: nat, s: seq<Node<V>>, p: nat)
    requires ForwardState(all, delete, i, s, p) && p >= |s|
    ensures i == |all| && s == Kept(all, delete, i)
  {
  }

  /** A forward walk in progress: `visited` is the part of `all` already handed out. */
  ghost predicate Forward<V>(list: List<V>, iter: ListIter<V>, all: seq<Node<V>>, delete: nat -> bool, visited: seq<Node<V>>, p: nat)
    reads list, list.spine, iter
  {
    && list.Valid() && iter.forward && iter.next == At(list.spine, p)
    && |visited| <= |all| && visited == all[..|visited|]
    && ForwardState(all, delete, |visited|, list.spine, p)
  }

  method ForwardOnce<V>(list: List<V>, iter: ListIter<V>, doomed: bool, ghost all: seq<Node<V>>, ghost delete: nat -> bool,
                        ghost visited: seq<Node<V>>, ghost p: nat, ghost nodes: set<Node<V>>) returns (node: Node<V>, ghost p': nat)
    requires Forward(list, iter, all, delete, visited, p) && iter.next != null && doomed == delete(|visited|)
    requires forall n | n in list.spine :: n in nodes
    modifies list, nodes, iter
    ensures Forward(list, iter, all, delete, visited + [node], p')
    ensures forall n | n in list.spine :: n in nodes
  {
    hide At, Linked, ForwardState;
    ghost var s, i := list.spine, |visited|;
    AtIs(s, p);
    ForwardStep(all, delete, i, s, p);
    AtWithout(s, p);
    PrefixStep(all, i);
    node := Visit(list, iter, doomed, p, nodes);
    p' := if doomed then p else p + 1;
  }

  /** Walk the list from head to tail, deleting the current node whenever `delete` says
      so: every original node is visited exactly once, in order. */
  method SweepForward<V>(list: List<V>, delete: nat -> bool) returns (visited: seq<Node<V>>)
    requires list.Valid()
    modifies list, list.spine
    ensures list.Valid() && visited == old(list.spine)
    ensures list.spine == Kept(visited, delete, |visited|)
  {
    ghost var all, p := list.spine, 0;
    ghost var nodes := set n | n in all;
    var iter := new ListIter(list, true);
    visited := [];
    assert Forward(list, iter, all, delete, visited, 0);
    hide Forward;
    while iter.next != null
      invariant fresh(iter)
      invariant Forward(list, iter, all, delete, visited, p)
      invariant forall n | n in list.spine :: n in nodes
      invariant |visited| <= |all|
      decreases |all| - |visited|
    {
      ForwardBound(list, iter, all, delete, visited, p);
      var node;
      node, p := ForwardOnce(list, iter, delete(|visited|), all, delete, visited, p, nodes);
      visited := visited + [node];
    }
    ForwardFinish(list, iter, all, delete, visited, p);
  }

  lemma ForwardBound<V>(list: List<V>, iter: ListIter<V>, all: seq<Node<V>>, delete: nat -> bool, visited: seq<Node<V>>, p: nat)
    requires Forward(list, iter, all, delete, visited, p) && iter.next != null
    ensures |visited| < |all|
  {
    hide Linked;
  }

  lemma ForwardFinish<V>(list: List<V>, iter: ListIter<V>, all: seq<Node<V>>, delete: nat -> bool, visited: seq<Node<V>>, p: nat)
    requires Forward(list, iter, all, delete, visited, p) && iter.next == null
    ensures list.Valid() && visited == all && list.spine == Kept(visited, delete, |visited|)
  {
    hide Linked;
    ForwardEnd(all, delete, |visited|, list.spine, p);
  }

  /** The list `s` after `i` steps from the tail. */
  ghost predicate BackwardState<V>(all: seq<Node<V>>, delete: nat -> bool, i: nat, s: seq<Node<V>>) {
    && i <= |all| && s == all[..|all| - i] + KeptBack(all, delete, i)
  }

  lemma BackwardStep<V>(all: seq<Node<V>>, delete: nat -> bool, i: nat, s: seq<Node<V>>)
    requires BackwardState(all, delete, i, s) && i < |all|
    ensures |s| > |all| - 1 - i && s[|all| - 1 - i] == all[|all| - 1 - i]
    ensures BackwardState(all, delete, i + 1, if delete(i) then s[..|all| - 1 - i] + s[|all| - i..] else s)
  {
    var p := |all| - 1 - i;
    var before := KeptBack(all, delete, i);
    assert s[..p] == all[..p] && s[p + 1..] == before;
    if delete(i) {
      assert KeptBack(all, delete, i + 1) == before;
    } else {
      assert s == s[..p] + [s[p]] + s[p + 1..];
    }
  }

  lemma BackwardNext<V>(all: seq<Node<V>>, delete: nat -> bool, i: nat, s: seq<Node<V>>)
    requires BackwardState(all, delete, i, s)
    ensures At(s, |all| - 1 - i) == At(all, |all| - 1 - i)
    ensures i < |all| ==> At(s, |all| - 2 - i) == At(all, |all| - 2 - i)
  {
  }

  /** A backward walk in progress. */
  ghost predicate Backward<V>(list: List<V>, iter: ListIter<V>, all: seq<Node<V>>, delete: nat -> bool, visited: seq<Node<V>>)
    reads list, list.spine, iter
  {
    && list.Valid() && !iter.forward
    && FromTail(visited, all) && iter.next == At(all, |all| - 1 - |visited|)
    && BackwardState(all, delete, |visited|, list.spine)
  }

  /** The last nodes of `all`, last first. */
  ghost predicate FromTail<V>(visited: seq<Node<V>>, all: seq<Node<V>>) {
    |visited| <= |all| && forall k | 0 <= k < |visited| :: visited[k] == all[|all| - 1 - k]
  }

  lemma FromTailStep<V>(visited: seq<Node<V>>, all: seq<Node<V>>)
    requires FromTail(visited, all)
    ensures |visited| <= |all|
    ensures |visited| < |all| ==> FromTail(visited + [all[|all| - 1 - |visited|]], all)
  {
  }

  method BackwardOnce<V>(list: List<V>, iter: ListIter<V>, doomed: bool, ghost all: seq<Node<V>>, ghost delete: nat -> bool,
                         ghost visited: seq<Node<V>>, ghost nodes: set<Node<V>>) returns (node: Node<V>)
    requires Backward(list, iter, all, delete, visited) && iter.next != null && doomed == delete(|visited|)
    requires forall n | n in list.spine :: n in nodes
    modifies list, nodes, iter
    ensures Backward(list, iter, all, delete, visited + [node])
    ensures forall n | n in list.spine :: n in nodes
  {
    hide At, Linked, BackwardState, FromTail;
    ghost var s, i := list.spine, |visited|;
    FromTailStep(visited, all);
    AtIs(all, |all| - 1 - i);
    BackwardStep(all, delete, i, s);
    BackwardNext(all, delete, i, s);
    node := Visit(list, iter, doomed, |all| - 1 - i, nodes);
  }

  /** Walk the list from tail to head in the same way. */
  method SweepBackward<V>(list: List<V>, delete: nat -> bool) returns (visited: seq<Node<V>>)
    requires list.Valid()
    modifies list, list.spine
    ensures list.Valid() && |visited| == |old(list.spine)|
    ensures forall k | 0 <= k < |visited| :: visited[k] == old(list.spine)[|visited| - 1 - k]
    ensures list.spine == KeptBack(old(list.spine), delete, |visited|)
  {
    ghost var all := list.spine;
    ghost var nodes := set n | n in all;
    var iter := new ListIter(list, false);
    visited := [];
    assert Backward(list, iter, all, delete, visited);
    hide Backward;
    while iter.next != null
      invariant fresh(iter)
      invariant Backward(list, iter, all, delete, visited)
      invariant forall n | n in list.spine :: n in nodes
      decreases |all| - |visited|
    {
      BackwardBound(list, iter, all, delete, visited);
      var node := BackwardOnce(list, iter, delete(|visited|), all, delete, visited, nodes);
      visited := visited + [node];
    }
    BackwardFinish(list, iter, all, delete, visited);
  }

  lemma BackwardBound<V>(list: List<V>, iter: ListIter<V>, all: seq<Node<V>>, delete: nat -> bool, visited: seq<Node<V>>)
    requires Backward(list, iter, all, delete, visited) && iter.next != null
    ensures |visited| < |all|
  {
    hide Linked, BackwardState;
  }

  lemma BackwardFinish<V>(list: List<V>, iter: ListIter<V>, all: seq<Node<V>>, delete: nat -> bool, visited: seq<Node<V>>)
    requires Backward(list, iter, all, delete, visited) && iter.next == null
    ensures list.Valid() && |visited| == |all| && forall k | 0 <= k < |visited| :: visited[k] == all[|all| - 1 - k]
    ensures list.spine == KeptBack(all, delete, |visited|)
  {
    hide Linked;
    BackwardEnd(all, delete, |visited|, list.spine);
  }

  lemma BackwardEnd<V>(all: seq<Node<V>>, delete: nat -> bool, i: nat, s: seq<Node<V>>)
    requires BackwardState(all, delete, i, s) && i == |all|
    ensures s == KeptBack(all, delete, i)
  {
  }

  /** `listSearchKey`: the first node whose value matches. */
  method SearchKey<V>(list: List<V>, matches: V -> bool) returns (node: Node?<V>)
    requires list.Valid()
    ensures node == null ==> forall v | v in list.Values() :: !matches(v)
    ensures node != null ==> exists i :: 0 <= i < |list.spine| && list.spine[i] == node && matches(node.value)
                                      && forall j | 0 <= j < i :: !matches(list.spine[j].value)
  {
    hide At;
    AtIs(list.spine, 0);
    node := list.head;
    ghost var i := 0;
    while node != null
      invariant 0 <= i <= |list.spine| && node == At(list.spine, i)
      invariant forall j | 0 <= j < i :: !matches(list.spine[j].value)
      decreases |list.spine| - i
    {
      AtIs(list.spine, i);
      if matches(node.value) { return; }
      node := node.next;
      i := i + 1;
    }
    AtIs(list.spine, i);
  }

  /** `listDup`: a fresh list holding the copied values in order. */
  method Dup<V>(orig: List<V>, dup: V -> V) returns (copy: List<V>)
    requires orig.Valid()
    ensures copy.Valid() && fresh(copy) && forall k | 0 <= k < |copy.spine| :: fresh(copy.spine[k])
    ensures |copy.Values()| == |orig.Values()|
    ensures forall i | 0 <= i < |orig.Values()| :: copy.Values()[i] == dup(orig.Values()[i])
  {
    hide At, Linked;
    copy := new List<V>();
    AtIs(orig.spine, 0);
    var node := orig.head;
    ghost var i := 0;
    while node != null
      invariant 0 <= i <= |orig.spine| && node == At(orig.spine, i)
      invariant copy.Valid() && fresh(copy) && forall k | 0 <= k < |copy.spine| :: fresh(copy.spine[k])
      invariant orig.Valid()
      invariant |copy.Values()| == i && forall j | 0 <= j < i :: copy.Values()[j] == dup(orig.spine[j].value)
      decreases |orig.spine| - i
    {
      AtIs(orig.spine, i);
      LinksAt(orig.spine, i);
      copy.AddNodeTail(dup(node.value));
      node := node.next;
      i := i + 1;
    }
    AtIs(orig.spine, i);
  }

  lemma LinksAt<V>(s: seq<Node<V>>, k: nat)
    requires Linked(s) && k < |s|
    ensures s[k].prev == At(s, k - 1) && s[k].next == At(s, k + 1)
  {
  }

  lemma JoinedEnds<V>(s: seq<Node<V>>, t: seq<Node<V>>)
    requires t != []
    ensures At(s + t, 0) == (if At(s, |s| - 1) == null then At(t, 0) else At(s, 0))
    ensures At(s + t, |s + t| - 1) == At(t, |t| - 1)
  {
  }

  lemma EmptyLinked<V>()
    ensures Linked<V>([])
  {
  }

  lemma RotatedToHead<V>(s: seq<Node<V>>, t: seq<Node<V>>)
    requires |s| >= 2 && Distinct(s) && t == [s[|s| - 1]] + s[..|s| - 1]
    requires forall k | 0 <= k < |s| ::
      && s[k].prev == (if k == 0 then s[|s| - 1] else if k == |s| - 1 then null else At(s, k - 1))
      && s[k].next == (if k == |s| - 1 then s[0] else if k == |s| - 2 then null else At(s, k + 1))
    ensures Linked(t)
  {
    hide At;
    forall k | 0 <= k < |t| ensures t[k].prev == At(t, k - 1) && t[k].next == At(t, k + 1) {
      AtIs(t, k - 1); AtIs(t, k + 1);
      var j := if k == 0 then |s| - 1 else k - 1;
      assert t[k] == s[j];
      AtIs(s, j - 1); AtIs(s, j + 1);
    }
  }

  lemma RotatedToTail<V>(s: seq<Node<V>>, t: seq<Node<V>>)
    requires |s| >= 2 && Distinct(s) && t == s[1..] + [s[0]]
    requires forall k | 0 <= k < |s| ::
      && s[k].prev == (if k == 0 then s[|s| - 1] else if k == 1 then null else At(s, k - 1))
      && s[k].next == (if k == |s| - 1 then s[0] else if k == 0 then null else At(s, k + 1))
    ensures Linked(t)
  {
    hide At;
    forall k | 0 <= k < |t| ensures t[k].prev == At(t, k - 1) && t[k].next == At(t, k + 1) {
      AtIs(t, k - 1); AtIs(t, k + 1);
      var j := if k == |s| - 1 then 0 else k + 1;
      assert t[k] == s[j];
      AtIs(s, j - 1); AtIs(s, j + 1);
    }
  }

  lemma JoinedLinks<V>(s: seq<Node<V>>, t: seq<Node<V>>)
    requires |t| >= 1 && Distinct(s) && Distinct(t) && forall n | n in t :: n !in s
    requires forall k | 0 <= k < |s| ::
      s[k].prev == At(s, k - 1) && s[k].next == (if k == |s| - 1 then t[0] else At(s, k + 1))
    requires forall k | 0 <= k < |t| ::
      t[k].prev == (if k == 0 then At(s, |s| - 1) else At(t, k - 1)) && t[k].next == At(t, k + 1)
    ensures Linked(s + t)
  {
    var u := s + t;
    hide At;
    forall k | 0 <= k < |u| ensures u[k].prev == At(u, k - 1) && u[k].next == At(u, k + 1) {
      AtIs(u, k - 1); AtIs(u, k + 1);
      if k < |s| {
        AtIs(s, k - 1); AtIs(s, k + 1);
      } else {
        AtIs(t, k - |s| - 1); AtIs(t, k - |s| + 1); AtIs(s, |s| - 1);
      }
    }
    forall i, j | 0 <= i < j < |u| ensures u[i] != u[j] {
      if i < |s| <= j { assert u[j] in t; }
    }
  }
}
