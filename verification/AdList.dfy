/** The doubly linked list of src/adlist.c as linked nodes on the heap, refining a sequence of nodes. */
module AdList {

  import opened Wrappers

  class Node<T> {
    var prev: Node?<T>
    var next: Node?<T>
    var value: T

    constructor (value: T)
      ensures this.value == value && prev == null && next == null
    {
      this.value := value;
      prev, next := null, null;
    }
  }

  /** The node at position i, or null past either end. */
  ghost function At<T>(nodes: seq<Node<T>>, i: int): Node?<T> {
    if 0 <= i < |nodes| then nodes[i] else null
  }

  lemma AtInserted<T>(w: seq<Node<T>>, node: Node<T>, q: nat, k: int)
    requires q <= |w|
    ensures At(w[..q] + [node] + w[q..], k) == if k < q then At(w, k) else if k == q then node else At(w, k - 1)
  {}

  lemma AtRemoved<T>(w: seq<Node<T>>, p: nat, k: int)
    requires p < |w|
    ensures At(w[..p] + w[p + 1..], k) == if k < p then At(w, k) else At(w, k + 1)
  {}

  /** The links of the node at position i lead to its neighbours. */
  ghost predicate Placed<T>(nodes: seq<Node<T>>, i: int)
    requires 0 <= i < |nodes|
    reads nodes
  {
    nodes[i].prev == At(nodes, i - 1) && nodes[i].next == At(nodes, i + 1)
  }

  class List<T> {
    var head: Node?<T>
    var tail: Node?<T>
    var len: nat
    ghost var nodes: seq<Node<T>>

    ghost predicate Valid()
      reads this, nodes
    {
      && len == |nodes|
      && (forall i, j :: 0 <= i < j < |nodes| ==> nodes[i] != nodes[j])
      && head == At(nodes, 0) && tail == At(nodes, |nodes| - 1)
      && forall i {:trigger Placed(nodes, i)} :: 0 <= i < |nodes| ==> Placed(nodes, i)
    }

    /** listCreate */
    constructor ()
      ensures Valid() && nodes == []
    {
      head, tail, len, nodes := null, null, 0, [];
    }

    /** listLinkNodeHead */
    method LinkNodeHead(node: Node<T>)
      requires Valid() && node !in nodes
      modifies this, node`prev, node`next, nodes`prev
      ensures Valid() && nodes == [node] + old(nodes)
    {
      if len == 0 {
        head, tail := node, node;
        node.prev, node.next := null, null;
      } else {
        node.prev := null;
        node.next := head;
        head.prev := node;
        head := node;
      }
      nodes := [node] + nodes;
      len := len + 1;
      forall i | 0 <= i < |nodes|
        ensures Placed(nodes, i)
      {
        assert i > 0 ==> old(Placed(nodes, i - 1));
      }
    }

    /** listLinkNodeTail */
    method LinkNodeTail(node: Node<T>)
      requires Valid() && node !in nodes
      modifies this, node`prev, node`next, nodes`next
      ensures Valid() && nodes == old(nodes) + [node]
    {
      if len == 0 {
        head, tail := node, node;
        node.prev, node.next := null, null;
      } else {
        node.prev := tail;
        node.next := null;
        tail.next := node;
        tail := node;
      }
      nodes := nodes + [node];
      len := len + 1;
      forall i | 0 <= i < |nodes|
        ensures Placed(nodes, i)
      {
        assert i < |old(nodes)| ==> old(Placed(nodes, i));
      }
    }
 
    /** listAddNodeHead */
    method AddNodeHead(value: T)
      requires Valid()
      modifies this, nodes`prev
      ensures Valid() && |nodes| == |old(nodes)| + 1 && fresh(nodes[0]) && nodes[0].value == value && nodes[1..] == old(nodes)
    {
      var node := new Node(value);
      LinkNodeHead(node);
    }

    /** listAddNodeTail */
    method AddNodeTail(value: T)
      requires Valid()
      modifies this, nodes`next
      ensures Valid() && |nodes| == |old(nodes)| + 1
      ensures fresh(nodes[|old(nodes)|]) && nodes[|old(nodes)|].value == value && nodes[..|old(nodes)|] == old(nodes)
    {
      var node := new Node(value);
      LinkNodeTail(node);
    }

    /** listInsertNode; p is the position of oldNode. */
    method InsertNode(oldNode: Node<T>, value: T, after: bool, ghost p: nat) returns (node: Node<T>)
      requires Valid() && p < |nodes| && nodes[p] == oldNode
      modifies this, nodes`prev, nodes`next
      ensures Valid() && fresh(node) && node.value == value
      ensures var q := if after then p + 1 else p; nodes == old(nodes)[..q] + [node] + old(nodes)[q..]
    {
      node := new Node(value);
      assert Placed(nodes, p);
      if after {
        node.prev := oldNode;
        node.next := oldNode.next;
        if tail == oldNode {
          tail := node;
        }
      } else {
        node.next := oldNode;
        node.prev := oldNode.prev;
        if head == oldNode {
          head := node;
        }
      }
      LinkNeighbours(node, if after then p + 1 else p);
    }

    /** The end of listInsertNode: the neighbours of the new node at position q point to it. */
    method LinkNeighbours(node: Node<T>, ghost q: nat)
      requires len == |nodes| > 0 && q <= |nodes| && node !in nodes
      requires forall i, j :: 0 <= i < j < |nodes| ==> nodes[i] != nodes[j]
      requires forall i {:trigger Placed(nodes, i)} :: 0 <= i < |nodes| ==> Placed(nodes, i)
      requires node.prev == At(nodes, q - 1) && node.next == At(nodes, q)
      requires head == (if q == 0 then node else nodes[0]) && tail == if q == |nodes| then node else nodes[|nodes| - 1]
      modifies `len, `nodes, nodes`prev, nodes`next
      ensures Valid() && nodes == old(nodes)[..q] + [node] + old(nodes)[q..]
    {
      if node.prev != null {
        node.prev.next := node;
      }
      if node.next != null {
        node.next.prev := node;
      }
      nodes := nodes[..q] + [node] + nodes[q..];
      len := len + 1;
      forall i | 0 <= i < |nodes|
        ensures Placed(nodes, i)
      {
        AtInserted(old(nodes), node, q, i - 1);
        AtInserted(old(nodes), node, q, i);
        AtInserted(old(nodes), node, q, i + 1);
        if i < q {
          assert old(Placed(nodes, i));
        } else if i > q {
          assert old(Placed(nodes, i - 1));
        }
      }
    }

    /** listUnlinkNode; p is the position of the node. */
    method UnlinkNode(node: Node<T>, ghost p: nat)
      requires Valid() && p < |nodes| && nodes[p] == node
      modifies this, nodes`prev, nodes`next
      ensures Valid() && nodes == old(nodes)[..p] + old(nodes)[p + 1..]
      ensures node.prev == null && node.next == null
    {
      assert Placed(nodes, p);
      if node.prev != null {
        node.prev.next := node.next;
      } else {
        head := node.next;
      }
      if node.next != null {
        node.next.prev := node.prev;
      } else {
        tail := node.prev;
      }
      node.next := null;
      node.prev := null;
      nodes := nodes[..p] + nodes[p + 1..];
      len := len - 1;
      forall i | 0 <= i < |nodes|
        ensures Placed(nodes, i)
      {
        AtRemoved(old(nodes), p, i - 1);
        AtRemoved(old(nodes), p, i);
        AtRemoved(old(nodes), p, i + 1);
        if i < p {
          assert old(Placed(nodes, i));
        } else {
          assert old(Placed(nodes, i + 1));
        }
      }
      AtRemoved(old(nodes), p, 0);
      AtRemoved(old(nodes), p, |nodes| - 1);
    }

    /** listRotateTailToHead */
    method RotateTailToHead()
      requires Valid()
      modifies this, nodes`prev, nodes`next
      ensures Valid()
      ensures nodes == if |old(nodes)| <= 1 then old(nodes) else [old(nodes)[|old(nodes)| - 1]] + old(nodes)[..|old(nodes)| - 1]
    {
      if len <= 1 {
        return;
      }
      ghost var n := |nodes| - 1;
      assert Placed(nodes, n);
      var last := tail;
      tail := last.prev;
      tail.next := null;
      head.prev := last;
      last.prev := null;
      last.next := head;
      head := last;
      nodes := [last] + nodes[..n];
      forall i | 0 <= i < |nodes|
        ensures Placed(nodes, i)
      {
        assert i > 0 ==> old(Placed(nodes, i - 1));
      }
    }

    /** listRotateHeadToTail */
    method RotateHeadToTail()
      requires Valid()
      modifies this, nodes`prev, nodes`next
      ensures Valid()
      ensures nodes == if |old(nodes)| <= 1 then old(nodes) else old(nodes)[1..] + [old(nodes)[0]]
    {
      if len <= 1 {
        return;
      }
      assert Placed(nodes, 0);
      var first := head;
      head := first.next;
      head.prev := null;
      tail.next := first;
      first.next := null;
      first.prev := tail;
      tail := first;
      nodes := nodes[1..] + [first];
      forall i | 0 <= i < |nodes|
        ensures Placed(nodes, i)
      {
        assert i < |nodes| - 1 ==> old(Placed(nodes, i + 1));
      }
    }

    /** listJoin */
    method Join(o: List<T>)
      requires Valid() && o.Valid() && o != this
      requires forall i, j :: 0 <= i < |nodes| && 0 <= j < |o.nodes| ==> nodes[i] != o.nodes[j]
      modifies this, o, nodes`next, o.nodes`prev
      ensures Valid() && o.Valid() && nodes == old(nodes) + old(o.nodes) && o.nodes == []
    {
      if o.len == 0 {
        assert nodes + o.nodes == nodes;
        return;
      }
      o.head.prev := tail;
      if tail != null {
        tail.next := o.head;
      } else {
        head := o.head;
      }
      tail := o.tail;
      len := len + o.len;
      ghost var n := |nodes|;
      nodes := nodes + o.nodes;
      o.head, o.tail, o.len := null, null, 0;
      o.nodes := [];
      forall i | 0 <= i < |nodes|
        ensures Placed(nodes, i)
      {
        assert i < n ==> old(Placed(nodes, i));
        assert i >= n ==> old(Placed(o.nodes, i - n));
      }
    }

    /** listIndex: from the head, or from the tail for a negative index; null out of range. */
    method Index(index: int) returns (n: Node?<T>)
      requires Valid()
      ensures n == At(nodes, if index >= 0 then index else |nodes| + index)
    {
      var left := if index < 0 then -index - 1 else index;
      ghost var at := if index < 0 then |nodes| - 1 else 0;
      n := if index < 0 then tail else head;
      while left > 0 && n != null
        invariant n == At(nodes, at) && left >= 0
        invariant at + (if index < 0 then -left else left) == if index >= 0 then index else |nodes| + index
        invariant if index < 0 then at < |nodes| else at >= 0
        decreases left
      {
        assert Placed(nodes, at);
        n := if index < 0 then n.prev else n.next;
        at := if index < 0 then at - 1 else at + 1;
        left := left - 1;
      }
    }

    /** listSearchKey: the first node whose value matches. */
    method SearchKey(matches: T -> bool) returns (node: Node?<T>)
      requires Valid()
      ensures node == null ==> forall i :: 0 <= i < |nodes| ==> !matches(nodes[i].value)
      ensures node != null ==> exists p :: 0 <= p < |nodes| && nodes[p] == node && matches(node.value)
                                           && forall i :: 0 <= i < p ==> !matches(nodes[i].value)
    {
      var iter := new Iter(this, true);
      ghost var p := 0;
      while true
        invariant 0 <= p <= |nodes| && iter.forward && iter.next == At(nodes, p)
        invariant forall i :: 0 <= i < p ==> !matches(nodes[i].value)
        decreases |nodes| - p
      {
        if p < |nodes| {
          assert Placed(nodes, p);
        }
        node := iter.ListNext();
        if node == null {
          return;
        }
        if matches(node.value) {
          return;
        }
        p := p + 1;
      }
    }

    /** listDup: new nodes with the duplicated values, in order; nothing if one of them cannot be duplicated. */
    method Dup(dup: T -> Option<T>) returns (copy: List?<T>)
      requires Valid()
      ensures copy == null <==> exists i :: 0 <= i < |nodes| && dup(nodes[i].value) == None
      ensures copy != null ==> fresh(copy) && fresh(copy.nodes) && copy.Valid() && |copy.nodes| == |nodes|
                               && forall i :: 0 <= i < |nodes| ==> dup(nodes[i].value) == Some(copy.nodes[i].value)
    {
      hide Valid;
      var made := new List<T>();
      var iter := new Iter(this, true);
      ghost var p := 0;
      Ends();
      while true
        invariant 0 <= p <= |nodes| && iter.forward && iter.next == At(nodes, p)
        invariant fresh(made) && fresh(made.nodes) && made.Valid() && |made.nodes| == p
        invariant forall i :: 0 <= i < p ==> dup(nodes[i].value) == Some(made.nodes[i].value)
        decreases |nodes| - p
      {
        if p < |nodes| {
          InPlace(p);
        }
        var node := iter.ListNext();
        if node == null {
          return made;
        }
        var value := dup(node.value);
        if value == None {
          return null;
        }
        ghost var before := made.nodes;
        made.AddNodeTail(value.value);
        assert forall i :: 0 <= i < p ==> made.nodes[i] == before[i];
        p := p + 1;
      }
    }

    lemma Ends()
      requires Valid()
      ensures head == At(nodes, 0) && tail == At(nodes, |nodes| - 1)
    {}

    lemma InPlace(p: nat)
      requires Valid() && p < |nodes|
      ensures Placed(nodes, p)
    {}

    /**
      The loop that the comment on listNext allows, in either direction: delete the node just
      returned, if keep says so of the turn, and no other. Every node is returned once, in the
      order of the iteration, and those that are kept stay in order.
    */
    method Sweep(forward: bool, keep: int -> bool) returns (visited: seq<Node<T>>)
      requires Valid()
      modifies this, nodes`prev, nodes`next
      ensures Valid() && visited == if forward then old(nodes) else Backwards(old(nodes))
      ensures nodes == Kept(old(nodes), forward, keep, 0, |old(nodes)|)
    {
      hide Valid, Kept, Sweeping, Backwards, Visited;
      var iter := new Iter(this, forward);
      ghost var w := nodes;
      ghost var lo, hi := 0, |w|;
      visited := [];
      StartSweep(iter, keep);
      while true
        invariant Valid() && fresh(iter) && iter.forward == forward && lo <= hi <= |w| && |visited| == |w| - (hi - lo)
        invariant Sweeping(iter, w, keep, lo, hi) && Visited(w, forward, lo, hi, visited)
        decreases hi - lo
      {
        var node := SweepTurn(iter, w, keep, |visited|, lo, hi);
        if node == null {
          break;
        }
        VisitedNext(w, forward, lo, hi, visited);
        visited := visited + [node];
        if forward {
          lo := lo + 1;
        } else {
          hi := hi - 1;
        }
      }
      EndSweep(iter, w, keep, lo, hi, visited);
    }

    /** Nodes lo to hi are still to come, the first of which the iterator has saved; of the others those kept are there. */
    ghost predicate Sweeping(iter: Iter<T>, w: seq<Node<T>>, keep: int -> bool, lo: nat, hi: nat)
      requires lo <= hi <= |w|
      reads this, iter
    {
      && nodes == Remaining(w, iter.forward, keep, lo, hi)
      && (if iter.forward then hi == |w| else lo == 0)
      && iter.next == First(w, iter.forward, lo, hi)
    }

    lemma StartSweep(iter: Iter<T>, keep: int -> bool)
      requires Valid() && iter.next == if iter.forward then head else tail
      ensures Sweeping(iter, nodes, keep, 0, |nodes|) && Visited(nodes, iter.forward, 0, |nodes|, [])
    {
      assert [] + nodes[0..|nodes|] + [] == nodes;
    }

    lemma EndSweep(iter: Iter<T>, w: seq<Node<T>>, keep: int -> bool, lo: nat, hi: nat, visited: seq<Node<T>>)
      requires lo == hi <= |w| && Sweeping(iter, w, keep, lo, hi) && Visited(w, iter.forward, lo, hi, visited)
      ensures nodes == Kept(w, iter.forward, keep, 0, |w|) && visited == if iter.forward then w else Backwards(w)
    {
      assert w[lo..hi] == [] && w[..|w|] == w && w[0..] == w;
      if iter.forward {
        assert Kept(w, true, keep, 0, lo) + [] + [] == Kept(w, true, keep, 0, lo);
      } else {
        assert [] + [] + Kept(w, false, keep, hi, |w|) == Kept(w, false, keep, hi, |w|);
      }
    }

    /** One turn of the loop of Sweep. */
    method SweepTurn(iter: Iter<T>, ghost w: seq<Node<T>>, keep: int -> bool, turn: nat, ghost lo: nat, ghost hi: nat)
      returns (node: Node?<T>)
      requires Valid() && lo <= hi <= |w| && turn == |w| - (hi - lo) && Sweeping(iter, w, keep, lo, hi)
      modifies this, iter, w`prev, w`next
      ensures Valid() && iter.forward == old(iter.forward) && node == First(w, iter.forward, lo, hi)
      ensures node != null ==>
                Sweeping(iter, w, keep, if iter.forward then lo + 1 else lo, if iter.forward then hi else hi - 1)
      ensures node == null ==> nodes == old(nodes) && Sweeping(iter, w, keep, lo, hi)
    {
      hide Valid, Kept, Placed, Remaining;
      node := SweepNext(iter, w, keep, lo, hi);
      if node != null {
        ghost var forward := iter.forward;
        ghost var p := if forward then |Kept(w, true, keep, 0, lo)| else hi - 1;
        Around(w, forward, keep, lo, hi, nodes);
        if !keep(turn) {
          StillThere(w, forward, keep, lo, hi, nodes);
          UnlinkNode(node, p);
        }
      }
    }

    method SweepNext(iter: Iter<T>, ghost w: seq<Node<T>>, keep: int -> bool, ghost lo: nat, ghost hi: nat) returns (node: Node?<T>)
      requires Valid() && lo <= hi <= |w| && Sweeping(iter, w, keep, lo, hi)
      modifies iter
      ensures Valid() && iter.forward == old(iter.forward) && node == First(w, iter.forward, lo, hi)
      ensures lo < hi ==>
                iter.next == First(w, iter.forward, if iter.forward then lo + 1 else lo, if iter.forward then hi else hi - 1)
      ensures lo == hi ==> iter.next == null
    {
      ghost var a, b := Kept(w, iter.forward, keep, 0, lo), Kept(w, iter.forward, keep, hi, |w|);
      if lo < hi {
        ghost var p := if iter.forward then |a| else hi - 1;
        assert nodes[p] == if iter.forward then w[lo] else w[hi - 1];
        assert Placed(nodes, p);
        if iter.forward {
          assert b == [] && At(nodes, p + 1) == First(w, true, lo + 1, hi);
        } else {
          assert a == [] && At(nodes, p - 1) == First(w, false, lo, hi - 1);
        }
      }
      node := iter.ListNext();
    }
  }

  /** listIter */
  class Iter<T> {
    var next: Node?<T>
    var forward: bool

    /** listRewind and listRewindTail */
    constructor (list: List<T>, forward: bool)
      ensures this.forward == forward && next == if forward then list.head else list.tail
    {
      this.forward := forward;
      next := if forward then list.head else list.tail;
    }

    /** listNext */
    method ListNext() returns (current: Node?<T>)
      modifies this
      ensures current == old(next) && forward == old(forward)
      ensures next == if current == null then null else if forward then current.next else current.prev
    {
      current := next;
      if current != null {
        next := if forward then current.next else current.prev;
      }
    }
  }

  ghost function First<T>(w: seq<Node<T>>, forward: bool, lo: nat, hi: nat): Node?<T>
    requires lo <= hi <= |w|
  {
    if lo == hi then null else if forward then w[lo] else w[hi - 1]
  }

  ghost function Backwards<T>(w: seq<Node<T>>): (r: seq<Node<T>>)
    ensures |r| == |w| && forall i :: 0 <= i < |w| ==> r[i] == w[|w| - 1 - i]
  {
    seq(|w|, i requires 0 <= i < |w| => w[|w| - 1 - i])
  }

  /** The turn in which the node at position j is returned. */
  ghost function TurnOf(n: nat, forward: bool, j: int): int {
    if forward then j else n - 1 - j
  }

  /** The nodes from lo to hi that are kept. */
  ghost function Kept<T>(w: seq<Node<T>>, forward: bool, keep: int -> bool, lo: nat, hi: nat): seq<Node<T>>
    requires hi <= |w|
  {
    if hi <= lo then []
    else Kept(w, forward, keep, lo, hi - 1) + if keep(TurnOf(|w|, forward, hi - 1)) then [w[hi - 1]] else []
  }

  lemma {:induction false} KeptFirst<T>(w: seq<Node<T>>, forward: bool, keep: int -> bool, lo: nat, hi: nat)
    requires lo < hi <= |w|
    ensures Kept(w, forward, keep, lo, hi)
         == (if keep(TurnOf(|w|, forward, lo)) then [w[lo]] else []) + Kept(w, forward, keep, lo + 1, hi)
    decreases hi
  {
    if lo + 1 < hi {
      KeptFirst(w, forward, keep, lo, hi - 1);
    }
  }

  lemma {:induction false} KeptIn<T>(w: seq<Node<T>>, forward: bool, keep: int -> bool, lo: nat, hi: nat)
    requires hi <= |w|
    ensures forall n :: n in Kept(w, forward, keep, lo, hi) ==> n in w
    decreases hi
  {
    if lo < hi {
      KeptIn(w, forward, keep, lo, hi - 1);
    }
  }

  /** What the turn at the node first to come does to the sequence. */
  lemma Around<T>(w: seq<Node<T>>, forward: bool, keep: int -> bool, lo: nat, hi: nat, nodes: seq<Node<T>>)
    requires lo < hi <= |w| && (if forward then hi == |w| else lo == 0)
    requires nodes == Remaining(w, forward, keep, lo, hi)
    ensures var p := if forward then |Kept(w, true, keep, 0, lo)| else hi - 1;
            var lo', hi' := if forward then lo + 1 else lo, if forward then hi else hi - 1;
            && p < |nodes| && nodes[p] == (if forward then w[lo] else w[hi - 1])
            && Remaining(w, forward, keep, lo', hi')
               == if keep(|w| - (hi - lo)) then nodes else nodes[..p] + nodes[p + 1..]
  {
    if forward {
      assert Kept(w, true, keep, hi, |w|) == [];
      AroundNext(Kept(w, true, keep, 0, lo), w, lo);
    } else {
      assert Kept(w, false, keep, 0, lo) == [];
      KeptFirst(w, false, keep, hi - 1, |w|);
      AroundPrev(w, hi, Kept(w, false, keep, hi, |w|));
    }
  }

  /** The list while nodes lo to hi are still to come. */
  ghost function Remaining<T>(w: seq<Node<T>>, forward: bool, keep: int -> bool, lo: nat, hi: nat): seq<Node<T>>
    requires lo <= hi <= |w|
  {
    Kept(w, forward, keep, 0, lo) + w[lo..hi] + Kept(w, forward, keep, hi, |w|)
  }

  /** What is left of the nodes is nodes. */
  lemma StillThere<T>(w: seq<Node<T>>, forward: bool, keep: int -> bool, lo: nat, hi: nat, nodes: seq<Node<T>>)
    requires lo <= hi <= |w| && nodes == Remaining(w, forward, keep, lo, hi)
    ensures forall j :: 0 <= j < |nodes| ==> nodes[j] in w
  {
    KeptIn(w, forward, keep, 0, lo);
    KeptIn(w, forward, keep, hi, |w|);
    hide Kept;
    forall j | 0 <= j < |nodes|
      ensures nodes[j] in w
    {
      assert nodes[j] in Kept(w, forward, keep, 0, lo) || nodes[j] in w[lo..hi] || nodes[j] in Kept(w, forward, keep, hi, |w|);
    }
  }

  lemma AroundNext<T>(a: seq<Node<T>>, w: seq<Node<T>>, lo: nat)
    requires lo < |w|
    ensures var nodes := a + w[lo..|w|] + [];
            && nodes[|a|] == w[lo] && nodes == a + [w[lo]] + w[lo + 1..|w|] + []
            && nodes[..|a|] + nodes[|a| + 1..] == a + [] + w[lo + 1..|w|] + []
  {
    assert w[lo..|w|] == [w[lo]] + w[lo + 1..|w|];
  }

  lemma AroundPrev<T>(w: seq<Node<T>>, hi: nat, b: seq<Node<T>>)
    requires 0 < hi <= |w|
    ensures var nodes := [] + w[0..hi] + b;
            && nodes[hi - 1] == w[hi - 1] && nodes == [] + w[0..hi - 1] + ([w[hi - 1]] + b)
            && nodes[..hi - 1] + nodes[hi..] == [] + w[0..hi - 1] + ([] + b)
  {
    assert w[0..hi] == w[0..hi - 1] + [w[hi - 1]];
  }

  ghost predicate Visited<T>(w: seq<Node<T>>, forward: bool, lo: nat, hi: nat, visited: seq<Node<T>>)
    requires lo <= hi <= |w|
  {
    visited == if forward then w[..lo] else Backwards(w[hi..])
  }

  lemma VisitedNext<T>(w: seq<Node<T>>, forward: bool, lo: nat, hi: nat, visited: seq<Node<T>>)
    requires lo < hi <= |w| && Visited(w, forward, lo, hi, visited)
    ensures Visited(w, forward, if forward then lo + 1 else lo, if forward then hi else hi - 1,
                    visited + [if forward then w[lo] else w[hi - 1]])
  {}
}
