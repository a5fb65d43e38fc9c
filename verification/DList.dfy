/** Intrusive doubly linked lists. */
module DList {
  /** A node, embedded in what is listed. */
  class Node {
    var list: List?
    var prev: Node?
    var next: Node?

    constructor ()
      ensures list == null && prev == null && next == null
    {
      list, prev, next := null, null, null;
    }
  }

  /** Removing what was just inserted. */
  lemma RemoveUndoesInsert<T>(s: seq<T>, i: nat, x: T)
    requires i <= |s|
    ensures var now := s[..i] + [x] + s[i..]; now[..i] + now[i + 1..] == s
  {
  }

  /** Where a node goes: non-negative positions count from the head, -1 is the end, and other negative ones
      are before the node counted from the end, the last node being 1; all as far as there are nodes. */
  function Index(pos: int, n: nat): (i: nat)
    ensures i <= n
  {
    if pos >= 0 then (if pos < n then pos else n)
    else if pos == -1 then n
    else if n + pos > 0 then n + pos else 0
  }

  class List {
    var head: Node?
    var tail: Node?
    ghost var nodes: seq<Node>

    static ghost predicate Distinct(s: seq<Node>) {
      forall i, j :: 0 <= i < j < |s| ==> s[i] != s[j]
    }

    static function At(s: seq<Node>, i: int): Node? {
      if 0 <= i < |s| then s[i] else null
    }

    /** Node i knows its list and its neighbours. */
    ghost predicate Linked(s: seq<Node>, i: nat)
      requires i < |s|
      reads s
    {
      s[i].list == this && s[i].prev == At(s, i - 1) && s[i].next == At(s, i + 1)
    }

    ghost predicate Valid()
      reads this, nodes
    {
      && Distinct(nodes) && head == At(nodes, 0) && tail == At(nodes, |nodes| - 1)
      && forall i: nat :: i < |nodes| ==> Linked(nodes, i)
    }

    constructor ()
      ensures Valid() && nodes == []
    {
      head, tail, nodes := null, null, [];
    }

    /** The node `steps` nodes after the head, or none. */
    method FromHead(steps: nat) returns (curr: Node?, i: nat)
      requires Valid()
      ensures i == (if steps < |nodes| then steps else |nodes|) && curr == At(nodes, i)
    {
      curr, i := head, 0;
      while i < steps && curr != null
        invariant i <= steps && i <= |nodes| && curr == At(nodes, i)
      {
        assert Linked(nodes, i);
        curr, i := curr.next, i + 1;
      }
    }

    /** The node `steps` nodes before the tail, or the head. */
    method FromTail(steps: nat) returns (curr: Node?, ghost at: nat)
      requires Valid() && nodes != []
      ensures at == (if steps < |nodes| then |nodes| - 1 - steps else 0) && curr == At(nodes, at)
    {
      curr := tail;
      at := |nodes| - 1;
      var i := 0;
      assert Linked(nodes, at);
      while i < steps && curr.prev != null
        invariant i <= steps && i < |nodes| && at == |nodes| - 1 - i && curr == At(nodes, at) && Linked(nodes, at)
      {
        curr, i, at := curr.prev, i + 1, at - 1;
        assert Linked(nodes, at);
      }
    }

    /** Links a node in after the tail. */
    method Append(node: Node)
      requires Valid() && node !in nodes && node.list == this && node.prev == node.next == null
      modifies this, node, nodes
      ensures Valid() && nodes == old(nodes) + [node]
    {
      ghost var was := nodes;
      if head == null {
        head, tail := node, node;
      } else {
        assert Linked(was, |was| - 1);
        node.prev := tail;
        tail.next := node;
        tail := node;
      }
      nodes := was + [node];
      forall k: nat | k < |nodes| ensures Linked(nodes, k) {
        if k < |was| { assert nodes[k] == was[k] && old(Linked(nodes, k)); }
      }
    }

    /** Links a node in before another one. */
    method InsertBefore(node: Node, curr: Node, ghost i: nat)
      requires Valid() && node !in nodes && node.list == this && node.prev == node.next == null
      requires curr == At(nodes, i)
      modifies this, node, nodes
      ensures Valid() && nodes == old(nodes)[..i] + [node] + old(nodes)[i..]
    {
      ghost var was := nodes;
      assert Linked(was, i);
      if i > 0 { assert Linked(was, i - 1); }
      node.prev := curr.prev;
      node.next := curr;
      if curr.prev != null { curr.prev.next := node; } else { head := node; }
      curr.prev := node;
      nodes := was[..i] + [node] + was[i..];
      forall k: nat | k < |nodes| ensures Linked(nodes, k) {
        if k < i { assert nodes[k] == was[k] && old(Linked(nodes, k)); }
        if k > i { assert nodes[k] == was[k - 1] && old(Linked(nodes, k - 1)); }
      }
    }

    /** Inserts a node at a position. */
    method Insert(node: Node, pos: int)
      requires Valid() && node !in nodes
      modifies this, node, nodes
      ensures var i := Index(pos, |old(nodes)|); Valid() && nodes == old(nodes)[..i] + [node] + old(nodes)[i..]
      ensures 0 <= pos <= |old(nodes)| ==> nodes[pos] == node
      ensures pos == -1 || pos > |old(nodes)| ==> nodes[|old(nodes)|] == node
      ensures -|old(nodes)| <= pos <= -2 ==> nodes[|old(nodes)| + pos] == node
      ensures pos < -|old(nodes)| && pos <= -2 ==> nodes[0] == node
    {
      hide Distinct, Linked;
      node.list := this;
      node.prev, node.next := null, null;
      if head == null {
        Append(node);
        return;
      }
      if pos >= 0 {
        var curr, i := FromHead(pos);
        if curr == null { Append(node); } else { InsertBefore(node, curr, i); }
      } else {
        var steps := -pos - 1;
        var curr, at := FromTail(steps);
        if steps == 0 { Append(node); } else { InsertBefore(node, curr, at); }
      }
    }

    /** Takes a node of the list out; a node that is in no list, or none, is left alone. */
    method Remove(node: Node?, ghost i: nat)
      requires Valid() && (node == null || node.list == null || (i < |nodes| && nodes[i] == node))
      modifies this, nodes
      ensures Valid() && nodes == if node == null || old(node.list) == null then old(nodes)
                                     else old(nodes)[..i] + old(nodes)[i + 1..]
      ensures node != null && old(node.list) != null ==> node.list == null && node.prev == node.next == null
      ensures node == null || old(node.list) == null ==> unchanged(this) && unchanged(nodes)
    {
      if node == null || node.list == null { return; }
      ghost var was := nodes;
      assert Linked(was, i) && Linked(was, 0) && Linked(was, |was| - 1);
      if i > 0 { assert Linked(was, i - 1); }
      if i + 1 < |was| { assert Linked(was, i + 1); }
      if head == node {
        if head == tail {
          head, tail := null, null;
        } else {
          head := node.next;
          node.next.prev := null;
        }
      } else if tail == node {
        tail := node.prev;
        node.prev.next := null;
      } else {
        var prev, next := node.prev, node.next;
        prev.next := next;
        next.prev := prev;
      }
      node.list := null;
      node.prev, node.next := null, null;
      nodes := was[..i] + was[i + 1..];
      forall k: nat | k < |nodes| ensures Linked(nodes, k) {
        var o := if k < i then k else k + 1;
        assert nodes[k] == was[o] && old(Linked(nodes, o)) && nodes[k] != node;
      }
    }
  }
}
