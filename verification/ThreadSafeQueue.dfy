// The two-mutex queue object on nodes in memory, each operation run under its mutexes to the end.
// That operations which overlap act like this too is shown in TwoLockGuarantees.
module ThreadSafeQueue {
  import opened Wrappers

  class Node<T> {
    var data: Option<T>
    var next: Node?<T>

    constructor ()
      ensures data == None && next == null
    {
      data, next := None, null;
    }
  }

  class ThreadSafeQueue<T> {
    var head: Node<T>
    var tail: Node<T>
    ghost var nodes: seq<Node<T>>   // from the head to the empty node at the tail
    ghost var contents: seq<T>

    ghost predicate Valid()
      reads this, nodes
    {
      && |nodes| == |contents| + 1 && head == nodes[0] && tail == nodes[|contents|]
      && (forall i, j | 0 <= i < j < |nodes| :: nodes[i] != nodes[j])
      && (forall i | 0 <= i < |contents| :: nodes[i].next == nodes[i + 1] && nodes[i].data == Some(contents[i]))
      && tail.next == null
    }

    constructor ()
      ensures Valid() && contents == [] && fresh(nodes)
    {
      var dummy := new Node();
      head, tail := dummy, dummy;
      nodes, contents := [dummy], [];
    }

    // Fill the empty node and hang a new empty one behind it.
    method Push(x: T)
      requires Valid()
      modifies this, tail
      ensures Valid() && contents == old(contents) + [x]
      ensures nodes == old(nodes) + [tail] && fresh(tail)
    {
      var p := new Node();
      tail.data := Some(x);
      tail.next := p;
      tail := p;
      nodes, contents := nodes + [p], contents + [x];
    }

    // `head` moves to the next node; the old one belongs to the caller alone.
    method PopHead() returns (popped: Node<T>)
      requires Valid() && contents != []
      modifies this, head
      ensures Valid() && contents == old(contents)[1..] && nodes == old(nodes)[1..]
      ensures popped == old(head) && popped !in nodes && popped.next == null && popped.data == old(head.data)
    {
      popped := head;
      assert popped.next == nodes[1];
      head := popped.next;
      popped.next := null;
      nodes, contents := nodes[1..], contents[1..];
    }

    method TryPop() returns (result: Option<T>)
      requires Valid()
      modifies this, head
      ensures Valid()
      ensures result == if old(contents) == [] then None else Some(old(contents)[0])
      ensures contents == if old(contents) == [] then [] else old(contents)[1..]
      ensures nodes == if old(contents) == [] then old(nodes) else old(nodes)[1..]
    {
      HeadIsTail();
      if head == tail { return None; }
      var popped := PopHead();
      return popped.data;
    }

    // The item is moved out of the node before the node is unlinked.
    method TryPopInto(value: T) returns (ok: bool, r: T)
      requires Valid()
      modifies this, head
      ensures Valid()
      ensures ok <==> old(contents) != []
      ensures r == if ok then old(contents)[0] else value
      ensures contents == if ok then old(contents)[1..] else []
    {
      HeadIsTail();
      if head == tail { return false, value; }
      r := head.data.value;
      var _ := PopHead();
      ok := true;
    }

    method Empty() returns (r: bool)
      requires Valid()
      ensures r <==> contents == []
    {
      HeadIsTail();
      r := head == tail;
    }

    lemma HeadIsTail()
      requires Valid()
      ensures head == tail <==> contents == []
    {
    }
  }
}
