/** The packet queue: a linked list whose popped nodes are kept for the next push. */
module Queue {
  import opened Basics

  class Node<T> {
    var item: T
    var next: Node?<T>
    /** Whether the node is in the queue, and its place: counted from the first
        item ever pushed or, among the kept nodes, from the one kept longest. */
    ghost var live: bool
    ghost var place: nat

    constructor (item: T)
      ensures this.item == item && next == null
    {
      this.item := item;
      next := null;
    }
  }

  ghost function At<T>(nodes: seq<Node<T>>, i: nat): Node?<T>
  {
    if i < |nodes| then nodes[i] else null
  }

  /** The nodes reached from first, in order. */
  ghost predicate Chained<T>(first: Node?<T>, nodes: seq<Node<T>>)
    reads nodes
  {
    first == At(nodes, 0) && forall i {:trigger nodes[i]} :: 0 <= i < |nodes| ==> nodes[i].next == At(nodes, i + 1)
  }

  /** Without its first node a chain starts at the second. */
  lemma ChainedRest<T>(first: Node?<T>, nodes: seq<Node<T>>)
    requires Chained(first, nodes) && nodes != []
    ensures Chained(first.next, nodes[1..])
  {
    var rest := nodes[1..];
    forall i | 0 <= i < |rest| ensures rest[i].next == At(rest, i + 1) {
      assert rest[i] == nodes[i + 1];
    }
    assert first.next == nodes[0].next == At(nodes, 1);
  }

  class Queue<T> {
    var head: Node?<T>
    var tail: Node?<T>
    var reserved: Node?<T>
    ghost var contents: seq<T>
    ghost var enqueued: seq<Node<T>>
    ghost var spare: seq<Node<T>>
    /** How many items have been popped. */
    ghost var popped: nat
    /** The greatest length the queue has had. */
    ghost var peak: nat

    /** The chain from head to tail holds the contents. */
    ghost predicate InQueue()
      reads `head, `tail, `contents, `enqueued, `popped, enqueued
    {
      && Chained(head, enqueued)
      && tail == (if enqueued == [] then null else enqueued[|enqueued| - 1])
      && |contents| == |enqueued|
      && (forall i {:trigger enqueued[i]} :: 0 <= i < |enqueued| ==>
            enqueued[i].item == contents[i] && enqueued[i].live && enqueued[i].place == popped + i)
    }

    /** The kept nodes, none of them in the queue. */
    ghost predicate Kept()
      reads `reserved, `spare, spare
    {
      && Chained(reserved, spare)
      && (forall i {:trigger spare[i]} :: 0 <= i < |spare| ==> !spare[i].live && spare[i].place + i + 1 == |spare|)
    }

    ghost predicate Shaped()
      reads `head, `tail, `reserved, `contents, `enqueued, `spare, `popped, enqueued, spare
    {
      InQueue() && Kept()
    }

    ghost predicate Apart(node: Node<T>)
      reads `enqueued, `spare
    {
      && (forall i {:trigger enqueued[i]} :: 0 <= i < |enqueued| ==> enqueued[i] != node)
      && (forall i {:trigger spare[i]} :: 0 <= i < |spare| ==> spare[i] != node)
    }

    /** Together they hold as many nodes as the queue has ever had at once. */
    ghost predicate Valid()
      reads this, enqueued, spare
    {
      Shaped() && |contents| + |spare| == peak
    }

    constructor ()
      ensures Valid() && contents == [] && peak == 0 && enqueued == spare == []
    {
      head, tail, reserved := null, null, null;
      contents, enqueued, spare, popped, peak := [], [], [], 0, 0;
    }

    predicate IsEmpty()
      reads this, enqueued, spare
      requires Valid()
      ensures IsEmpty() <==> contents == []
    {
      head == null && tail == null
    }

    method TakeNode(item: T) returns (node: Node<T>)
      requires Shaped()
      modifies this`reserved, this`spare
      ensures Shaped() && Apart(node)
      ensures if old(spare) == [] then spare == [] && fresh(node) else node == old(spare)[0] && spare == old(spare)[1..]
    {
      if reserved != null {
        ChainedRest(reserved, spare);
        node := reserved;
        reserved := reserved.next;
        spare := spare[1..];
      } else {
        node := new Node(item);
      }
    }

    method Fill(node: Node<T>, item: T)
      requires Shaped() && Apart(node)
      modifies node
      ensures Shaped() && Apart(node) && node.item == item && node.next == null
      ensures node.live && node.place == popped + |enqueued|
    {
      node.item := item;
      node.next := null;
      node.live, node.place := true, popped + |enqueued|;
    }

    method PointTail(node: Node<T>)
      requires InQueue() && tail != null
      modifies tail`next
      ensures forall i {:trigger enqueued[i]} :: 0 <= i < |enqueued| ==>
                enqueued[i].next == At(enqueued + [node], i + 1)
    {
      tail.next := node;
      assert forall i {:trigger enqueued[i]} :: 0 <= i < |enqueued| - 1 ==> enqueued[i] != tail;
    }

    method LinkLast(node: Node<T>)
      requires InQueue() && node.next == null && node.live && node.place == popped + |enqueued|
      requires forall i {:trigger enqueued[i]} :: 0 <= i < |enqueued| ==> enqueued[i] != node
      modifies this`head, this`tail, this`contents, this`enqueued, if tail == null then {} else {tail}
      ensures InQueue() && enqueued == old(enqueued) + [node] && contents == old(contents) + [node.item]
    {
      ghost var before := enqueued;
      if head == null && tail == null {
        head := node;
      } else {
        PointTail(node);
      }
      tail := node;
      enqueued, contents := enqueued + [node], contents + [node.item];
      assert forall i {:trigger enqueued[i]} :: 0 <= i < |before| ==> enqueued[i] == before[i];
    }

    method Append(node: Node<T>, item: T)
      requires Shaped() && Apart(node)
      modifies this`head, this`tail, this`contents, this`enqueued, enqueued, node
      ensures Shaped() && enqueued == old(enqueued) + [node] && contents == old(contents) + [item]
    {
      hide Chained;
      Fill(node, item);
      assert tail != null ==> enqueued[|enqueued| - 1].live;
      LinkLast(node);
    }

    /** A node is allocated only when the queue is as long as it has ever been. */
    method Push(item: T)
      requires Valid()
      modifies this, enqueued, spare
      ensures Valid() && contents == old(contents) + [item]
      ensures peak == if |contents| > old(peak) then |contents| else old(peak)
      ensures forall n :: n in enqueued + spare ==> n in old(enqueued + spare) || fresh(n)
      ensures old(spare) != [] ==> forall n :: n in enqueued + spare <==> n in old(enqueued + spare)
    {
      hide InQueue, Kept;
      var node := TakeNode(item);
      Append(node, item);
      peak := |contents| + |spare|;
    }

    method UnlinkFirst() returns (node: Node<T>)
      requires Shaped() && enqueued != []
      modifies this`head, this`tail, this`contents, this`enqueued, this`popped
      ensures Shaped() && node == old(enqueued)[0] && enqueued == old(enqueued)[1..] && contents == old(contents)[1..]
      ensures Apart(node) && node.item == old(contents)[0]
    {
      node := head;
      if head == tail {
        head, tail := null, null;
      } else {
        ChainedRest(head, enqueued);
        head := head.next;
      }
      enqueued, contents, popped := enqueued[1..], contents[1..], popped + 1;
    }

    method Recycle(node: Node<T>)
      requires Shaped() && Apart(node)
      modifies this`reserved, this`spare, node
      ensures Shaped() && spare == [node] + old(spare)
    {
      hide InQueue;
      node.next := reserved;
      node.live, node.place := false, |spare|;
      reserved := node;
      ghost var before := spare;
      spare := [node] + spare;
      assert forall i {:trigger spare[i]} :: 0 < i < |spare| ==> spare[i] == before[i - 1];
    }

    method Pop() returns (item: Option<T>)
      requires Valid()
      modifies this, enqueued, spare
      ensures Valid() && peak == old(peak)
      ensures item == if old(contents) == [] then None else Some(old(contents)[0])
      ensures contents == if old(contents) == [] then [] else old(contents)[1..]
      ensures forall n :: n in enqueued + spare <==> n in old(enqueued + spare)
    {
      item := None;
      if !(head == null && tail == null) {
        var node := UnlinkFirst();
        item := Some(node.item);
        Recycle(node);
      }
    }

    method EnqueuedCount() returns (count: nat)
      requires Valid()
      ensures count == |contents|
    {
      count := Count(head, enqueued);
    }

    method ReservedCount() returns (count: nat)
      requires Valid()
      ensures count == peak - |contents|
    {
      count := Count(reserved, spare);
    }
  }

  method Count<T>(first: Node?<T>, ghost nodes: seq<Node<T>>) returns (count: nat)
    requires Chained(first, nodes)
    ensures count == |nodes|
  {
    count := 0;
    var iter := first;
    while iter != null
      invariant count <= |nodes| && iter == At(nodes, count)
      decreases |nodes| - count
    {
      iter := iter.next;
      count := count + 1;
    }
  }
}
