/** A doubly linked list whose nodes live in one growable array and are named by
    index, 0 standing for null. Nodes not in the list form a chain of spares. */
module List {

  import opened Basics

  /** Objects are pointers; 0 is the null pointer. */
  type Object = nat

  datatype Node = Node(item: Object, next: nat, previous: nat)

  const DEFAULT_CAPACITY: nat := 10

  /** The element at i, or the null index outside the sequence. */
  function At(s: seq<nat>, i: int): nat
  {
    if 0 <= i < |s| then s[i] else 0
  }

  /** `next` leads along s and `previous` leads back. */
  ghost predicate Linked(nodes: seq<Node>, s: seq<nat>)
  {
    && Distinct(s)
    && (forall i :: 0 <= i < |s| ==> 0 < s[i] < |nodes|)
    && (forall i {:trigger nodes[s[i]]} :: 0 <= i < |s| ==>
          nodes[s[i]].next == At(s, i + 1) && nodes[s[i]].previous == At(s, i - 1))
  }

  /** `next` leads along s. */
  ghost predicate Chained(nodes: seq<Node>, s: seq<nat>)
  {
    && Distinct(s)
    && (forall i :: 0 <= i < |s| ==> 0 < s[i] < |nodes|)
    && (forall i {:trigger nodes[s[i]]} :: 0 <= i < |s| ==> nodes[s[i]].next == At(s, i + 1))
  }

  /** Every index but 0 is in exactly one of the two chains. */
  ghost predicate Partition(n: nat, live: seq<nat>, spare: seq<nat>)
  {
    && (forall i, j :: 0 <= i < |live| && 0 <= j < |spare| ==> live[i] != spare[j])
    && (forall k :: 0 < k < n ==> k in live || k in spare)
  }

  function Objects(nodes: seq<Node>, s: seq<nat>): (o: seq<Object>)
    requires forall i :: 0 <= i < |s| ==> s[i] < |nodes|
    ensures |o| == |s| && forall i {:trigger o[i]} :: 0 <= i < |s| ==> o[i] == nodes[s[i]].item
  {
    seq(|s|, i requires 0 <= i < |s| => nodes[s[i]].item)
  }

  /** Copied to the front of a larger block, a chain stays linked. */
  lemma Moved(nodes: seq<Node>, block: seq<Node>, s: seq<nat>)
    requires Linked(nodes, s) && |nodes| <= |block| && forall i :: 0 <= i < |s| ==> block[s[i]] == nodes[s[i]]
    ensures Linked(block, s) && Objects(block, s) == Objects(nodes, s)
  {
  }

  /** s with position k deleted. */
  function Without<T>(s: seq<T>, k: nat): (t: seq<T>)
    requires k < |s|
    ensures |t| == |s| - 1
    ensures forall i {:trigger t[i]} :: 0 <= i < |t| ==> t[i] == s[if i < k then i else i + 1]
  {
    seq(|s| - 1, i requires 0 <= i < |s| - 1 => s[if i < k then i else i + 1])
  }

  /** Position k is the first at which o stands. */
  ghost predicate FirstAt(s: seq<Object>, o: Object, k: nat)
  {
    k < |s| && s[k] == o && forall i :: 0 <= i < k ==> s[i] != o
  }

  lemma FirstAdded(s: seq<Object>, o: Object, k: nat)
    requires o !in s && FirstAt(s + [o], o, k)
    ensures Without(s + [o], k) == s
  {
    assert forall i :: 0 <= i < |s| ==> (s + [o])[i] == s[i] && s[i] in s;
    assert k == |s|;
  }

  // ----- relinking, on values

  /** A node outside the chain may change freely. */
  lemma LinkedElsewhere(nodes: seq<Node>, s: seq<nat>, x: nat, n: Node)
    requires Linked(nodes, s) && x < |nodes| && x !in s
    ensures Linked(nodes[x := n], s) && Objects(nodes[x := n], s) == Objects(nodes, s)
  {
    assert forall i :: 0 <= i < |s| ==> nodes[x := n][s[i]] == nodes[s[i]];
  }

  lemma ChainedElsewhere(nodes: seq<Node>, s: seq<nat>, x: nat, n: Node)
    requires Chained(nodes, s) && x < |nodes| && x !in s
    ensures Chained(nodes[x := n], s)
  {
    assert forall i :: 0 <= i < |s| ==> nodes[x := n][s[i]] == nodes[s[i]];
  }

  lemma ChainedTail(nodes: seq<Node>, s: seq<nat>)
    requires Chained(nodes, s) && s != []
    ensures Chained(nodes, s[1..]) && nodes[s[0]].next == At(s[1..], 0) && s[0] !in s[1..]
  {
    var t := s[1..];
    forall i | 0 <= i < |t|
      ensures nodes[t[i]].next == At(t, i + 1)
    {
      assert t[i] == s[i + 1];
    }
  }

  lemma ChainedCons(nodes: seq<Node>, s: seq<nat>, x: nat, n: Node)
    requires Chained(nodes, s) && 0 < x < |nodes| && x !in s && n.next == At(s, 0)
    ensures Chained(nodes[x := n], [x] + s)
  {
    ChainedElsewhere(nodes, s, x, n);
    var t := [x] + s;
    forall i | 0 <= i < |t|
      ensures nodes[x := n][t[i]].next == At(t, i + 1)
    {
      if i > 0 {
        assert t[i] == s[i - 1];
      }
    }
  }

  /** Linking x behind the last node, as list_add does. */
  lemma LinkedAppend(nodes: seq<Node>, s: seq<nat>, x: nat, o: Object)
    requires Linked(nodes, s) && 0 < x < |nodes| && x !in s
    ensures var last := At(s, |s| - 1);
            var n := nodes[x := Node(o, 0, last)];
            var m := if s == [] then n else n[last := n[last].(next := x)];
            Linked(m, s + [x]) && Objects(m, s + [x]) == Objects(nodes, s) + [o]
  {
    var last, t := At(s, |s| - 1), s + [x];
    var n := nodes[x := Node(o, 0, last)];
    var m := if s == [] then n else n[last := n[last].(next := x)];
    forall i | 0 <= i < |t|
      ensures 0 < t[i] < |m| && m[t[i]].next == At(t, i + 1) && m[t[i]].previous == At(t, i - 1)
      ensures m[t[i]].item == if i == |s| then o else nodes[t[i]].item
    {
      if i < |s| {
        assert t[i] == s[i] && s[i] != x && n[s[i]] == nodes[s[i]];
        assert i < |s| - 1 ==> s[i] != last;
      }
    }
  }

  /** The node array after the neighbours of position k have been linked to each other. */
  function Bypass(nodes: seq<Node>, s: seq<nat>, k: nat): (m: seq<Node>)
    requires k < |s| && forall i :: 0 <= i < |s| ==> s[i] < |nodes|
    ensures |m| == |nodes|
  {
    var prev, next := At(s, k - 1), At(s, k + 1);
    var n := if k > 0 then nodes[prev := nodes[prev].(next := next)] else nodes;
    if k + 1 < |s| then n[next := n[next].(previous := prev)] else n
  }

  lemma LinkedBypass(nodes: seq<Node>, s: seq<nat>, k: nat)
    requires Linked(nodes, s) && k < |s|
    ensures Linked(Bypass(nodes, s, k), Without(s, k))
  {
    var m, t := Bypass(nodes, s, k), Without(s, k);
    DistinctWithout(s, k);
    forall i | 0 <= i < |t|
      ensures 0 < t[i] < |m| && m[t[i]].next == At(t, i + 1) && m[t[i]].previous == At(t, i - 1)
    {
      BypassedAt(nodes, s, k, i);
    }
  }

  lemma ObjectsBypass(nodes: seq<Node>, s: seq<nat>, k: nat)
    requires Linked(nodes, s) && k < |s| && Linked(Bypass(nodes, s, k), Without(s, k))
    ensures Objects(Bypass(nodes, s, k), Without(s, k)) == Without(Objects(nodes, s), k)
  {
    var o, w := Objects(Bypass(nodes, s, k), Without(s, k)), Without(Objects(nodes, s), k);
    forall i | 0 <= i < |s| - 1
      ensures o[i] == w[i]
    {
      BypassedAt(nodes, s, k, i);
      assert Without(s, k)[i] == s[if i < k then i else i + 1];
    }
  }

  lemma DistinctWithout(s: seq<nat>, k: nat)
    requires Distinct(s) && k < |s|
    ensures Distinct(Without(s, k)) && s[k] !in Without(s, k)
  {
  }

  lemma BypassedAt(nodes: seq<Node>, s: seq<nat>, k: nat, i: nat)
    requires Linked(nodes, s) && k < |s| && i < |s| - 1
    ensures var m, t := Bypass(nodes, s, k), Without(s, k);
            && 0 < t[i] < |m| && t[i] != s[k]
            && m[t[i]].next == At(t, i + 1) && m[t[i]].previous == At(t, i - 1) && m[t[i]].item == nodes[t[i]].item
  {
    hide Bypass;
    BypassAt(nodes, s, k, if i < k then i else i + 1);
    AtWithout(s, k, i);
    AtWithout(s, k, i + 1);
    AtWithout(s, k, i - 1);
  }

  lemma AtWithout(s: seq<nat>, k: nat, j: int)
    requires k < |s|
    ensures At(Without(s, k), j) == if j < k then At(s, j) else At(s, j + 1)
  {
  }

  lemma BypassElsewhere(nodes: seq<Node>, s: seq<nat>, k: nat)
    requires Linked(nodes, s) && k < |s|
    ensures forall y :: 0 <= y < |nodes| && y !in s ==> Bypass(nodes, s, k)[y] == nodes[y]
  {
  }

  lemma BypassAt(nodes: seq<Node>, s: seq<nat>, k: nat, i: nat)
    requires Linked(nodes, s) && k < |s| && i < |s| && i != k
    ensures var m := Bypass(nodes, s, k);
            && m[s[i]].item == nodes[s[i]].item
            && m[s[i]].next == (if i == k - 1 then At(s, k + 1) else At(s, i + 1))
            && m[s[i]].previous == (if i == k + 1 then At(s, k - 1) else At(s, i - 1))
  {
    assert nodes[s[i]].next == At(s, i + 1) && nodes[s[i]].previous == At(s, i - 1);
    assert k > 0 && i != k - 1 ==> s[i] != s[k - 1];
    assert k + 1 < |s| && i != k + 1 ==> s[i] != s[k + 1];
  }

  lemma PartitionMoved(n: nat, live: seq<nat>, spare: seq<nat>)
    requires Partition(n, live, spare) && spare != [] && spare[0] !in spare[1..]
    ensures Partition(n, live + [spare[0]], spare[1..])
  {
    forall k | 0 < k < n
      ensures k in live + [spare[0]] || k in spare[1..]
    {
      assert spare == [spare[0]] + spare[1..];
    }
  }

  lemma SpareUntouched(n0: seq<Node>, n1: seq<Node>, live: seq<nat>, spare: seq<nat>)
    requires Chained(n0, spare) && |n1| == |n0| && Partition(|n0|, live, spare)
    requires forall y :: 0 <= y < |n0| && y !in live ==> n1[y] == n0[y]
    ensures Chained(n1, spare)
  {
    assert forall j :: 0 <= j < |spare| ==> spare[j] !in live;
  }

  lemma PartitionFreed(n: nat, live: seq<nat>, spare: seq<nat>, k: nat)
    requires Partition(n, live, spare) && k < |live| && Distinct(live)
    ensures Partition(n, Without(live, k), [live[k]] + spare) && live[k] !in spare
  {
    var t := Without(live, k);
    forall y | 0 < y < n
      ensures y in t || y in [live[k]] + spare
    {
      if y in live {
        var i :| 0 <= i < |live| && live[i] == y;
        assert i < k ==> t[i] == y;
        assert i > k ==> t[i - 1] == y;
      }
    }
    assert forall i :: 0 <= i < |t| ==> t[i] == if i < k then live[i] else live[i + 1];
  }

  lemma PartitionGrown(capacity: nat, extra: nat, live: seq<nat>, woven: seq<nat>)
    requires Partition(capacity + 1, live, []) && |woven| == extra
    requires forall i :: 0 <= i < |live| ==> live[i] <= capacity
    requires forall j :: 0 <= j < extra ==> woven[j] == capacity + 1 + j
    ensures Partition(capacity + extra + 1, live, woven)
  {
    forall k | 0 < k < capacity + extra + 1
      ensures k in live || k in woven
    {
      if k > capacity {
        assert woven[k - capacity - 1] == k;
      }
    }
  }

  lemma Next(nodes: seq<Node>, live: seq<nat>, k: nat)
    requires Linked(nodes, live) && k < |live|
    ensures 0 < live[k] < |nodes| && Objects(nodes, live)[k] == nodes[live[k]].item
    ensures nodes[live[k]].next == At(live, k + 1) < |nodes| && nodes[live[k]].previous == At(live, k - 1) < |nodes|
  {
  }

  lemma Counted(nodes: seq<Node>, live: seq<nat>)
    requires Linked(nodes, live)
    ensures |Objects(nodes, live)| == |live|
    ensures forall k :: -1 <= k <= |live| ==> (At(live, k) == 0 <==> k == -1 || k == |live|)
  {
  }

  // ----- both chains together

  /** The live chain is linked both ways, the spare chain forwards, and together they hold every index but 0 once. */
  ghost predicate Shape(nodes: seq<Node>, live: seq<nat>, spare: seq<nat>)
  {
    Linked(nodes, live) && Chained(nodes, spare) && Partition(|nodes|, live, spare)
  }

  /** As Shape, with x taken out of the live chain and not yet spare. */
  ghost predicate Detached(nodes: seq<Node>, live: seq<nat>, spare: seq<nat>, x: nat)
  {
    && Linked(nodes, live) && Chained(nodes, spare) && Partition(|nodes|, live, [x] + spare)
    && 0 < x < |nodes| && x !in live && x !in spare
  }

  lemma FirstSpare(nodes: seq<Node>, live: seq<nat>, spare: seq<nat>)
    requires Shape(nodes, live, spare) && spare != []
    ensures 0 < spare[0] < |nodes| && spare[0] !in live && forall i :: 0 <= i < |live| ==> 0 < live[i] < |nodes|
  {
  }

  lemma ShapeBypass(nodes: seq<Node>, live: seq<nat>, spare: seq<nat>, k: nat)
    requires Shape(nodes, live, spare) && k < |live|
    ensures Detached(Bypass(nodes, live, k), Without(live, k), spare, live[k])
    ensures Objects(Bypass(nodes, live, k), Without(live, k)) == Without(Objects(nodes, live), k)
  {
    LinkedBypass(nodes, live, k);
    ObjectsBypass(nodes, live, k);
    BypassElsewhere(nodes, live, k);
    DistinctWithout(live, k);
    SpareUntouched(nodes, Bypass(nodes, live, k), live, spare);
    PartitionFreed(|nodes|, live, spare, k);
  }

  lemma ShapeFreed(nodes: seq<Node>, live: seq<nat>, spare: seq<nat>, x: nat, n: Node)
    requires Detached(nodes, live, spare, x) && n.next == At(spare, 0)
    ensures Shape(nodes[x := n], live, [x] + spare) && Objects(nodes[x := n], live) == Objects(nodes, live)
  {
    LinkedElsewhere(nodes, live, x, n);
    ChainedCons(nodes, spare, x, n);
  }

  /** The node array after x has been linked behind the last node. */
  function Appended(nodes: seq<Node>, live: seq<nat>, x: nat, o: Object): (m: seq<Node>)
    requires x < |nodes| && forall i :: 0 <= i < |live| ==> live[i] < |nodes|
    ensures |m| == |nodes|
  {
    var last := At(live, |live| - 1);
    var n := nodes[x := Node(o, 0, last)];
    if live == [] then n else n[last := n[last].(next := x)]
  }

  lemma ShapeAppend(nodes: seq<Node>, live: seq<nat>, spare: seq<nat>, o: Object)
    requires Shape(nodes, live, spare) && spare != []
    ensures var m := Appended(nodes, live, spare[0], o);
            Shape(m, live + [spare[0]], spare[1..]) && Objects(m, live + [spare[0]]) == Objects(nodes, live) + [o]
    ensures nodes[spare[0]].next == At(spare[1..], 0)
  {
    var x, last := spare[0], At(live, |live| - 1);
    ChainedTail(nodes, spare);
    LinkedAppend(nodes, live, x, o);
    ChainedElsewhere(nodes, spare[1..], x, Node(o, 0, last));
    if live != [] {
      var n := nodes[x := Node(o, 0, last)];
      ChainedElsewhere(n, spare[1..], last, n[last].(next := x));
    }
    PartitionMoved(|nodes|, live, spare);
  }

  lemma ShapeGrown(before: seq<Node>, after: seq<Node>, live: seq<nat>, spare: seq<nat>, woven: seq<nat>)
    requires Shape(before, live, spare) && spare == [] && |after| == |before| + |woven| && before != []
    requires before <= after
    requires Chained(after, woven) && forall j :: 0 <= j < |woven| ==> woven[j] == |before| + j
    ensures Shape(after, live, woven) && Objects(after, live) == Objects(before, live)
  {
    Moved(before, after, live);
    PartitionGrown(|before| - 1, |woven|, live, woven);
  }

  class List {
    var nodes: array<Node>
    var head: nat
    var tail: nat
    var reserved: nat
    var capacity: nat
    ghost var live: seq<nat>
    ghost var spare: seq<nat>

    ghost predicate Valid()
      reads this, nodes
    {
      && nodes.Length == capacity + 1
      && Shape(nodes[..], live, spare)
      && head == At(live, 0) && tail == At(live, |live| - 1) && reserved == At(spare, 0)
    }

    /** The objects of the list, first to last. */
    ghost function Contents(): seq<Object>
      requires Valid()
      reads this, nodes
    {
      Objects(nodes[..], live)
    }

    constructor (initialCapacity: nat)
      ensures Valid() && Contents() == [] && capacity == initialCapacity && fresh(nodes)
    {
      nodes := new Node[1](_ => Node(0, 0, 0));
      head, tail, reserved, capacity := 0, 0, 0, 0;
      live, spare := [], [];
      new;
      Reserve(initialCapacity);
    }

    /** Moves the nodes to a larger block and weaves the new ones, backwards, into the spare chain. */
    method Reserve(extra: nat)
      requires Valid() && spare == []
      modifies this
      ensures Valid() && fresh(nodes) && capacity == old(capacity) + extra && |spare| == extra
      ensures Contents() == old(Contents()) && live == old(live) && head == old(head) && tail == old(tail)
    {
      var block;
      var next;
      ghost var woven;
      block, next, woven := NewBlock(extra);
      Install(block, next, woven, extra);
    }

    method NewBlock(extra: nat) returns (block: array<Node>, next: nat, ghost woven: seq<nat>)
      requires Valid() && spare == []
      ensures fresh(block) && block.Length == capacity + extra + 1
      ensures Shape(block[..], live, woven) && |woven| == extra && next == At(woven, 0)
      ensures Objects(block[..], live) == Contents()
    {
      block := Enlarged(extra);
      next, woven := Weave(block, capacity, extra);
      ShapeGrown(nodes[..], block[..], live, spare, woven);
    }

    method Install(block: array<Node>, next: nat, ghost woven: seq<nat>, extra: nat)
      requires Shape(block[..], live, woven) && block.Length == capacity + extra + 1 && next == At(woven, 0)
      requires head == At(live, 0) && tail == At(live, |live| - 1)
      modifies this`nodes, this`reserved, this`spare, this`capacity
      ensures Valid() && nodes == block && spare == woven && capacity == old(capacity) + extra
      ensures Contents() == Objects(block[..], live)
    {
      nodes := block;
      reserved := next;
      spare := woven;
      capacity := capacity + extra;
    }

    method Enlarged(extra: nat) returns (block: array<Node>)
      requires nodes.Length == capacity + 1
      ensures fresh(block) && block.Length == capacity + extra + 1
      ensures nodes[..] <= block[..]
    {
      block := new Node[capacity + extra + 1](_ => Node(0, 0, 0));
      for i := 0 to nodes.Length
        invariant forall k :: 0 <= k < i ==> block[k] == nodes[k]
      {
        block[i] := nodes[i];
      }
    }

    static method Weave(block: array<Node>, capacity: nat, extra: nat) returns (next: nat, ghost woven: seq<nat>)
      requires block.Length == capacity + extra + 1
      modifies block
      ensures |woven| == extra && Chained(block[..], woven) && next == At(woven, 0)
      ensures forall j :: 0 <= j < extra ==> woven[j] == capacity + 1 + j
      ensures block[..capacity + 1] == old(block[..capacity + 1])
    {
      next, woven := 0, [];
      var i := extra;
      while i > 0
        invariant 0 <= i <= extra && |woven| == extra - i && next == At(woven, 0)
        invariant forall j :: 0 <= j < |woven| ==> woven[j] == capacity + i + 1 + j
        invariant Chained(block[..], woven)
        invariant forall i :: 0 <= i <= capacity ==> block[i] == old(block[i])
      {
        var index := capacity + i;
        ChainedCons(block[..], woven, index, Node(0, next, 0));
        ghost var before := block[..];
        block[index] := Node(0, next, 0);
        assert block[..] == before[index := Node(0, next, 0)];
        next := index;
        woven := [index] + woven;
        i := i - 1;
      }
    }

    method IsEmpty() returns (empty: bool)
      requires Valid()
      ensures empty <==> Contents() == []
    {
      empty := head == 0 && tail == 0;
    }

    /** Appends, growing by ten nodes when no spare is left. */
    method Add(o: Object)
      requires Valid()
      modifies this, nodes
      ensures Valid() && Contents() == old(Contents()) + [o]
      ensures capacity == if old(spare) == [] then old(capacity) + DEFAULT_CAPACITY else old(capacity)
      ensures nodes == old(nodes) || fresh(nodes)
    {
      if reserved == 0 {
        Reserve(DEFAULT_CAPACITY);
      }
      Append(o);
    }

    method Append(o: Object)
      requires Valid() && spare != []
      modifies this`head, this`tail, this`reserved, this`live, this`spare, nodes
      ensures Valid() && Contents() == old(Contents()) + [o]
    {
      hide Linked, Chained, Partition;
      FirstSpare(nodes[..], live, spare);
      ghost var after := Appended(nodes[..], live, reserved, o);
      ShapeAppend(nodes[..], live, spare, o);
      var index := reserved;
      reserved := nodes[index].next;
      LinkLast(index, o);
      live, spare := live + [index], spare[1..];
      assert nodes[..] == after;
    }

    /** Resets the node and links it behind the tail, if there is one. */
    method LinkLast(index: nat, o: Object)
      requires 0 < index < nodes.Length && index !in live
      requires head == At(live, 0) && tail == At(live, |live| - 1)
      requires forall i :: 0 <= i < |live| ==> 0 < live[i] < nodes.Length
      modifies this`head, this`tail, nodes
      ensures nodes[..] == Appended(old(nodes[..]), live, index, o)
      ensures head == At(live + [index], 0) && tail == index
    {
      nodes[index] := Node(o, 0, 0);
      if tail != 0 {
        nodes[tail] := nodes[tail].(next := index);
        nodes[index] := nodes[index].(previous := tail);
        tail := index;
      } else {
        head := index;
        tail := index;
      }
    }

    /** The first node holding o, or the null index. */
    method FindNodeIndex(o: Object) returns (index: nat, ghost k: nat)
      requires Valid()
      ensures index == 0 <==> o !in Contents()
      ensures index != 0 ==> k < |live| && index == live[k] && FirstAt(Contents(), o, k)
    {
      hide Linked, Chained, Partition;
      Counted(nodes[..], live);
      index, k := head, 0;
      while index != 0
        invariant k <= |live| && index == At(live, k)
        invariant forall i :: 0 <= i < k ==> Contents()[i] != o
        decreases |live| - k
      {
        Next(nodes[..], live, k);
        if nodes[index].item == o {
          return;
        }
        index := nodes[index].next;
        k := k + 1;
      }
    }

    /** Deletes the first occurrence; the caller must know there is one. */
    method Remove(o: Object)
      requires Valid() && o in Contents()
      modifies this`head, this`tail, this`reserved, this`live, this`spare, nodes
      ensures Valid() && capacity == old(capacity)
      ensures exists k :: 0 <= k < |old(Contents())| && FirstAt(old(Contents()), o, k) &&
                          Contents() == Without(old(Contents()), k)
    {
      var index;
      ghost var k;
      index, k := FindNodeIndex(o);
      Unlink(index, k);
    }

    /** Takes the node out between its neighbours, or off an end. */
    method LinkAround(index: nat, ghost k: nat)
      requires Linked(nodes[..], live) && k < |live| && index == live[k]
      requires head == At(live, 0) && tail == At(live, |live| - 1)
      modifies this`head, this`tail, nodes
      ensures nodes[..] == Bypass(old(nodes[..]), live, k)
      ensures head == At(Without(live, k), 0) && tail == At(Without(live, k), |live| - 2)
    {
      hide Linked, Without;
      Counted(nodes[..], live);
      Next(nodes[..], live, k);
      AtWithout(live, k, 0);
      AtWithout(live, k, |live| - 2);
      var node := nodes[index];
      if node.previous == 0 {
        if node.next == 0 {
          head := 0;
          tail := 0;
        } else {
          nodes[node.next] := nodes[node.next].(previous := 0);
          head := node.next;
        }
      } else if node.next == 0 {
        tail := node.previous;
        nodes[tail] := nodes[tail].(next := 0);
      } else {
        nodes[node.previous] := nodes[node.previous].(next := node.next);
        nodes[node.next] := nodes[node.next].(previous := node.previous);
      }
    }

    method Unlink(index: nat, ghost k: nat)
      requires Valid() && k < |live| && index == live[k]
      modifies this`head, this`tail, this`reserved, this`live, this`spare, nodes
      ensures Valid() && Contents() == Without(old(Contents()), k)
    {
      Detach(index, k);
      FreeNode(index);
    }

    method Detach(index: nat, ghost k: nat)
      requires Valid() && k < |live| && index == live[k]
      modifies this`head, this`tail, this`live, nodes
      ensures Detached(nodes[..], live, spare, index)
      ensures head == At(live, 0) && tail == At(live, |live| - 1)
      ensures Objects(nodes[..], live) == Without(old(Contents()), k)
    {
      hide Linked, Chained, Partition;
      ShapeBypass(nodes[..], live, spare, k);
      LinkAround(index, k);
      live := Without(live, k);
    }

    /** Puts a node of neither chain at the front of the spares. */
    method FreeNode(index: nat)
      requires nodes.Length == capacity + 1 && Detached(nodes[..], live, spare, index)
      requires head == At(live, 0) && tail == At(live, |live| - 1) && reserved == At(spare, 0)
      modifies this`reserved, this`spare, nodes
      ensures Valid() && live == old(live) && Contents() == Objects(old(nodes[..]), live)
    {
      ghost var after := nodes[..][index := nodes[index].(next := reserved, previous := 0)];
      ShapeFreed(nodes[..], live, spare, index, after[index]);
      nodes[index] := nodes[index].(next := reserved, previous := 0);
      reserved := index;
      spare := [index] + spare;
      assert nodes[..] == after;
    }

    /** The first object the caller's block accepts. */
    method Find(accepts: Object -> bool) returns (o: Option<Object>)
      requires Valid()
      ensures o.None? ==> forall i :: 0 <= i < |Contents()| ==> !accepts(Contents()[i])
      ensures o.Some? ==> exists k :: 0 <= k < |Contents()| && Contents()[k] == o.value && accepts(o.value) &&
                                      forall i :: 0 <= i < k ==> !accepts(Contents()[i])
    {
      hide Linked, Chained, Partition;
      Counted(nodes[..], live);
      var index := head;
      ghost var k := 0;
      while index != 0
        invariant 0 <= k <= |live| && index == At(live, k)
        invariant forall i :: 0 <= i < k ==> !accepts(Contents()[i])
        decreases |live| - k
      {
        Next(nodes[..], live, k);
        if accepts(nodes[index].item) {
          assert Contents()[k] == nodes[index].item;
          return Some(nodes[index].item);
        }
        index := nodes[index].next;
        k := k + 1;
      }
      o := None;
    }

    /** Both walks count what the chains hold; together they are the capacity. */
    method Counts() returns (added: nat, free: nat)
      requires Valid()
      ensures added == |Contents()| && free == |spare|
    {
      added, free := 0, 0;
      var index := head;
      while index != 0
        invariant added <= |live| && index == At(live, added)
        decreases |live| - added
      {
        index := nodes[index].next;
        added := added + 1;
      }
      index := reserved;
      while index != 0
        invariant free <= |spare| && index == At(spare, free)
        decreases |spare| - free
      {
        index := nodes[index].next;
        free := free + 1;
      }
    }
  }

  /** Removing an object that was not there before it was added restores the list. */
  method AddThenRemove(l: List, o: Object)
    requires l.Valid() && o !in l.Contents()
    modifies l, l.nodes
    ensures l.Valid() && l.Contents() == old(l.Contents())
  {
    ghost var before := l.Contents();
    l.Add(o);
    l.Remove(o);
    ghost var k :| 0 <= k < |before + [o]| && FirstAt(before + [o], o, k) && l.Contents() == Without(before + [o], k);
    FirstAdded(before, o, k);
  }
}
