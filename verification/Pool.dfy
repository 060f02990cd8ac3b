/** The pool as it lives in memory: a block of nodes, each with a count and a
    link, and a pointer to the first free node. */
module Pool {
  import opened Basics
  import M = PoolModel

  /** The null pointer. */
  const NULL: int := -1

  function Head(s: seq<nat>): int
  {
    if s == [] then NULL else s[0]
  }

  /** The links lead along s and end in null. */
  ghost predicate Linked(next: seq<int>, s: seq<nat>)
  {
    && (forall i :: 0 <= i < |s| ==> s[i] < |next|)
    && (forall i {:trigger s[i]} :: 0 <= i < |s| ==> next[s[i]] == Head(s[i + 1..]))
  }

  lemma LinkedTail(next: seq<int>, s: seq<nat>)
    requires Linked(next, s) && Distinct(s) && s != []
    ensures Linked(next[s[0] := NULL], s[1..]) && next[s[0]] == Head(s[1..])
  {
    var t := s[1..];
    forall i | 0 <= i < |t|
      ensures next[s[0] := NULL][t[i]] == Head(t[i + 1..])
    {
      assert t[i] == s[i + 1] && t[i + 1..] == s[i + 2..];
    }
  }

  lemma LinkedCons(next: seq<int>, s: seq<nat>, x: nat)
    requires Linked(next, s) && x !in s && x < |next|
    ensures Linked(next[x := Head(s)], [x] + s)
  {
    var t := [x] + s;
    forall i | 0 <= i < |t|
      ensures next[x := Head(s)][t[i]] == Head(t[i + 1..])
    {
      assert t[i + 1..] == s[i..];
      if i > 0 {
        assert t[i] == s[i - 1];
      }
    }
  }

  lemma LinkedSnoc(next: seq<int>, s: seq<nat>, x: nat)
    requires Linked(next, s) && Distinct(s) && x !in s && x < |next|
    ensures s == [] ==> Linked(next[x := NULL], [x])
    ensures s != [] ==> Linked(next[x := NULL][s[|s| - 1] := x], s + [x])
  {
    var t := s + [x];
    var after := if s == [] then next[x := NULL] else next[x := NULL][s[|s| - 1] := x];
    forall i | 0 <= i < |t|
      ensures after[t[i]] == Head(t[i + 1..])
    {
      if i < |s| - 1 {
        assert s[i] == t[i] && s[i + 1..] + [x] == t[i + 1..];
      }
    }
  }

  class Pool {
    const capacity: nat
    const retainCount: array<nat>
    const next: array<int>
    var freeList: int
    var allocCount: nat
    /** The nodes met from freeList along the links. */
    ghost var free: seq<nat>

    ghost predicate Valid()
      reads this, retainCount, next
    {
      && retainCount.Length == capacity && next.Length == capacity && retainCount as object != next as object
      && freeList == Head(free) && Linked(next[..], free)
      && M.Consistent(Model())
      && allocCount + |free| == capacity
    }

    ghost function Model(): M.Pool
      reads this, retainCount
    {
      M.Pool(free, retainCount[..])
    }

    constructor (capacity: nat)
      ensures Valid() && this.capacity == capacity && Model() == M.New(capacity)
      ensures fresh(retainCount) && fresh(next)
    {
      this.capacity := capacity;
      retainCount := new nat[capacity];
      next := new int[capacity];
      freeList := NULL;
      allocCount := 0;
      free := [];
      new;
      Weave();
    }

    method Weave()
      requires retainCount.Length == capacity && next.Length == capacity && retainCount as object != next as object
      requires freeList == NULL && allocCount == 0
      modifies this`freeList, this`free, retainCount, next
      ensures Valid() && Model() == M.New(capacity)
    {
      var prev := NULL;
      free := [];
      for i := 0 to capacity
        invariant free == M.Upto(i) && prev == i - 1
        invariant freeList == (if i == 0 then NULL else 0)
        invariant Linked(next[..], free)
        invariant forall k :: 0 <= k < i ==> retainCount[k] == 0
      {
        M.UptoNext(i);
        LinkedSnoc(next[..], free, i);
        ghost var links := next[..];
        retainCount[i] := 0;
        next[i] := NULL;
        if freeList == NULL {
          freeList := i;
        } else {
          next[prev] := i;
        }
        assert next[..] == if i == 0 then links[i := NULL] else links[i := NULL][prev := i];
        prev := i;
        free := free + [i];
      }
      assert Model() == M.New(capacity);
    }

    method Alloc() returns (x: int)
      requires Valid()
      modifies this`freeList, this`free, this`allocCount, retainCount, next
      ensures Valid() && Model() == M.Alloc(old(Model())).0
      ensures M.Alloc(old(Model())).1 == if x == NULL then None else Some(x)
      ensures allocCount == if x == NULL then old(allocCount) else old(allocCount) + 1
    {
      if freeList == NULL {
        return NULL;
      }
      LinkedTail(next[..], free);
      x := freeList;
      freeList := next[x];
      next[x] := NULL;
      retainCount[x] := 1;
      allocCount := allocCount + 1;
      free := free[1..];
      assert next[..] == old(next[..])[x := NULL];
      assert retainCount[..] == old(retainCount[..])[x := 1];
      assert Model() == M.Alloc(old(Model())).0;
    }

    /** A pointer the pool does not own is ignored; retaining a free object is the caller's error. */
    method Retain(x: int)
      requires Valid() && (0 <= x < capacity ==> retainCount[x] > 0)
      modifies retainCount
      ensures Valid() && Model() == if 0 <= x < capacity then M.Retain(old(Model()), x) else old(Model())
    {
      if allocCount == 0 {
        NobodyLive(x);
        return;
      }
      if x < 0 || x >= capacity {
        return;
      }
      retainCount[x] := retainCount[x] + 1;
      assert retainCount[..] == old(retainCount[..])[x := old(retainCount[x]) + 1];
    }

    lemma NobodyLive(x: int)
      requires Valid() && allocCount == 0
      ensures !(0 <= x < capacity && retainCount[x] > 0)
    {
      if 0 <= x < capacity && retainCount[x] > 0 {
        M.SomeoneLive(Model(), x);
      }
    }

    method FreeNode(x: nat)
      requires Valid() && x < capacity && retainCount[x] > 0
      modifies this`freeList, this`free, this`allocCount, retainCount, next
      ensures Valid() && Model() == M.Free(old(Model()), x)
      ensures allocCount == old(allocCount) - 1
    {
      M.SomeoneLive(Model(), x);
      LinkedCons(next[..], free, x);
      next[x] := freeList;
      freeList := x;
      retainCount[x] := 0;
      allocCount := allocCount - 1;
      free := [x] + free;
      assert next[..] == old(next[..])[x := old(freeList)];
      assert retainCount[..] == old(retainCount[..])[x := 0];
      assert Model() == M.Free(old(Model()), x);
    }

    method Free(x: int)
      requires Valid() && (0 <= x < capacity ==> retainCount[x] > 0)
      modifies this`freeList, this`free, this`allocCount, retainCount, next
      ensures Valid() && Model() == if 0 <= x < capacity then M.Free(old(Model()), x) else old(Model())
    {
      if allocCount == 0 {
        NobodyLive(x);
        return;
      }
      if x < 0 || x >= capacity {
        return;
      }
      FreeNode(x);
    }

    method Release(x: int)
      requires Valid() && (0 <= x < capacity ==> retainCount[x] > 0)
      modifies this`freeList, this`free, this`allocCount, retainCount, next
      ensures Valid() && Model() == if 0 <= x < capacity then M.Release(old(Model()), x) else old(Model())
    {
      if allocCount == 0 {
        NobodyLive(x);
        return;
      }
      if x < 0 || x >= capacity {
        return;
      }
      if retainCount[x] == 1 {
        FreeNode(x);
      } else {
        retainCount[x] := retainCount[x] - 1;
        assert retainCount[..] == old(retainCount[..])[x := old(retainCount[x]) - 1];
      }
    }

    /** Walking the free list terminates after visiting every free object once. */
    method FreeCount() returns (n: nat)
      requires Valid()
      ensures n == |free| && allocCount + n == capacity
    {
      n := 0;
      var iter := freeList;
      while iter != NULL
        invariant n <= |free| && iter == Head(free[n..])
        decreases |free| - n
      {
        iter := next[iter];
        n := n + 1;
      }
    }
  }
}
