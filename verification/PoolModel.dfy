/** A pool of reference-counted objects, without its links: the free objects in
    the order they will be handed out, and every object's retain count. */
module PoolModel {

  import opened Basics

  datatype Pool = Pool(free: seq<nat>, count: seq<nat>)

  /** The free list holds exactly the objects nobody retains, each once. */
  ghost predicate Consistent(p: Pool)
  {
    && Distinct(p.free)
    && (forall i :: 0 <= i < |p.free| ==> p.free[i] < |p.count| && p.count[p.free[i]] == 0)
    && (forall x :: 0 <= x < |p.count| && p.count[x] == 0 ==> x in p.free)
  }

  function Upto(n: nat): (s: seq<nat>)
    ensures |s| == n && (forall i :: 0 <= i < n ==> s[i] == i)
    ensures forall x: nat :: x < n ==> x in s
  {
    var s := seq(n, i => i);
    assert forall x: nat :: x < n ==> x in s by {
      forall x: nat | x < n
        ensures x in s
      {
        assert s[x] == x;
      }
    }
    s
  }

  lemma UptoNext(n: nat)
    ensures Upto(n + 1) == Upto(n) + [n] && Distinct(Upto(n)) && n !in Upto(n)
  {
  }

  function New(capacity: nat): (p: Pool)
    ensures Consistent(p)
  {
    Pool(Upto(capacity), seq(capacity, _ => 0))
  }

  /** The pool owns the object, and someone retains it. */
  predicate Live(p: Pool, x: int)
  {
    0 <= x < |p.count| && p.count[x] > 0
  }

  function Alloc(p: Pool): (r: (Pool, Option<nat>))
    requires Consistent(p)
    ensures Consistent(r.0) && |r.0.count| == |p.count|
  {
    if p.free == [] then (p, None)
    else (Pool(p.free[1..], p.count[p.free[0] := 1]), Some(p.free[0]))
  }

  function Retain(p: Pool, x: nat): (q: Pool)
    requires Consistent(p) && Live(p, x)
    ensures Consistent(q) && |q.count| == |p.count|
  {
    p.(count := p.count[x := p.count[x] + 1])
  }

  /** Back to the front of the free list, whatever the count was. */
  function Free(p: Pool, x: nat): (q: Pool)
    requires Consistent(p) && Live(p, x)
    ensures Consistent(q) && |q.count| == |p.count|
  {
    var q := Pool([x] + p.free, p.count[x := 0]);
    assert forall y :: 0 <= y < |p.count| && q.count[y] == 0 && y != x ==> y in p.free;
    assert forall i :: 0 < i < |q.free| ==> q.free[i] == p.free[i - 1];
    q
  }

  function Release(p: Pool, x: nat): (q: Pool)
    requires Consistent(p) && Live(p, x)
    ensures Consistent(q) && |q.count| == |p.count|
  {
    if p.count[x] == 1 then Free(p, x) else p.(count := p.count[x := p.count[x] - 1])
  }

  ghost function LiveObjects(p: Pool): set<nat>
  {
    set x: nat | x < |p.count| && p.count[x] > 0
  }

  ghost function Objects(n: nat): (all: set<nat>)
    ensures |all| == n && forall x: nat :: x in all <==> x < n
  {
    if n == 0 then {} else Objects(n - 1) + {n - 1}
  }

  ghost function Members(s: seq<nat>): (m: set<nat>)
    ensures forall x :: x in m <==> x in s
    ensures Distinct(s) ==> |m| == |s|
  {
    if s == [] then {}
    else
      var front, last := Front(s), Last(s);
      assert s == front + [last];
      Members(front) + {last}
  }

  /** Every object is free or live: the free list's length and the number of live objects make up the capacity. */
  lemma FreeAndLive(p: Pool)
    requires Consistent(p)
    ensures |p.free| + |LiveObjects(p)| == |p.count|
  {
    hide Members, Objects;
    assert Objects(|p.count|) == Members(p.free) + LiveObjects(p);
    assert Members(p.free) !! LiveObjects(p);
  }

  lemma SomeoneLive(p: Pool, x: nat)
    requires Consistent(p) && Live(p, x)
    ensures |p.free| < |p.count|
  {
    FreeAndLive(p);
    assert x in LiveObjects(p);
  }

  /** An object handed out was live for nobody before, and is live for one holder after; nothing else changes. */
  lemma AllocIsFresh(p: Pool)
    requires Consistent(p)
    ensures Alloc(p).1.None? <==> LiveObjects(p) == Objects(|p.count|)
    ensures Alloc(p).1.Some? ==>
              var x := Alloc(p).1.value;
              && x !in LiveObjects(p) && LiveObjects(Alloc(p).0) == LiveObjects(p) + {x}
              && Alloc(p).0.count[x] == 1
              && forall y :: 0 <= y < |p.count| && y != x ==> Alloc(p).0.count[y] == p.count[y]
  {
    if p.free != [] {
      assert p.free[0] !in LiveObjects(p);
    } else {
      assert forall x :: 0 <= x < |p.count| ==> p.count[x] > 0;
    }
  }

  /** A release takes one reference away and frees the object exactly when it was the last. */
  lemma ReleaseFreesLast(p: Pool, x: nat)
    requires Consistent(p) && Live(p, x)
    ensures Release(p, x).count == p.count[x := p.count[x] - 1]
    ensures x in Release(p, x).free <==> p.count[x] == 1
    ensures LiveObjects(Release(p, x)) == if p.count[x] == 1 then LiveObjects(p) - {x} else LiveObjects(p)
  {
    if p.count[x] == 1 {
      assert Release(p, x).free[0] == x;
    } else {
      assert forall y :: y in p.free ==> p.count[y] == 0;
    }
  }
}
