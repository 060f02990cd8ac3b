/** Who holds each packet. Over all interleavings a packet's retain count is the
    number of its holders, so none is recycled while anyone holds it. */
module PacketOwnership {
  import opened Basics
  import opened PoolModel
  import opened Transactions

  // ----- holders

  const NONE: multiset<nat> := multiset{}

  function TxPacket(t: Tx): multiset<nat>
  {
    if t.live then multiset{t.packet} else multiset{}
  }

  function TxPackets(txs: seq<Tx>): multiset<nat>
  {
    if txs == [] then multiset{} else TxPackets(Front(txs)) + TxPacket(Last(txs))
  }

  function ClosurePacket(c: Closure): multiset<nat>
  {
    match c
    case Response(packet, _, _) => multiset{packet}
    case Request(packet) => multiset{packet}
    case _ => NONE
  }

  function ClosurePackets(queue: seq<Closure>): multiset<nat>
  {
    if queue == [] then multiset{} else ClosurePackets(Front(queue)) + ClosurePacket(Last(queue))
  }

  /** References held by the socket's write side. */
  function SocketPackets(s: Socket): multiset<nat>
  {
    multiset(s.closures) + multiset(s.pending)
  }

  /** References to packets that came in from the network. */
  function ReceivedPackets(s: State): multiset<nat>
  {
    s.callbacks + ClosurePackets(s.queue)
  }

  function Holders(s: State): multiset<nat>
  {
    TxPackets(s.txs) + SocketPackets(s.socket) + ReceivedPackets(s)
  }

  // ----- bookkeeping on multisets

  lemma {:induction false} TxPacketsUpdate(txs: seq<Tx>, h: nat, t: Tx)
    requires h < |txs|
    ensures forall x :: TxPackets(txs[h := t])[x] + TxPacket(txs[h])[x] == TxPackets(txs)[x] + TxPacket(t)[x]
  {
    if h == |txs| - 1 {
      assert Front(txs[h := t]) == Front(txs);
    } else {
      TxPacketsUpdate(Front(txs), h, t);
      var u := txs[h := t];
      assert Front(u) == Front(txs)[h := t] && Last(u) == Last(txs) && Front(txs)[h] == txs[h];
    }
  }

  lemma {:induction false} LiveTxHolds(txs: seq<Tx>, h: nat)
    requires h < |txs| && txs[h].live
    ensures txs[h].packet in TxPackets(txs)
  {
    if h < |txs| - 1 {
      LiveTxHolds(Front(txs), h);
    }
  }

  lemma {:induction false} ClosurePacketsHead(queue: seq<Closure>)
    requires queue != []
    ensures ClosurePackets(queue) == ClosurePacket(queue[0]) + ClosurePackets(queue[1..])
  {
    hide ClosurePacket;
    if |queue| > 1 {
      var front, tail := Front(queue), queue[1..];
      ClosurePacketsHead(front);
      assert front[1..] == Front(tail) && Last(tail) == Last(queue) && front[0] == queue[0];
    }
  }

  lemma ClosurePacketsPost(queue: seq<Closure>, c: Closure)
    ensures ClosurePackets(queue + [c]) == ClosurePackets(queue) + ClosurePacket(c)
  {
    assert Front(queue + [c]) == queue;
  }

  lemma TxPacketsPost(txs: seq<Tx>, t: Tx)
    ensures TxPackets(txs + [t]) == TxPackets(txs) + TxPacket(t)
  {
    assert Front(txs + [t]) == txs;
  }

  lemma MultisetHead(s: seq<nat>)
    requires s != []
    ensures multiset(s) == multiset{s[0]} + multiset(s[1..])
  {
    assert s == [s[0]] + s[1..];
  }

  // ----- the invariant

  /** The pool counts, for every packet, the references in `held`. */
  ghost predicate Counts(p: Pool, held: multiset<nat>)
  {
    && Consistent(p)
    && (forall x :: x in held ==> x < |p.count|)
    && (forall x: nat :: x < |p.count| ==> p.count[x] == held[x])
  }

  /** Every reference is a holder's, lost for good, or one of `extra`, in the hands of the step being taken. */
  ghost predicate Balanced(s: State, extra: multiset<nat>)
  {
    Counts(s.pool, Holders(s) + s.lost + extra)
  }

  lemma CountsAlloc(p: Pool, held: multiset<nat>)
    requires Counts(p, held) && p.free != []
    ensures Counts(Alloc(p).0, held + multiset{p.free[0]}) && p.free[0] !in held
  {
  }

  lemma CountsRetain(p: Pool, held: multiset<nat>, x: nat)
    requires Counts(p, held) && x in held
    ensures Counts(RetainPacket(p, x), held + multiset{x})
  {
  }

  lemma CountsRelease(p: Pool, held: multiset<nat>, x: nat)
    requires Counts(p, held + multiset{x})
    ensures Counts(ReleasePacket(p, x), held)
  {
    assert x in held + multiset{x};
    assert forall y :: y in held ==> y in held + multiset{x};
    ReleaseFreesLast(p, x);
  }

  lemma CountsSame(p: Pool, held: multiset<nat>, other: multiset<nat>)
    requires Counts(p, held) && held == other
    ensures Counts(p, other)
  {
  }

  /** Handing a held packet to the socket adds one holder and one reference. */
  lemma SendBalanced(s: State, extra: multiset<nat>, x: nat)
    requires Balanced(s, extra) && x in Holders(s) + s.lost + extra
    ensures Balanced(Send(s, x), extra)
  {
    CountsRetain(s.pool, Holders(s) + s.lost + extra, x);
    var t := Send(s, x);
    assert Holders(t) + t.lost + extra == Holders(s) + s.lost + extra + multiset{x};
  }

  lemma StartTxBalanced(s: State)
    requires Balanced(s, NONE)
    ensures Balanced(StartTx(s), NONE)
  {
    hide TxPackets, ClosurePackets;
    if s.pool.free != [] {
      AllocatedBalanced(s);
      SendBalanced(Allocated(s), NONE, s.pool.free[0]);
    }
  }

  lemma AllocatedBalanced(s: State)
    requires Balanced(s, NONE) && s.pool.free != []
    ensures Balanced(Allocated(s), NONE) && s.pool.free[0] in Holders(Allocated(s)) + s.lost + NONE
  {
    hide TxPackets, ClosurePackets;
    var x, t := s.pool.free[0], Allocated(s);
    CountsAlloc(s.pool, Holders(s) + s.lost + NONE);
    TxPacketsPost(s.txs, t.txs[|s.txs|]);
    ClosurePacketsPost(s.queue, Insert(|s.txs|));
    CountsSame(t.pool, Holders(s) + s.lost + NONE + multiset{x}, Holders(t) + t.lost + NONE);
  }

  lemma RetireBalanced(s: State, extra: multiset<nat>, h: nat, state: TxState, notify: bool)
    requires Balanced(s, extra) && h < |s.txs| && s.txs[h].live
    ensures Balanced(Retire(s, h, state, notify), extra)
  {
    hide TxPackets, ClosurePackets;
    var t, x := Retire(s, h, state, notify), s.txs[h].packet;
    TxPacketsUpdate(s.txs, h, t.txs[h]);
    assert TxPackets(s.txs) == TxPackets(t.txs) + multiset{x};
    CountsSame(s.pool, Holders(s) + s.lost + extra, Holders(t) + t.lost + extra + multiset{x});
    CountsRelease(s.pool, Holders(t) + t.lost + extra, x);
  }

  // ----- the table names live transactions

  ghost predicate TableLive(s: State)
  {
    forall id :: id in s.table ==> s.table[id] < |s.txs| && s.txs[s.table[id]].live && s.txs[s.table[id]].id == id
  }

  /** A transaction waiting to be inserted is live, waits once, and is not in the table. */
  ghost predicate InsertsPending(s: State)
  {
    && (forall i :: 0 <= i < |s.queue| && s.queue[i].Insert? ==>
          s.queue[i].tx < |s.txs| && s.txs[s.queue[i].tx].live)
    && (forall i, j :: 0 <= i < j < |s.queue| && s.queue[i].Insert? ==> s.queue[i] != s.queue[j])
    && (forall id :: id in s.table ==> Insert(s.table[id]) !in s.queue)
  }

  ghost predicate Registered(s: State)
  {
    TableLive(s) && InsertsPending(s)
  }

  lemma RetireTableLive(s: State, id: nat, state: TxState, notify: bool)
    requires Consistent(s.pool) && TableLive(s) && id in s.table
    ensures TableLive(Retire(s, s.table[id], state, notify))
  {
  }

  lemma RetireRegistered(s: State, id: nat, state: TxState, notify: bool)
    requires Consistent(s.pool) && Registered(s) && id in s.table
    ensures Registered(Retire(s, s.table[id], state, notify))
    ensures Retire(s, s.table[id], state, notify).queue == s.queue
  {
  }

  lemma {:induction false} RemoveKeysRegistered(s: State, keys: seq<nat>)
    requires Consistent(s.pool) && Registered(s)
    ensures Registered(RemoveKeys(s, keys))
    decreases keys
  {
    if keys != [] {
      if keys[0] in s.table {
        var state := s.txs[s.table[keys[0]]].state;
        RetireRegistered(s, keys[0], state, false);
        RemoveKeysRegistered(Retire(s, s.table[keys[0]], state, false), keys[1..]);
      } else {
        RemoveKeysRegistered(s, keys[1..]);
      }
    }
  }

  lemma {:induction false} RemoveKeysBalanced(s: State, keys: seq<nat>)
    requires TableLive(s) && Balanced(s, NONE)
    ensures Balanced(RemoveKeys(s, keys), NONE)
    decreases keys
  {
    if keys != [] {
      if keys[0] in s.table {
        var state := s.txs[s.table[keys[0]]].state;
        RetireTableLive(s, keys[0], state, false);
        RetireBalanced(s, NONE, s.table[keys[0]], state, false);
        RemoveKeysBalanced(Retire(s, s.table[keys[0]], state, false), keys[1..]);
      } else {
        RemoveKeysBalanced(s, keys[1..]);
      }
    }
  }

  /** Walking some keys frees every transaction found under them, reporting
      nothing, and leaves the table with the other keys. */
  lemma {:induction false} RemoveKeysEmpties(s: State, keys: seq<nat>)
    requires Consistent(s.pool) && TableLive(s)
    ensures var t := RemoveKeys(s, keys);
            && TableLive(t) && |t.txs| == |s.txs|
            && (forall id :: id in t.table <==> id in s.table && id !in keys)
            && (forall id :: id in t.table ==> t.table[id] == s.table[id])
            && (forall h :: 0 <= h < |s.txs| && !s.txs[h].live ==> t.txs[h] == s.txs[h])
            && (forall id :: id in s.table && id in keys ==>
                  t.txs[s.table[id]] == s.txs[s.table[id]].(live := false, timer := Disarmed))
            && (forall id :: id in t.table ==> t.txs[s.table[id]] == s.txs[s.table[id]])
    decreases keys
  {
    if keys != [] {
      if keys[0] in s.table {
        var q := Retire(s, s.table[keys[0]], s.txs[s.table[keys[0]]].state, false);
        RetireTableLive(s, keys[0], s.txs[s.table[keys[0]]].state, false);
        assert forall id :: id in q.table <==> id in s.table && id != keys[0];
        RemoveKeysEmpties(q, keys[1..]);
      } else {
        RemoveKeysEmpties(s, keys[1..]);
      }
    }
  }

  /** A transaction not in the table is not touched. */
  lemma {:induction false} RemoveKeysSpares(s: State, keys: seq<nat>, h: nat)
    requires Consistent(s.pool) && TableLive(s) && h < |s.txs| && forall id :: id in s.table ==> s.table[id] != h
    ensures |RemoveKeys(s, keys).txs| == |s.txs| && RemoveKeys(s, keys).txs[h] == s.txs[h]
    decreases keys
  {
    if keys != [] {
      if keys[0] in s.table {
        RetireTableLive(s, keys[0], s.txs[s.table[keys[0]]].state, false);
        RemoveKeysSpares(Retire(s, s.table[keys[0]], s.txs[s.table[keys[0]]].state, false), keys[1..], h);
      } else {
        RemoveKeysSpares(s, keys[1..], h);
      }
    }
  }

  // ----- what a step holds is live

  lemma HeldIsLive(s: State, extra: multiset<nat>, x: nat)
    requires Balanced(s, extra) && (x in s.callbacks || x in extra)
    ensures Live(s.pool, x)
  {
    assert x in Holders(s) + s.lost + extra;
  }

  lemma TxPacketIsLive(s: State, extra: multiset<nat>, h: nat)
    requires Balanced(s, extra) && h < |s.txs| && s.txs[h].live
    ensures Live(s.pool, s.txs[h].packet)
  {
    LiveTxHolds(s.txs, h);
    assert s.txs[h].packet in Holders(s) + s.lost + extra;
  }

  lemma AllocatedIsLive(p: Pool)
    requires Consistent(p) && p.free != []
    ensures Live(Alloc(p).0, p.free[0])
  {
  }

  lemma TableFrame(s: State, t: State)
    requires TableLive(s) && t.table == s.table && t.txs == s.txs
    ensures TableLive(t)
  {
  }

  lemma AtStart(capacity: nat)
    ensures Registered(Initial(capacity)) && Balanced(Initial(capacity), NONE)
  {
  }

  lemma TableEntries(s: State)
    requires TableLive(s)
    ensures forall id :: id in s.table ==> s.table[id] < |s.txs| && s.txs[s.table[id]].live
  {
  }

  lemma TableEntry(s: State, id: nat)
    requires TableLive(s) && id in s.table
    ensures s.table[id] < |s.txs| && s.txs[s.table[id]].live
  {
  }

  // ----- the closures

  /** Only the table, the transactions and the queue matter to Registered. */
  lemma RegisteredFrame(s: State, t: State)
    requires Registered(s) && t.table == s.table && t.txs == s.txs && t.queue == s.queue
    ensures Registered(t)
  {
  }

  lemma RetriedRegistered(s: State, h: nat)
    requires Registered(s) && h < |s.txs|
    ensures Registered(Retried(s, h))
  {
  }

  /** A transaction may change in everything but its packet and its life. */
  lemma SwapBalanced(s: State, extra: multiset<nat>, h: nat, t: Tx)
    requires Balanced(s, extra) && h < |s.txs| && TxPacket(t) == TxPacket(s.txs[h])
    ensures Balanced(s.(txs := s.txs[h := t]), extra)
    ensures TxPackets(s.txs[h := t]) == TxPackets(s.txs)
  {
    TxPacketsUpdate(s.txs, h, t);
    assert TxPackets(s.txs[h := t]) == TxPackets(s.txs);
    var u := s.(txs := s.txs[h := t]);
    CountsSame(s.pool, Holders(s) + s.lost + extra, Holders(u) + u.lost + extra);
  }

  lemma RetriedBalanced(s: State, h: nat)
    requires Balanced(s, NONE) && h < |s.txs| && s.txs[h].live
    ensures Balanced(Send(Retried(s, h), s.txs[h].packet), NONE)
  {
    var t := Retried(s, h);
    SwapBalanced(s, NONE, h, t.txs[h]);
    LiveTxHolds(s.txs, h);
    SendBalanced(t, NONE, s.txs[h].packet);
  }

  lemma OnTimeoutRegistered(s: State, id: nat)
    requires Consistent(s.pool) && Registered(s)
    ensures Registered(OnTimeout(s, id))
  {
    if id in s.table && s.txs[s.table[id]].state == Waiting {
      var h := s.table[id];
      if s.txs[h].retries < MAX_RETRIES {
        RetriedRegistered(s, h);
        RegisteredFrame(Retried(s, h), Send(Retried(s, h), s.txs[h].packet));
      } else {
        RetireRegistered(s, id, TimedOut, true);
      }
    }
  }

  lemma OnTimeoutBalanced(s: State, id: nat)
    requires TableLive(s) && Balanced(s, NONE)
    ensures Balanced(OnTimeout(s, id), NONE)
  {
    hide Retire, Retried;
    if id in s.table {
      RetriedBalanced(s, s.table[id]);
      RetireBalanced(s, NONE, s.table[id], TimedOut, true);
    }
  }

  lemma OnResponseRegistered(s: State, packet: nat, id: nat, success: bool)
    requires Consistent(s.pool) && Registered(s)
    ensures Registered(OnResponse(s, packet, id, success))
  {
    if id in s.table {
      var state := if success then Acknowledged else Error;
      RetireRegistered(s, id, state, !success);
      RegisteredFrame(Retire(s, s.table[id], state, !success), OnResponse(s, packet, id, success));
    } else {
      RegisteredFrame(s, OnResponse(s, packet, id, success));
    }
  }

  lemma OnResponseBalanced(s: State, packet: nat, id: nat, success: bool)
    requires TableLive(s) && Balanced(s, multiset{packet})
    ensures Balanced(OnResponse(s, packet, id, success), NONE)
  {
    hide TxPackets, ClosurePackets;
    if id in s.table {
      var state := if success then Acknowledged else Error;
      RetireBalanced(s, multiset{packet}, s.table[id], state, !success);
      var t := Retire(s, s.table[id], state, !success);
      var rest := Holders(t) + t.lost + NONE;
      CountsSame(t.pool, Holders(t) + t.lost + multiset{packet}, rest + multiset{packet});
      CountsRelease(t.pool, rest, packet);
    } else {
      var t := OnResponse(s, packet, id, success);
      CountsSame(s.pool, Holders(s) + s.lost + multiset{packet}, Holders(t) + t.lost + NONE);
    }
  }

  lemma OnRequestBalanced(s: State, packet: nat)
    requires Balanced(s, multiset{packet}) && s.pool.free != []
    ensures Balanced(OnRequest(s, packet), NONE)
  {
    hide TxPackets, ClosurePackets;
    var x := s.pool.free[0];
    var a, both := s.(pool := Alloc(s.pool).0), multiset{packet} + multiset{x};
    CountsAlloc(s.pool, Holders(s) + s.lost + multiset{packet});
    CountsSame(a.pool, Holders(s) + s.lost + multiset{packet} + multiset{x}, Holders(a) + a.lost + both);
    SendBalanced(a, both, x);
    var t := Send(a, x);
    var rest := Holders(t) + t.lost + NONE;
    CountsSame(t.pool, Holders(t) + t.lost + both, rest + multiset{packet} + multiset{x});
    CountsRelease(t.pool, rest + multiset{packet}, x);
    CountsRelease(ReleasePacket(t.pool, x), rest, packet);
  }

  /** Every packet that answering a request retains or releases is live at that moment. */
  lemma OnRequestLive(s: State, packet: nat)
    requires Balanced(s, multiset{packet}) && s.pool.free != []
    ensures var x, a := s.pool.free[0], s.(pool := Alloc(s.pool).0);
            && Live(a.pool, x) && Live(Send(a, x).pool, x) && Live(ReleasePacket(Send(a, x).pool, x), packet)
  {
    assert packet in Holders(s) + s.lost + multiset{packet};
  }

  lemma PoppedBalanced(s: State)
    requires Balanced(s, NONE) && s.queue != []
    ensures Balanced(s.(queue := s.queue[1..]), ClosurePacket(s.queue[0]))
  {
    var q := s.(queue := s.queue[1..]);
    ClosurePacketsHead(s.queue);
    CountsSame(s.pool, Holders(s) + s.lost + NONE, Holders(q) + q.lost + ClosurePacket(s.queue[0]));
  }

  lemma InsertRegistered(s: State, h: nat)
    requires Registered(s) && h < |s.txs| && s.txs[h].live && Insert(h) !in s.queue
    ensures Registered(s.(table := s.table[s.txs[h].id := h]))
  {
  }

  lemma RunHeadRegistered(s: State)
    requires Consistent(s.pool) && Registered(s) && s.queue != []
    ensures Registered(RunHead(s))
  {
    hide OnResponse, OnTimeout, RemoveKeys, InsertsPending, TableLive;
    var q := s.(queue := s.queue[1..]);
    PoppedRegistered(s);
    match s.queue[0]
    case Insert(h) => InsertRegistered(q, h);
    case Response(packet, id, success) => OnResponseRegistered(q, packet, id, success);
    case Request(packet) => RegisteredFrame(q, OnRequest(q, packet));
    case Timeout(id, _) => OnTimeoutRegistered(q, id);
    case Enable => RegisteredFrame(q, q.(enabled := true));
    case Disable =>
      if q.enabled {
        RegisteredFrame(q, q.(enabled := false));
        RemoveKeysRegistered(q.(enabled := false), Upto(MAX_ID + 1));
      }
  }

  /** The table and the switch hold no packets. */
  lemma BalancedFrame(s: State, t: State, extra: multiset<nat>)
    requires Balanced(s, extra)
    requires t.pool == s.pool && t.txs == s.txs && t.queue == s.queue && t.callbacks == s.callbacks
    requires t.socket == s.socket && t.lost == s.lost
    ensures Balanced(t, extra)
  {
    CountsSame(s.pool, Holders(s) + s.lost + extra, Holders(t) + t.lost + extra);
  }

  lemma OnDisableBalanced(s: State)
    requires TableLive(s) && Balanced(s, NONE)
    ensures Balanced(OnDisable(s), NONE)
  {
    if s.enabled {
      BalancedFrame(s, s.(enabled := false), NONE);
      RemoveKeysBalanced(s.(enabled := false), Upto(MAX_ID + 1));
    }
  }

  lemma ExecuteBalanced(s: State, c: Closure)
    requires TableLive(s) && Balanced(s, ClosurePacket(c)) && (c.Request? ==> s.pool.free != [])
    ensures Balanced(Execute(s, c), NONE)
  {
    match c
    case Response(packet, id, success) => OnResponseBalanced(s, packet, id, success);
    case Request(packet) => OnRequestBalanced(s, packet);
    case _ => ExecutePlainBalanced(s, c);
  }

  lemma ExecutePlainBalanced(s: State, c: Closure)
    requires TableLive(s) && Balanced(s, NONE) && !c.Response? && !c.Request?
    ensures Balanced(Execute(s, c), NONE)
  {
    match c
    case Insert(h) => BalancedFrame(s, OnInsert(s, h), NONE);
    case Timeout(id, _) => OnTimeoutBalanced(s, id);
    case Enable => BalancedFrame(s, s.(enabled := true), NONE);
    case Disable => OnDisableBalanced(s);
  }

  lemma RunHeadBalanced(s: State)
    requires TableLive(s) && Balanced(s, NONE) && Enabled(s, RunClosure)
    ensures Balanced(RunHead(s), NONE)
  {
    PoppedBalanced(s);
    ExecuteBalanced(s.(queue := s.queue[1..]), s.queue[0]);
  }

  lemma PoppedRegistered(s: State)
    requires Registered(s) && s.queue != []
    ensures Registered(s.(queue := s.queue[1..]))
    ensures s.queue[0].Insert? ==> s.queue[0] !in s.queue[1..] && s.queue[0].tx < |s.txs| && s.txs[s.queue[0].tx].live
  {
    var t := s.(queue := s.queue[1..]);
    assert forall i :: 0 <= i < |t.queue| ==> t.queue[i] == s.queue[i + 1];
  }

  lemma {:induction false} DrainFrame(s: State)
    requires Consistent(s.pool)
    ensures var t := Drain(s); t == s.(pool := t.pool, socket := t.socket)
    ensures Drain(s).socket == s.socket.(pending := [], written := s.socket.written + s.socket.pending)
    decreases |s.socket.pending|
  {
    if s.socket.pending == [] {
      assert s.socket.written + [] == s.socket.written;
    } else {
      var t := WriteOne(s);
      DrainFrame(t);
      assert s.socket.written + s.socket.pending == t.socket.written + t.socket.pending;
    }
  }

  lemma WriteOneBalanced(s: State)
    requires Balanced(s, NONE) && s.socket.pending != []
    ensures Balanced(WriteOne(s), NONE) && Live(s.pool, s.socket.pending[0])
  {
    var x, t := s.socket.pending[0], WriteOne(s);
    MultisetHead(s.socket.pending);
    CountsSame(s.pool, Holders(s) + s.lost + NONE, Holders(t) + t.lost + NONE + multiset{x});
    CountsRelease(s.pool, Holders(t) + t.lost + NONE, x);
    assert x in Holders(t) + t.lost + NONE + multiset{x};
  }

  lemma {:induction false} DrainBalanced(s: State)
    requires Balanced(s, NONE)
    ensures Balanced(Drain(s), NONE)
    decreases |s.socket.pending|
  {
    if s.socket.pending != [] {
      WriteOneBalanced(s);
      DrainBalanced(WriteOne(s));
    }
  }

  // ----- the other steps

  lemma FireBalanced(s: State, h: nat)
    requires Balanced(s, NONE) && h < |s.txs|
    ensures Balanced(Fire(s, h), NONE)
  {
    var idle := s.txs[h].(timer := Disarmed);
    SwapBalanced(s, NONE, h, idle);
    assert ClosurePacket(Timeout(s.txs[h].id, h)) == NONE;
    PostPlainBalanced(s.(txs := s.txs[h := idle]), Timeout(s.txs[h].id, h));
  }

  lemma FireRegistered(s: State, h: nat)
    requires Registered(s) && h < |s.txs|
    ensures Registered(Fire(s, h))
  {
    var q := s.(txs := Fire(s, h).txs);
    assert Registered(q);
    PostRegistered(q, Timeout(s.txs[h].id, h));
    RegisteredFrame(Post(q, Timeout(s.txs[h].id, h)), Fire(s, h));
  }

  lemma PostRegistered(s: State, c: Closure)
    requires Registered(s) && !c.Insert?
    ensures Registered(Post(s, c))
  {
  }

  lemma PostBalanced(s: State, extra: multiset<nat>, c: Closure)
    requires Balanced(s, extra + ClosurePacket(c))
    ensures Balanced(Post(s, c), extra)
  {
    var t := Post(s, c);
    ClosurePacketsPost(s.queue, c);
    CountsSame(s.pool, Holders(s) + s.lost + (extra + ClosurePacket(c)), Holders(t) + t.lost + extra);
  }

  lemma PostPlainBalanced(s: State, c: Closure)
    requires Balanced(s, NONE) && ClosurePacket(c) == NONE
    ensures Balanced(Post(s, c), NONE)
  {
    CountsSame(s.pool, Holders(s) + s.lost + NONE, Holders(s) + s.lost + (NONE + ClosurePacket(c)));
    PostBalanced(s, NONE, c);
  }

  lemma ArriveBalanced(s: State, d: Datagram)
    requires Balanced(s, NONE)
    ensures Balanced(Arrive(s, d), NONE)
  {
    hide TxPackets, ClosurePackets;
    if s.pool.free != [] {
      var x, t := s.pool.free[0], Arrive(s, d);
      var held := Holders(s) + s.lost + NONE;
      CountsAlloc(s.pool, held);
      match d
      case Good => CountsSame(t.pool, held + multiset{x}, Holders(t) + t.lost + NONE);
      case Bad =>
        CountsFree(Alloc(s.pool).0, held, x);
        CountsSame(t.pool, held, Holders(t) + t.lost + NONE);
      case Empty => CountsSame(t.pool, held + multiset{x}, Holders(t) + t.lost + NONE);
    }
  }

  /** Freeing outright is right where there is no other holder. */
  lemma CountsFree(p: Pool, held: multiset<nat>, x: nat)
    requires Counts(p, held + multiset{x}) && x !in held
    ensures Counts(FreePacket(p, x), held)
  {
    assert x in held + multiset{x};
    assert forall y :: y in held ==> y in held + multiset{x};
  }

  lemma RunCallbackBalanced(s: State, packet: nat, content: Content)
    requires Balanced(s, NONE) && packet in s.callbacks
    ensures Balanced(RunCallback(s, packet, content), NONE)
  {
    hide Counts;
    hide TxPackets, ClosurePackets;
    var q := s.(callbacks := s.callbacks - multiset{packet});
    assert s.callbacks == q.callbacks + multiset{packet};
    CountsSame(s.pool, Holders(s) + s.lost + NONE, Holders(q) + q.lost + NONE + multiset{packet});
    if !s.enabled || content.Invalid? {
      CountsRelease(q.pool, Holders(q) + q.lost + NONE, packet);
    } else {
      HandOverBalanced(q, ReceivedClosure(packet, content), packet);
    }
  }

  /** The callback's reference is traded for the closure's. */
  lemma HandOverBalanced(q: State, c: Closure, packet: nat)
    requires Counts(q.pool, Holders(q) + q.lost + NONE + multiset{packet}) && ClosurePacket(c) == multiset{packet}
    ensures Balanced(Post(q.(pool := ReleasePacket(RetainPacket(q.pool, packet), packet)), c), NONE)
  {
    var rest := Holders(q) + q.lost + NONE;
    var t := q.(pool := ReleasePacket(RetainPacket(q.pool, packet), packet));
    CountsRetain(q.pool, rest + multiset{packet}, packet);
    CountsRelease(RetainPacket(q.pool, packet), rest + multiset{packet}, packet);
    CountsSame(t.pool, rest + multiset{packet}, Holders(t) + t.lost + (NONE + ClosurePacket(c)));
    PostBalanced(t, NONE, c);
  }

  lemma PushBalanced(s: State)
    requires Balanced(s, NONE) && s.socket.closures != []
    ensures Balanced(Push(s), NONE)
  {
    var t := Push(s);
    MultisetHead(s.socket.closures);
    assert multiset(t.socket.pending) == multiset(s.socket.pending) + multiset{s.socket.closures[0]};
    CountsSame(s.pool, Holders(s) + s.lost + NONE, Holders(t) + t.lost + NONE);
  }

  lemma WriteAllBalanced(s: State)
    requires Balanced(s, NONE)
    ensures Balanced(WriteAll(s), NONE)
  {
    DrainBalanced(s);
    var t, u := Drain(s), WriteAll(s);
    CountsSame(t.pool, Holders(t) + t.lost + NONE, Holders(u) + u.lost + NONE);
  }

  lemma StartTxRegistered(s: State)
    requires Consistent(s.pool) && Registered(s)
    ensures Registered(StartTx(s))
  {
  }

  lemma RunCallbackRegistered(s: State, packet: nat, content: Content)
    requires Consistent(s.pool) && Registered(s)
    ensures Registered(RunCallback(s, packet, content))
  {
    var t := RunCallback(s, packet, content);
    if !s.enabled || content.Invalid? {
      RegisteredFrame(s, t);
    } else {
      PostRegistered(s, ReceivedClosure(packet, content));
      RegisteredFrame(Post(s, ReceivedClosure(packet, content)), t);
    }
  }

  lemma StepRegistered(s: State, e: Event)
    requires Consistent(s.pool) && Registered(s) && Enabled(s, e)
    ensures Registered(Step(s, e))
  {
    hide TableLive, InsertsPending;
    match e
    case StartRequest => StartTxRegistered(s);
    case RunClosure => RunHeadRegistered(s);
    case FireTimer(h) => FireRegistered(s, h);
    case Arrival(d) => RegisteredFrame(s, Arrive(s, d));
    case Callback(packet, content) => RunCallbackRegistered(s, packet, content);
    case RunPush => RegisteredFrame(s, Push(s));
    case WriteReady => DrainFrame(s); RegisteredFrame(s, WriteAll(s));
    case PostEnable => PostRegistered(s, Enable);
    case PostDisable => PostRegistered(s, Disable);
  }

  lemma StepBalanced(s: State, e: Event)
    requires Registered(s) && Balanced(s, NONE) && Enabled(s, e)
    ensures Balanced(Step(s, e), NONE)
  {
    match e
    case StartRequest => StartTxBalanced(s);
    case RunClosure => RunHeadBalanced(s);
    case FireTimer(h) => FireBalanced(s, h);
    case Arrival(d) => ArriveBalanced(s, d);
    case Callback(packet, content) => RunCallbackBalanced(s, packet, content);
    case RunPush => PushBalanced(s);
    case WriteReady => WriteAllBalanced(s);
    case PostEnable => PostPlainBalanced(s, Enable);
    case PostDisable => PostPlainBalanced(s, Disable);
  }

  lemma {:induction false} OwnedAlways(capacity: nat, events: seq<Event>)
    requires Legal(capacity, events)
    ensures Registered(Run(capacity, events)) && Balanced(Run(capacity, events), NONE)
  {
    if events != [] {
      OwnedAlways(capacity, Front(events));
      StepRegistered(Run(capacity, Front(events)), Last(events));
      StepBalanced(Run(capacity, Front(events)), Last(events));
    }
  }

  /** Packet ownership: whatever the interleaving, a packet's retain count is the
      number of its holders plus the references lost for good, and a packet
      anyone holds is not on the free list. */
  lemma CountIsHolders(capacity: nat, events: seq<Event>)
    requires Legal(capacity, events)
    ensures var s := Run(capacity, events);
            && (forall x: nat :: x < |s.pool.count| ==> s.pool.count[x] == Holders(s)[x] + s.lost[x])
            && (forall x :: x in Holders(s) ==> x < |s.pool.count| && x !in s.pool.free)
  {
    OwnedAlways(capacity, events);
    var s := Run(capacity, events);
    assert forall x :: x in Holders(s) ==> x in Holders(s) + s.lost + NONE;
    assert forall x: nat :: (Holders(s) + s.lost + NONE)[x] == Holders(s)[x] + s.lost[x];
    assert forall x :: x in s.pool.free ==> s.pool.count[x] == 0;
  }

  // ----- what is lost stays lost

  lemma {:induction false} RemoveKeysFrame(s: State, keys: seq<nat>)
    requires Consistent(s.pool)
    ensures var t := RemoveKeys(s, keys); t == s.(pool := t.pool, table := t.table, txs := t.txs)
    decreases keys
  {
    if keys != [] {
      if keys[0] in s.table && s.table[keys[0]] < |s.txs| {
        RemoveKeysFrame(Retire(s, s.table[keys[0]], s.txs[s.table[keys[0]]].state, false), keys[1..]);
      } else {
        RemoveKeysFrame(s, keys[1..]);
      }
    }
  }

  /** The steps that keep a reference for nobody: a response that matches no
      transaction, and an empty datagram that got a packet. */
  predicate Loses(s: State, e: Event)
    requires Enabled(s, e)
  {
    match e
    case RunClosure => s.queue[0].Response? && s.queue[0].id !in s.table
    case Arrival(d) => d.Empty? && s.pool.free != []
    case _ => false
  }

  lemma LostGrows(s: State, e: Event)
    requires Consistent(s.pool) && TableLive(s) && Enabled(s, e)
    ensures s.lost <= Step(s, e).lost
    ensures Step(s, e).lost == s.lost <==> !Loses(s, e)
  {
    hide Consistent;
    match e
    case RunClosure =>
      if s.queue[0].Disable? && s.enabled {
        RemoveKeysFrame(s.(queue := s.queue[1..], enabled := false), Upto(MAX_ID + 1));
      } else if s.queue[0].Response? {
        LostOneMore(s.lost, s.queue[0].packet);
      }
    case WriteReady => DrainFrame(s);
    case Arrival(d) =>
      if s.pool.free != [] {
        LostOneMore(s.lost, s.pool.free[0]);
      }
    case _ =>
  }

  lemma LostOneMore(lost: multiset<nat>, x: nat)
    ensures lost <= lost + multiset{x} && lost + multiset{x} != lost
  {
    assert (lost + multiset{x})[x] == lost[x] + 1;
  }

  /** No step of the run loses a reference. */
  ghost predicate NeverLoses(capacity: nat, events: seq<Event>)
    requires Legal(capacity, events)
  {
    events == [] || (NeverLoses(capacity, Front(events)) && !Loses(Run(capacity, Front(events)), Last(events)))
  }

  lemma {:induction false} NothingLostIff(capacity: nat, events: seq<Event>)
    requires Legal(capacity, events)
    ensures Run(capacity, events).lost == NONE <==> NeverLoses(capacity, events)
  {
    if events != [] {
      NothingLostIff(capacity, Front(events));
      OwnedAlways(capacity, Front(events));
      LostGrows(Run(capacity, Front(events)), Last(events));
    }
  }

  /** Counts and holders agree on every packet if and only if no response in the
      run failed to match a transaction and no empty datagram got a packet. */
  lemma CountsExactIffNeverLoses(capacity: nat, events: seq<Event>)
    requires Legal(capacity, events)
    ensures var s := Run(capacity, events);
            (forall x: nat :: x < |s.pool.count| ==> s.pool.count[x] == Holders(s)[x]) <==> NeverLoses(capacity, events)
  {
    CountIsHolders(capacity, events);
    OwnedAlways(capacity, events);
    NothingLostIff(capacity, events);
    var s := Run(capacity, events);
    if x :| x in s.lost {
      assert x in Holders(s) + s.lost + NONE;
      assert s.pool.count[x] != Holders(s)[x];
    }
  }

  /** The packet has a reference to its name and nobody who will release it. */
  ghost predicate LostAlone(s: State, x: nat)
  {
    x in s.lost && x !in Holders(s) && x < |s.pool.count| && s.pool.count[x] == 1
  }

  /** One empty datagram, and a packet is lost with nobody holding it. */
  lemma EmptyDatagramLoses(capacity: nat)
    requires capacity > 0
    ensures var events := [Arrival(Empty)];
            && Legal(capacity, events)
            && LostAlone(Run(capacity, events), 0)
  {
    var events := [Arrival(Empty)];
    LegalNext(capacity, [], Arrival(Empty));
    assert [] + events == events;
    OwnedAlways(capacity, events);
  }

  /** A response to a request never made: its packet is lost as well. */
  lemma UnmatchedResponseLoses(capacity: nat, id: nat)
    requires capacity > 0
    ensures var events := [Arrival(Good)] + [Callback(0, IsResponse(id, true))] + [RunClosure];
            && Legal(capacity, events)
            && LostAlone(Run(capacity, events), 0)
  {
    hide Step, Enabled, Holders;
    UnmatchedResponseSteps(capacity, id);
    var a, b := [Arrival(Good)], [Callback(0, IsResponse(id, true))];
    assert [] + a == a;
    LegalNext(capacity, [], Arrival(Good));
    LegalNext(capacity, a, Callback(0, IsResponse(id, true)));
    LegalNext(capacity, a + b, RunClosure);
  }

  lemma UnmatchedResponseSteps(capacity: nat, id: nat)
    requires capacity > 0
    ensures var s := Initial(capacity);
            Enabled(s, Arrival(Good)) && (
              var t := Step(s, Arrival(Good));
              Enabled(t, Callback(0, IsResponse(id, true))) && (
                var u := Step(t, Callback(0, IsResponse(id, true)));
                Enabled(u, RunClosure) && (
                  var v := Step(u, RunClosure);
                  LostAlone(v, 0))))
  {
    var s := Initial(capacity);
    assert s.pool.free[0] == 0;
    var t := Step(s, Arrival(Good));
    assert t.pool.count[0] == 1 && t.callbacks == multiset{0};
    var u := Step(t, Callback(0, IsResponse(id, true)));
    assert u.pool.count[0] == 1 && u.queue == [Response(0, id, true)] && u.callbacks == multiset{};
    var v := Step(u, RunClosure);
    assert v.queue == [] && v.pool == u.pool && v.callbacks == multiset{} && v.lost == multiset{0};
  }

  lemma LegalNext(capacity: nat, events: seq<Event>, e: Event)
    requires Legal(capacity, events) && Enabled(Run(capacity, events), e)
    ensures Legal(capacity, events + [e]) && Run(capacity, events + [e]) == Step(Run(capacity, events), e)
  {
    assert (events + [e])[..|events|] == events;
  }

  /** A packet with a lost reference is never handed out again, however the run goes on. */
  lemma {:induction false} LostForever(capacity: nat, events: seq<Event>, n: nat, x: nat)
    requires Legal(capacity, events) && n <= |events| && Legal(capacity, events[..n])
    requires x in Run(capacity, events[..n]).lost
    ensures x in Run(capacity, events).lost && x !in Run(capacity, events).pool.free
  {
    if n == |events| {
      assert events[..n] == events;
    } else {
      assert Front(events)[..n] == events[..n];
      LostForever(capacity, Front(events), n, x);
      OwnedAlways(capacity, Front(events));
      LostGrows(Run(capacity, Front(events)), Last(events));
    }
    OwnedAlways(capacity, events);
    var s := Run(capacity, events);
    assert x in Holders(s) + s.lost + NONE;
    assert forall y :: y in s.pool.free ==> s.pool.count[y] == 0;
  }

  // ----- the socket's write side

  /** Packets leave in the order they were handed over, and the write source runs
      exactly while packets are pending. */
  ghost predicate InOrder(s: Socket)
  {
    s.handed == s.written + s.pending + s.closures && (s.pending != [] <==> s.isSending)
  }

  lemma SendInOrder(s: State, x: nat)
    requires Consistent(s.pool) && InOrder(s.socket)
    ensures InOrder(Send(s, x).socket)
  {
  }

  lemma ExecuteInOrder(s: State, c: Closure)
    requires Consistent(s.pool) && InOrder(s.socket)
    ensures InOrder(Execute(s, c).socket)
  {
    match c
    case Disable =>
      if s.enabled {
        RemoveKeysFrame(s.(enabled := false), Upto(MAX_ID + 1));
      }
    case Timeout(id, _) =>
      if id in s.table && s.table[id] < |s.txs| {
        SendInOrder(Retried(s, s.table[id]), s.txs[s.table[id]].packet);
      }
    case Request(_) =>
      if s.pool.free != [] {
        SendInOrder(s.(pool := Alloc(s.pool).0), s.pool.free[0]);
      }
    case _ =>
  }

  lemma StepInOrder(s: State, e: Event)
    requires Consistent(s.pool) && InOrder(s.socket) && Enabled(s, e)
    ensures InOrder(Step(s, e).socket)
  {
    hide Drain;
    match e
    case RunClosure => ExecuteInOrder(s.(queue := s.queue[1..]), s.queue[0]);
    case RunPush => PushInOrder(s);
    case WriteReady => WriteInOrder(s);
    case _ =>
  }

  lemma PushInOrder(s: State)
    requires InOrder(s.socket) && s.socket.closures != []
    ensures InOrder(Push(s).socket)
  {
    assert s.socket.pending + s.socket.closures ==
        (s.socket.pending + [s.socket.closures[0]]) + s.socket.closures[1..];
  }

  lemma WriteInOrder(s: State)
    requires Consistent(s.pool) && InOrder(s.socket)
    ensures InOrder(WriteAll(s).socket)
  {
    DrainFrame(s);
  }

  lemma {:induction false} SocketInOrder(capacity: nat, events: seq<Event>)
    requires Legal(capacity, events)
    ensures InOrder(Run(capacity, events).socket)
  {
    if events != [] {
      SocketInOrder(capacity, Front(events));
      StepInOrder(Run(capacity, Front(events)), Last(events));
    }
  }
}
