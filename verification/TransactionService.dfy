/** The transaction configuration and its socket as they live in memory. Each
    method is one closure, timer event or socket event, changes the fields in
    place, and takes the state machine of Transactions exactly one step. What the
    machine's invariants give here is that no step retains or releases a packet
    that is not live. */
module TransactionService {
  import M = PoolModel
  import O = PacketOwnership
  import Pool
  import T = Transactions

  class TransactionService {
    const pool: Pool.Pool
    var isEnabled: bool
    var cseq: nat
    var table: map<nat, nat>
    var txs: seq<T.Tx>
    /** Closures on the transactions queue, callbacks on the global queue, closures on the socket's queue. */
    var queue: seq<T.Closure>
    var callbacks: multiset<nat>
    var closures: seq<nat>
    var pending: seq<nat>
    var isSending: bool
    ghost var handed: seq<nat>
    ghost var written: seq<nat>
    ghost var lost: multiset<nat>

    ghost function Objects(): set<object>
    {
      {this, pool, pool.retainCount, pool.next}
    }

    ghost function Model(): T.State
      reads this, pool, pool.retainCount
    {
      T.State(pool.Model(), isEnabled, cseq, table, txs, queue, callbacks,
              T.Socket(closures, pending, isSending, handed, written), lost)
    }

    /** Balanced but for references in the hands of the running closure. */
    ghost predicate Holding(extra: multiset<nat>)
      reads Objects()
    {
      pool.Valid() && O.TableLive(Model()) && O.Balanced(Model(), extra)
    }

    ghost predicate Valid()
      reads Objects()
    {
      pool.Valid() && O.Registered(Model()) && O.Balanced(Model(), O.NONE)
    }

    constructor (capacity: nat)
      ensures Valid() && Model() == T.Initial(capacity) && fresh(Objects())
    {
      hide O.Counts, O.Holders, O.InsertsPending, O.TableLive, M.Consistent, M.New, Pool.Linked;
      O.AtStart(capacity);
      pool := new Pool.Pool(capacity);
      isEnabled, cseq, table, txs := true, 0, map[], [];
      queue, callbacks, closures, pending, isSending := [], multiset{}, [], [], false;
      handed, written, lost := [], [], multiset{};
    }

    // ----- packets

    method Retain(x: nat)
      requires pool.Valid() && M.Live(pool.Model(), x)
      modifies pool.retainCount
      ensures pool.Valid() && pool.Model() == T.RetainPacket(old(pool.Model()), x)
    {
      pool.Retain(x);
    }

    method Release(x: nat)
      requires pool.Valid() && M.Live(pool.Model(), x)
      modifies pool, pool.retainCount, pool.next
      ensures pool.Valid() && pool.Model() == T.ReleasePacket(old(pool.Model()), x)
    {
      pool.Release(x);
    }

    /** Keeps the packet alive until it is written. */
    method SocketSend(x: nat)
      requires pool.Valid() && M.Live(pool.Model(), x)
      modifies this`closures, this`handed, pool.retainCount
      ensures pool.Valid() && Model() == T.Send(old(Model()), x)
    {
      Retain(x);
      closures, handed := closures + [x], handed + [x];
    }

    // ----- requests

    method Request() returns (started: bool)
      requires Valid()
      modifies Objects()
      ensures Valid() && Model() == T.StartTx(old(Model()))
      ensures started <==> old(pool.free) != []
    {
      hide O.Counts, O.Holders, O.InsertsPending, O.TableLive, M.Consistent, Pool.Linked;
      ghost var s := Model();
      O.StartTxBalanced(s);
      O.StartTxRegistered(s);
      var x := pool.Alloc();
      if x == Pool.NULL {
        return false;
      }
      O.AllocatedIsLive(s.pool);
      txs := txs + [T.Tx(cseq, x, T.Waiting, 0, T.Armed(T.Deadline(0)), true, 1, 0)];
      cseq := (cseq + 1) % T.MAX_ID;
      queue := queue + [T.Insert(|txs| - 1)];
      assert Model() == T.Allocated(s);
      SocketSend(x);
      started := true;
    }

    /** Out of the table, timer destroyed, packet released. */
    method Retire(h: nat, state: T.TxState, notify: bool, ghost extra: multiset<nat>)
      requires Holding(extra) && h < |txs| && txs[h].live
      modifies this`table, this`txs, pool, pool.retainCount, pool.next
      ensures pool.Valid() && Model() == T.Retire(old(Model()), h, state, notify)
    {
      hide O.Counts, O.Holders, O.InsertsPending, O.TableLive, M.Consistent, Pool.Linked;
      ghost var s := Model();
      O.TxPacketIsLive(s, extra, h);
      var tx := txs[h];
      table := table - {tx.id};
      txs := txs[h := tx.(state := state, timer := T.Disarmed, live := false,
                          errors := tx.errors + if notify then 1 else 0)];
      Release(tx.packet);
    }

    /** Walks the table slot by slot, and leaves no key of it behind. */
    method RemoveAll()
      requires Holding(O.NONE)
      modifies this`table, this`txs, pool, pool.retainCount, pool.next
      ensures pool.Valid() && Model() == T.RemoveAll(old(Model()))
      ensures forall id :: id in table <==> id in old(table) && id > T.MAX_ID
      ensures forall id :: id in old(table) && id <= T.MAX_ID ==> old(table)[id] < |txs| && !txs[old(table)[id]].live
    {
      hide O.Counts, O.Holders, O.InsertsPending, O.TableLive, M.Consistent, Pool.Linked;
      var n := T.MAX_ID + 1;
      ghost var keys := M.Upto(n);
      ghost var result := T.RemoveKeys(Model(), keys);
      O.RemoveKeysEmpties(Model(), keys);
      O.TableEntries(Model());
      assert keys[0..] == keys;
      for key := 0 to n
        invariant Holding(O.NONE) && T.RemoveKeys(Model(), keys[key..]) == result
      {
        assert keys[key..][0] == key && keys[key..][1..] == keys[key + 1..];
        if key in table {
          ghost var s := Model();
          O.TableEntry(s, key);
          O.RetireBalanced(s, O.NONE, table[key], txs[table[key]].state, false);
          O.RetireTableLive(s, key, txs[table[key]].state, false);
          Retire(table[key], txs[table[key]].state, false, O.NONE);
        }
      }
    }

    /** Another attempt, or failure after the last. */
    method OnTimeout(id: nat)
      requires Holding(O.NONE)
      modifies Objects()
      ensures pool.Valid() && Model() == T.OnTimeout(old(Model()), id)
    {
      hide O.Counts, O.Holders, O.InsertsPending, O.TableLive, M.Consistent, Pool.Linked;
      if id in table {
        O.TableEntry(Model(), id);
      }
      if id in table && txs[table[id]].state == T.Waiting {
        var h := table[id];
        if txs[h].retries < T.MAX_RETRIES {
          O.TxPacketIsLive(Model(), O.NONE, h);
          var tx := txs[h];
          txs := txs[h := tx.(retries := tx.retries + 1, timer := T.Armed(T.Deadline(tx.retries + 1)),
                              sends := tx.sends + 1)];
          SocketSend(tx.packet);
        } else {
          Retire(h, T.TimedOut, true, O.NONE);
        }
      }
    }

    /** The response's packet is released only when its transaction is found. */
    method OnResponse(packet: nat, id: nat, success: bool)
      requires Holding(multiset{packet})
      modifies this`table, this`txs, this`lost, pool, pool.retainCount, pool.next
      ensures pool.Valid() && Model() == T.OnResponse(old(Model()), packet, id, success)
    {
      hide O.Counts, O.Holders, O.InsertsPending, O.TableLive, M.Consistent, Pool.Linked;
      ghost var extra := multiset{packet};
      if id in table {
        var state := if success then T.Acknowledged else T.Error;
        O.TableEntry(Model(), id);
        O.RetireBalanced(Model(), extra, table[id], state, !success);
        Retire(table[id], state, !success, extra);
        O.HeldIsLive(Model(), extra, packet);
        Release(packet);
      } else {
        lost := lost + multiset{packet};
      }
    }

    /** Answers in a fresh packet, then gives both packets up. */
    method OnRequest(packet: nat)
      requires Holding(multiset{packet}) && pool.free != []
      modifies this`closures, this`handed, pool, pool.retainCount, pool.next
      ensures pool.Valid() && Model() == T.OnRequest(old(Model()), packet)
    {
      hide O.Counts, O.Holders, O.InsertsPending, O.TableLive, M.Consistent, Pool.Linked;
      ghost var s := Model();
      O.OnRequestLive(s, packet);
      var x := pool.Alloc();
      assert Model() == s.(pool := M.Alloc(s.pool).0);
      SocketSend(x);
      Release(x);
      Release(packet);
    }

    /** Runs the closure at the front of the transactions queue. */
    method RunClosure()
      requires Valid() && T.Enabled(Model(), T.RunClosure)
      modifies Objects()
      ensures Valid() && Model() == T.RunHead(old(Model()))
    {
      hide O.Counts, O.Holders, O.InsertsPending, O.TableLive, M.Consistent, Pool.Linked;
      ghost var s := Model();
      O.RunHeadBalanced(s);
      O.RunHeadRegistered(s);
      O.PoppedBalanced(s);
      O.PoppedRegistered(s);
      var c := queue[0];
      queue := queue[1..];
      Execute(c);
    }

    method Execute(c: T.Closure)
      requires Holding(O.ClosurePacket(c)) && (c.Request? ==> pool.free != [])
      modifies Objects()
      ensures pool.Valid() && Model() == T.Execute(old(Model()), c)
    {
      hide O.Counts, O.Holders, O.InsertsPending, O.TableLive, M.Consistent, Pool.Linked;
      match c
      case Insert(h) =>
        if h < |txs| {
          table := table[txs[h].id := h];
        }
      case Response(packet, id, success) => OnResponse(packet, id, success);
      case Request(packet) => OnRequest(packet);
      case Timeout(id, _) => OnTimeout(id);
      case Enable => isEnabled := true;
      case Disable =>
        if isEnabled {
          ghost var s := Model();
          isEnabled := false;
          O.BalancedFrame(s, Model(), O.NONE);
          O.TableFrame(s, Model());
          RemoveAll();
        }
    }

    /** The timer's handler posts a closure that knows only the id. */
    method FireTimer(h: nat)
      requires Valid() && T.Enabled(Model(), T.FireTimer(h))
      modifies this`txs, this`queue
      ensures Valid() && Model() == T.Fire(old(Model()), h)
    {
      hide O.Counts, O.Holders, O.InsertsPending, O.TableLive, M.Consistent, Pool.Linked;
      O.FireBalanced(Model(), h);
      O.FireRegistered(Model(), h);
      queue := queue + [T.Timeout(txs[h].id, h)];
      txs := txs[h := txs[h].(timer := T.Disarmed)];
    }

    method Enable()
      requires Valid()
      modifies this`queue
      ensures Valid() && Model() == T.Post(old(Model()), T.Enable)
    {
      hide O.Counts, O.Holders, O.InsertsPending, O.TableLive, M.Consistent, Pool.Linked;
      O.StepBalanced(Model(), T.PostEnable);
      O.StepRegistered(Model(), T.PostEnable);
      queue := queue + [T.Enable];
    }

    method Disable()
      requires Valid()
      modifies this`queue
      ensures Valid() && Model() == T.Post(old(Model()), T.Disable)
    {
      hide O.Counts, O.Holders, O.InsertsPending, O.TableLive, M.Consistent, Pool.Linked;
      O.StepBalanced(Model(), T.PostDisable);
      O.StepRegistered(Model(), T.PostDisable);
      queue := queue + [T.Disable];
    }

    // ----- the socket

    /** The read handler: one datagram into one packet. */
    method Read(d: T.Datagram)
      requires Valid()
      modifies this`callbacks, this`lost, pool, pool.retainCount, pool.next
      ensures Valid() && Model() == T.Arrive(old(Model()), d)
    {
      hide O.Counts, O.Holders, O.InsertsPending, O.TableLive, M.Consistent, Pool.Linked;
      ghost var s := Model();
      O.ArriveBalanced(s, d);
      O.RegisteredFrame(s, T.Arrive(s, d));
      var x := pool.Alloc();
      if x != Pool.NULL {
        O.AllocatedIsLive(s.pool);
        match d
        case Good => callbacks := callbacks + multiset{x};
        case Bad => pool.Free(x);
        case Empty => lost := lost + multiset{x};
      }
    }

    /** The receive callback keeps the packet for a closure before it gives up its own reference. */
    method ReceiveCallback(packet: nat, content: T.Content)
      requires Valid() && packet in callbacks
      modifies this`callbacks, this`queue, pool, pool.retainCount, pool.next
      ensures Valid() && Model() == T.RunCallback(old(Model()), packet, content)
    {
      hide O.Counts, O.Holders, O.InsertsPending, O.TableLive, M.Consistent, Pool.Linked;
      ghost var s := Model();
      O.RunCallbackBalanced(s, packet, content);
      O.RunCallbackRegistered(s, packet, content);
      O.HeldIsLive(s, O.NONE, packet);
      callbacks := callbacks - multiset{packet};
      if isEnabled && !content.Invalid? {
        Retain(packet);
        queue := queue + [T.ReceivedClosure(packet, content)];
      }
      Release(packet);
    }

    /** The socket closure: queue the packet and resume the write source. */
    method RunPush()
      requires Valid() && closures != []
      modifies this`closures, this`pending, this`isSending
      ensures Valid() && Model() == T.Push(old(Model()))
    {
      hide O.Counts, O.Holders, O.InsertsPending, O.TableLive, M.Consistent, Pool.Linked;
      ghost var s := Model();
      O.PushBalanced(s);
      O.RegisteredFrame(s, T.Push(s));
      var packet := closures[0];
      closures := closures[1..];
      pending := pending + [packet];
      ResumeWrite();
    }

    method ResumeWrite()
      modifies this`isSending
      ensures isSending
    {
      if !isSending {
        isSending := true;
      }
    }

    method SuspendWrite()
      modifies this`isSending
      ensures !isSending
    {
      if isSending {
        isSending := false;
      }
    }

    /** The write handler: write and release until nothing is pending, then suspend. */
    method Write()
      requires Valid() && isSending
      modifies this`pending, this`isSending, this`written, pool, pool.retainCount, pool.next
      ensures Valid() && Model() == T.WriteAll(old(Model()))
    {
      hide O.Counts, O.Holders, O.InsertsPending, O.TableLive, M.Consistent, Pool.Linked;
      ghost var s := Model();
      O.WriteAllBalanced(s);
      O.DrainFrame(s);
      O.RegisteredFrame(s, T.WriteAll(s));
      ghost var result := T.Drain(s);
      while pending != []
        invariant Holding(O.NONE) && T.Drain(Model()) == result
        decreases |pending|
      {
        ghost var t := Model();
        O.WriteOneBalanced(t);
        var packet := pending[0];
        pending, written := pending[1..], written + [packet];
        Release(packet);
        O.TableFrame(t, Model());
      }
      SuspendWrite();
    }
  }
}
