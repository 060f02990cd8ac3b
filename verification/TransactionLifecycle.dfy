/** What happens to one transaction over a whole run: attempts, deadlines, outcome. */
module TransactionLifecycle {
  import opened Basics
  import opened PoolModel
  import opened Transactions
  import opened PacketOwnership

  // ----- attempts and outcomes

  /** A live transaction waits, its timer set for its attempt. A freed one has no
      timer and has reported an error exactly if it ended in one. Either has been
      sent once and once more for each of at most two retries. */
  ghost predicate Lived(t: Tx)
  {
    && t.sends == 1 + t.retries && t.retries <= MAX_RETRIES
    && (t.live ==> t.state == Waiting && t.errors == 0)
    && (t.live && t.timer.Armed? ==> t.timer.milliseconds == Deadline(t.retries))
    && (!t.live ==> t.timer == Disarmed && t.errors == if t.state == Error || t.state == TimedOut then 1 else 0)
    && (t.state == TimedOut ==> t.retries == MAX_RETRIES)
  }

  ghost predicate AllLived(s: State)
  {
    forall h :: 0 <= h < |s.txs| ==> Lived(s.txs[h])
  }

  /** From s to t no transaction is forgotten and none that was freed changes. */
  ghost predicate Keeps(s: State, t: State)
  {
    && |s.txs| <= |t.txs|
    && forall h :: 0 <= h < |s.txs| ==> t.txs[h].id == s.txs[h].id && (!s.txs[h].live ==> t.txs[h] == s.txs[h])
  }

  lemma RetireLived(s: State, id: nat, state: TxState, notify: bool)
    requires Consistent(s.pool) && TableLive(s) && AllLived(s) && id in s.table
    requires notify <==> state == Error || state == TimedOut
    requires state == TimedOut ==> s.txs[s.table[id]].retries == MAX_RETRIES
    ensures AllLived(Retire(s, s.table[id], state, notify)) && Keeps(s, Retire(s, s.table[id], state, notify))
  {
  }

  lemma {:induction false} RemoveKeysLived(s: State, keys: seq<nat>)
    requires Consistent(s.pool) && TableLive(s) && AllLived(s)
    ensures AllLived(RemoveKeys(s, keys)) && Keeps(s, RemoveKeys(s, keys))
    decreases keys
  {
    if keys != [] {
      if keys[0] in s.table {
        RetireLived(s, keys[0], Waiting, false);
        RetireTableLive(s, keys[0], Waiting, false);
        RemoveKeysLived(Retire(s, s.table[keys[0]], Waiting, false), keys[1..]);
      } else {
        RemoveKeysLived(s, keys[1..]);
      }
    }
  }

  lemma OnResponseLived(s: State, packet: nat, id: nat, success: bool)
    requires Consistent(s.pool) && TableLive(s) && AllLived(s)
    ensures AllLived(OnResponse(s, packet, id, success)) && Keeps(s, OnResponse(s, packet, id, success))
  {
    if id in s.table {
      RetireLived(s, id, if success then Acknowledged else Error, !success);
    }
  }

  lemma OnTimeoutLived(s: State, id: nat)
    requires Consistent(s.pool) && TableLive(s) && AllLived(s)
    ensures AllLived(OnTimeout(s, id)) && Keeps(s, OnTimeout(s, id))
  {
    if id in s.table && s.txs[s.table[id]].retries >= MAX_RETRIES {
      RetireLived(s, id, TimedOut, true);
    }
  }

  lemma ExecuteLived(s: State, c: Closure)
    requires Consistent(s.pool) && TableLive(s) && AllLived(s)
    ensures AllLived(Execute(s, c)) && Keeps(s, Execute(s, c))
  {
    hide OnResponse, OnTimeout, TableLive;
    match c
    case Response(packet, id, success) => OnResponseLived(s, packet, id, success);
    case Timeout(id, _) => OnTimeoutLived(s, id);
    case Disable =>
      if s.enabled {
        TableFrame(s, s.(enabled := false));
        RemoveKeysLived(s.(enabled := false), Upto(MAX_ID + 1));
      }
    case _ =>
  }

  lemma StepLived(s: State, e: Event)
    requires Consistent(s.pool) && TableLive(s) && AllLived(s) && Enabled(s, e)
    ensures AllLived(Step(s, e)) && Keeps(s, Step(s, e))
  {
    match e
    case RunClosure => ExecuteLived(s.(queue := s.queue[1..]), s.queue[0]);
    case WriteReady => DrainFrame(s);
    case _ =>
  }

  /** In every run, whatever the interleaving and however the ids wrap, each
      transaction is sent at most three times and gets at most one error callback. */
  lemma {:induction false} AttemptsAndErrors(capacity: nat, events: seq<Event>)
    requires Legal(capacity, events)
    ensures AllLived(Run(capacity, events))
    ensures forall h :: 0 <= h < |Run(capacity, events).txs| ==>
              Run(capacity, events).txs[h].sends <= 3 && Run(capacity, events).txs[h].errors <= 1
  {
    if events != [] {
      AttemptsAndErrors(capacity, Front(events));
      OwnedAlways(capacity, Front(events));
      StepLived(Run(capacity, Front(events)), Last(events));
    }
  }

  /** Once freed, a transaction never changes again: it has one outcome, and no
      error callback follows a success or a disable. */
  lemma {:induction false} OutcomeIsFinal(capacity: nat, events: seq<Event>, n: nat, h: nat)
    requires Legal(capacity, events) && n <= |events| && Legal(capacity, events[..n])
    requires h < |Run(capacity, events[..n]).txs| && !Run(capacity, events[..n]).txs[h].live
    ensures h < |Run(capacity, events).txs| && Run(capacity, events).txs[h] == Run(capacity, events[..n]).txs[h]
  {
    if n == |events| {
      assert events[..n] == events;
    } else {
      assert Front(events)[..n] == events[..n];
      OutcomeIsFinal(capacity, Front(events), n, h);
      AttemptsAndErrors(capacity, Front(events));
      OwnedAlways(capacity, Front(events));
      StepLived(Run(capacity, Front(events)), Last(events));
    }
  }

  // ----- what a disable ends

  ghost predicate IdsInRange(s: State)
  {
    s.cseq < MAX_ID && forall h :: 0 <= h < |s.txs| ==> s.txs[h].id < MAX_ID
  }

  lemma DisableInRange(s: State)
    requires Consistent(s.pool) && TableLive(s) && AllLived(s) && IdsInRange(s)
    ensures IdsInRange(OnDisable(s))
  {
    if s.enabled {
      var q := s.(enabled := false);
      TableFrame(s, q);
      RemoveKeysLived(q, Upto(MAX_ID + 1));
      RemoveKeysEmpties(q, Upto(MAX_ID + 1));
      RemoveKeysFrame(q, Upto(MAX_ID + 1));
    }
  }

  lemma ExecuteInRange(s: State, c: Closure)
    requires Consistent(s.pool) && TableLive(s) && AllLived(s) && IdsInRange(s)
    ensures IdsInRange(Execute(s, c))
  {
    hide OnDisable, TableLive, Lived;
    if c.Disable? {
      DisableInRange(s);
    }
  }

  lemma StepInRange(s: State, e: Event)
    requires Consistent(s.pool) && TableLive(s) && AllLived(s) && IdsInRange(s) && Enabled(s, e)
    ensures IdsInRange(Step(s, e))
  {
    match e
    case RunClosure =>
      var q := s.(queue := s.queue[1..]);
      TableFrame(s, q);
      ExecuteInRange(q, s.queue[0]);
    case WriteReady => DrainFrame(s);
    case _ =>
  }

  lemma {:induction false} InRangeAlways(capacity: nat, events: seq<Event>)
    requires Legal(capacity, events)
    ensures IdsInRange(Run(capacity, events))
  {
    if events != [] {
      InRangeAlways(capacity, Front(events));
      AttemptsAndErrors(capacity, Front(events));
      OwnedAlways(capacity, Front(events));
      StepInRange(Run(capacity, Front(events)), Last(events));
    }
  }

  /** A disable frees every transaction in the table, reporting no error, and
      empties the table; a transaction whose insertion is still queued it misses. */
  lemma DisableEmptiesTable(s: State)
    requires Consistent(s.pool) && Registered(s) && AllLived(s) && IdsInRange(s) && s.enabled
    ensures var t := OnDisable(s);
            && t.table == map[] && !t.enabled && |t.txs| == |s.txs|
            && (forall id :: id in s.table ==>
                  !t.txs[s.table[id]].live && t.txs[s.table[id]].state == Waiting && t.txs[s.table[id]].errors == 0)
            && (forall h: nat :: Insert(h) in s.queue ==> h < |s.txs| && t.txs[h].live)
  {
    var q, keys := s.(enabled := false), Upto(MAX_ID + 1);
    TableFrame(s, q);
    RemoveKeysEmpties(q, keys);
    RemoveKeysFrame(q, keys);
    assert forall id :: id in s.table ==> id in keys;
    assert RemoveKeys(q, keys).table == map[];
    forall h: nat | Insert(h) in s.queue
      ensures h < |s.txs| && OnDisable(s).txs[h].live
    {
      RemoveKeysSpares(q, keys, h);
    }
  }

  /** So a transaction in the table when a disable runs has ended there: in no
      later state of the run is it live, answered, or reported as an error. */
  lemma DisableIsFinal(capacity: nat, events: seq<Event>, n: nat, id: nat)
    requires Legal(capacity, events) && n < |events| && Legal(capacity, events[..n + 1]) && Legal(capacity, events[..n])
    requires events[n] == RunClosure
    requires var s := Run(capacity, events[..n]); s.enabled && s.queue != [] && s.queue[0] == Disable && id in s.table
    ensures Run(capacity, events[..n + 1]).table == map[]
    ensures var h := Run(capacity, events[..n]).table[id];
            && h < |Run(capacity, events).txs|
            && var t := Run(capacity, events).txs[h]; !t.live && t.state == Waiting && t.errors == 0
  {
    var s := Run(capacity, events[..n]);
    AttemptsAndErrors(capacity, events[..n]);
    OwnedAlways(capacity, events[..n]);
    InRangeAlways(capacity, events[..n]);
    PoppedRegistered(s);
    DisableEmptiesTable(s.(queue := s.queue[1..]));
    assert Front(events[..n + 1]) == events[..n] && Last(events[..n + 1]) == RunClosure;
    OutcomeIsFinal(capacity, events, n + 1, s.table[id]);
  }

  // ----- one timer or one queued timeout

  function CountTimeouts(queue: seq<Closure>, h: nat): nat
  {
    if queue == [] then 0
    else CountTimeouts(Front(queue), h) + if Last(queue).Timeout? && Last(queue).tx == h then 1 else 0
  }

  function IsTimeout(c: Closure, h: nat): nat
  {
    if c.Timeout? && c.tx == h then 1 else 0
  }

  lemma CountPost(queue: seq<Closure>, c: Closure, h: nat)
    ensures CountTimeouts(queue + [c], h) == CountTimeouts(queue, h) + IsTimeout(c, h)
  {
    assert Front(queue + [c]) == queue;
  }

  lemma {:induction false} CountHead(queue: seq<Closure>, h: nat)
    requires queue != []
    ensures CountTimeouts(queue, h) == IsTimeout(queue[0], h) + CountTimeouts(queue[1..], h)
  {
    if |queue| > 1 {
      CountHead(Front(queue), h);
      assert Front(queue)[1..] == Front(queue[1..]);
    }
  }

  lemma {:induction false} CountZero(queue: seq<Closure>, h: nat)
    requires forall i :: 0 <= i < |queue| && queue[i].Timeout? ==> queue[i].tx != h
    ensures CountTimeouts(queue, h) == 0
  {
    if queue != [] {
      CountZero(Front(queue), h);
    }
  }

  /** Ids come round after 255 allocations; queued timeouts carry their transaction's id. */
  ghost predicate Ids(s: State)
  {
    && s.cseq == |s.txs| % MAX_ID
    && (forall h :: 0 <= h < |s.txs| ==> s.txs[h].id == h % MAX_ID)
    && (forall i :: 0 <= i < |s.queue| && s.queue[i].Timeout? ==>
          s.queue[i].tx < |s.txs| && s.queue[i].id == s.queue[i].tx % MAX_ID)
  }

  /** Transactions that are live, or that a queued timeout still names, were
      among the last n allocated. */
  ghost predicate Within(s: State, n: nat)
  {
    && (forall h :: 0 <= h < |s.txs| && s.txs[h].live ==> |s.txs| - h <= n)
    && (forall i :: 0 <= i < |s.queue| && s.queue[i].Timeout? ==> |s.txs| - s.queue[i].tx <= n)
  }

  /** Each live transaction is timed once: its timer is armed or one timeout of its is queued. */
  ghost predicate TimedOnce(s: State)
  {
    forall h :: 0 <= h < |s.txs| && s.txs[h].live ==>
                  (if s.txs[h].timer.Armed? then 1 else 0) + CountTimeouts(s.queue, h) == 1
  }

  /** Each live transaction is in the table or about to be. */
  ghost predicate Reachable(s: State)
  {
    forall h :: 0 <= h < |s.txs| && s.txs[h].live ==>
                  Insert(h) in s.queue || (s.txs[h].id in s.table && s.table[s.txs[h].id] == h)
  }

  /** No timeout is queued ahead of its transaction's insertion. */
  ghost predicate Ordered(s: State)
  {
    forall i, j :: 0 <= i < j < |s.queue| && s.queue[i].Timeout? && s.queue[j].Insert? ==>
                     s.queue[i].tx != s.queue[j].tx
  }

  ghost predicate Clocked(s: State)
  {
    Ids(s) && Within(s, MAX_ID) && TimedOnce(s) && Reachable(s) && Ordered(s)
  }

  lemma SameId(a: nat, b: nat, n: nat)
    requires a < n && b < n && n - a <= MAX_ID && n - b <= MAX_ID && a % MAX_ID == b % MAX_ID
    ensures a == b
  {
  }

  lemma StartTxOrdered(s: State)
    requires Consistent(s.pool) && s.pool.free != [] && Ordered(s) && Ids(s)
    ensures Ordered(StartTx(s)) && Ids(StartTx(s))
  {
    var t := StartTx(s);
    assert t.queue == s.queue + [Insert(|s.txs|)];
  }

  lemma StartTxClocked(s: State)
    requires Consistent(s.pool) && Clocked(s) && Registered(s) && Within(s, MAX_ID - 1)
    ensures Clocked(StartTx(s))
  {
    hide CountTimeouts, Ordered;
    if s.pool.free != [] {
      StartTxOrdered(s);
      var t, n := StartTx(s), |s.txs|;
      assert t.queue == s.queue + [Insert(n)] && t.txs[..n] == s.txs;
      forall h | 0 <= h < |t.txs| && t.txs[h].live
        ensures (if t.txs[h].timer.Armed? then 1 else 0) + CountTimeouts(t.queue, h) == 1
        ensures Insert(h) in t.queue || (t.txs[h].id in t.table && t.table[t.txs[h].id] == h)
      {
        CountPost(s.queue, Insert(n), h);
        if h == n {
          CountZero(s.queue, n);
          assert t.queue[|s.queue|] == Insert(n);
        } else {
          assert t.txs[h] == s.txs[h];
        }
      }
    }
  }

  lemma FireClocked(s: State, h: nat)
    requires Clocked(s) && h < |s.txs| && s.txs[h].live && s.txs[h].timer.Armed?
    ensures Clocked(Fire(s, h))
  {
    var t, c := Fire(s, h), Timeout(s.txs[h].id, h);
    forall k | 0 <= k < |t.txs| && t.txs[k].live
      ensures (if t.txs[k].timer.Armed? then 1 else 0) + CountTimeouts(t.queue, k) == 1
      ensures Insert(k) in t.queue || (t.txs[k].id in t.table && t.table[t.txs[k].id] == k)
    {
      CountPost(s.queue, c, k);
      assert s.txs[k].live;
      if Insert(k) in s.queue {
        assert Insert(k) in t.queue;
      }
    }
  }

  lemma PostClocked(s: State, c: Closure)
    requires Clocked(s) && !c.Insert? && !c.Timeout?
    ensures Clocked(Post(s, c))
  {
    var t := Post(s, c);
    forall k | 0 <= k < |t.txs| && t.txs[k].live
      ensures (if t.txs[k].timer.Armed? then 1 else 0) + CountTimeouts(t.queue, k) == 1
      ensures Insert(k) in t.queue || (t.txs[k].id in t.table && t.table[t.txs[k].id] == k)
    {
      CountPost(s.queue, c, k);
      if Insert(k) in s.queue {
        assert Insert(k) in t.queue;
      }
    }
  }

  lemma ClockedFrame(s: State, t: State)
    requires Clocked(s) && t.txs == s.txs && t.queue == s.queue && t.table == s.table && t.cseq == s.cseq
    ensures Clocked(t)
  {
  }

  /** Clocked, but for the timing of transaction h. */
  ghost predicate ClockedBut(s: State, h: nat)
  {
    && Ids(s) && Within(s, MAX_ID) && Reachable(s) && Ordered(s)
    && forall k :: 0 <= k < |s.txs| && s.txs[k].live && k != h ==>
         (if s.txs[k].timer.Armed? then 1 else 0) + CountTimeouts(s.queue, k) == 1
  }

  lemma RetireClocked(s: State, id: nat, state: TxState, notify: bool)
    requires Consistent(s.pool) && Registered(s) && id in s.table && ClockedBut(s, s.table[id])
    ensures Clocked(Retire(s, s.table[id], state, notify))
  {
    var t := Retire(s, s.table[id], state, notify);
    forall k | 0 <= k < |t.txs| && t.txs[k].live
      ensures t.txs[k] == s.txs[k] && k != s.table[id]
      ensures Insert(k) in t.queue || (t.txs[k].id in t.table && t.table[t.txs[k].id] == k)
    {
    }
  }

  lemma {:induction false} RemoveKeysClocked(s: State, keys: seq<nat>)
    requires Consistent(s.pool) && Registered(s) && Clocked(s)
    ensures Clocked(RemoveKeys(s, keys))
    decreases keys
  {
    if keys != [] {
      if keys[0] in s.table {
        var state := s.txs[s.table[keys[0]]].state;
        RetireClocked(s, keys[0], state, false);
        RetireRegistered(s, keys[0], state, false);
        RemoveKeysClocked(Retire(s, s.table[keys[0]], state, false), keys[1..]);
      } else {
        RemoveKeysClocked(s, keys[1..]);
      }
    }
  }

  lemma RetriedClocked(s: State, h: nat)
    requires ClockedBut(s, h) && h < |s.txs| && s.txs[h].live && CountTimeouts(s.queue, h) == 0
    ensures Clocked(Retried(s, h))
  {
    var t := Retried(s, h);
    forall k | 0 <= k < |t.txs| && t.txs[k].live
      ensures s.txs[k].live && t.txs[k].id == s.txs[k].id && (k != h ==> t.txs[k] == s.txs[k])
    {
    }
  }

  // ----- running the closure at the head

  lemma PopFacts(s: State)
    requires Clocked(s) && s.queue != []
    ensures var q, c := s.(queue := s.queue[1..]), s.queue[0];
            && Ids(q) && Within(q, MAX_ID) && Ordered(q)
            && (!c.Insert? ==> Reachable(q))
            && (forall h :: 0 <= h < |s.txs| && s.txs[h].live ==>
                  (if s.txs[h].timer.Armed? then 1 else 0) + IsTimeout(c, h) + CountTimeouts(q.queue, h) == 1)
  {
    var q, c := s.(queue := s.queue[1..]), s.queue[0];
    assert forall i :: 0 <= i < |q.queue| ==> q.queue[i] == s.queue[i + 1];
    forall h | 0 <= h < |s.txs| && s.txs[h].live
      ensures (if s.txs[h].timer.Armed? then 1 else 0) + IsTimeout(c, h) + CountTimeouts(q.queue, h) == 1
      ensures !c.Insert? && Insert(h) in s.queue ==> Insert(h) in q.queue
    {
      CountHead(s.queue, h);
      if !c.Insert? && Insert(h) in s.queue {
        var i :| 0 <= i < |s.queue| && s.queue[i] == Insert(h);
        assert q.queue[i - 1] == Insert(h);
      }
    }
  }

  lemma InsertClocked(s: State)
    requires Consistent(s.pool) && Registered(s) && Clocked(s) && s.queue != [] && s.queue[0].Insert?
    ensures Clocked(RunHead(s))
  {
    var q, h := s.(queue := s.queue[1..]), s.queue[0].tx;
    PopFacts(s);
    PoppedRegistered(s);
    var id := s.txs[h].id;
    assert Insert(h) in s.queue;
    if id in s.table {
      SameId(s.table[id], h, |s.txs|);
      assert false;
    }
    var t := OnInsert(q, h);
    forall k | 0 <= k < |t.txs| && t.txs[k].live
      ensures Insert(k) in t.queue || (t.txs[k].id in t.table && t.table[t.txs[k].id] == k)
    {
      if k != h && Insert(k) in s.queue {
        var i :| 0 <= i < |s.queue| && s.queue[i] == Insert(k);
        assert q.queue[i - 1] == Insert(k);
      }
    }
  }

  lemma TimeoutClocked(s: State)
    requires Consistent(s.pool) && Registered(s) && AllLived(s) && Clocked(s) && s.queue != [] && s.queue[0].Timeout?
    ensures Clocked(RunHead(s))
  {
    var q, h, id := s.(queue := s.queue[1..]), s.queue[0].tx, s.queue[0].id;
    PopFacts(s);
    PoppedRegistered(s);
    assert IsTimeout(s.queue[0], h) == 1;
    if s.txs[h].live {
      assert Insert(h) !in s.queue;
      assert s.table[id] == h && ClockedBut(q, h) && CountTimeouts(q.queue, h) == 0;
      if s.txs[h].retries < MAX_RETRIES {
        RetriedClocked(q, h);
        ClockedFrame(Retried(q, h), Send(Retried(q, h), s.txs[h].packet));
      } else {
        RetireClocked(q, id, TimedOut, true);
      }
    } else {
      StaleTimeout(s);
      assert Clocked(q);
    }
  }

  /** The timeout of a transaction already freed finds nothing under its id. */
  lemma StaleTimeout(s: State)
    requires Registered(s) && Clocked(s) && s.queue != [] && s.queue[0].Timeout? && !s.txs[s.queue[0].tx].live
    ensures s.queue[0].id !in s.table
  {
    var id := s.queue[0].id;
    if id in s.table {
      SameId(s.table[id], s.queue[0].tx, |s.txs|);
      assert false;
    }
  }

  lemma RunHeadClocked(s: State)
    requires Consistent(s.pool) && Registered(s) && AllLived(s) && Clocked(s) && s.queue != []
    ensures Clocked(RunHead(s))
  {
    var q, c := s.(queue := s.queue[1..]), s.queue[0];
    PopFacts(s);
    PoppedRegistered(s);
    if c.Insert? {
      InsertClocked(s);
    } else if c.Timeout? {
      TimeoutClocked(s);
    } else {
      assert Clocked(q);
      PlainClocked(q, c);
    }
  }

  lemma PlainClocked(s: State, c: Closure)
    requires Consistent(s.pool) && Registered(s) && Clocked(s) && !c.Insert? && !c.Timeout?
    ensures Clocked(Execute(s, c))
  {
    match c
    case Response(packet, id, success) =>
      if id in s.table {
        var state := if success then Acknowledged else Error;
        RetireClocked(s, id, state, !success);
        ClockedFrame(Retire(s, s.table[id], state, !success), OnResponse(s, packet, id, success));
      } else {
        ClockedFrame(s, OnResponse(s, packet, id, success));
      }
    case Request(packet) => ClockedFrame(s, OnRequest(s, packet));
    case Enable => ClockedFrame(s, s.(enabled := true));
    case Disable =>
      if s.enabled {
        ClockedFrame(s, s.(enabled := false));
        RemoveKeysClocked(s.(enabled := false), Upto(MAX_ID + 1));
      }
  }

  lemma StepClocked(s: State, e: Event)
    requires Consistent(s.pool) && Registered(s) && AllLived(s) && Clocked(s) && Enabled(s, e)
    requires e.StartRequest? ==> Within(s, MAX_ID - 1)
    ensures Clocked(Step(s, e))
  {
    match e
    case StartRequest => StartTxClocked(s);
    case RunClosure => RunHeadClocked(s);
    case FireTimer(h) => FireClocked(s, h);
    case Arrival(d) => ClockedFrame(s, Arrive(s, d));
    case Callback(packet, content) =>
      if s.enabled && !content.Invalid? {
        PostClocked(s, ReceivedClosure(packet, content));
        ClockedFrame(Post(s, ReceivedClosure(packet, content)), RunCallback(s, packet, content));
      } else {
        ClockedFrame(s, RunCallback(s, packet, content));
      }
    case RunPush => ClockedFrame(s, Push(s));
    case WriteReady => DrainFrame(s); ClockedFrame(s, WriteAll(s));
    case PostEnable => PostClocked(s, Enable);
    case PostDisable => PostClocked(s, Disable);
  }

  /** Every request starts while all transactions still live or named by a queued
      timeout are among the last 254, so that its id is nobody else's. */
  ghost predicate FreshIds(capacity: nat, events: seq<Event>)
    requires Legal(capacity, events)
  {
    events == [] ||
    (FreshIds(capacity, Front(events)) &&
     (Last(events).StartRequest? ==> Within(Run(capacity, Front(events)), MAX_ID - 1)))
  }

  lemma {:induction false} ClockedAlways(capacity: nat, events: seq<Event>)
    requires Legal(capacity, events) && FreshIds(capacity, events)
    ensures Clocked(Run(capacity, events))
  {
    if events != [] {
      ClockedAlways(capacity, Front(events));
      AttemptsAndErrors(capacity, Front(events));
      OwnedAlways(capacity, Front(events));
      StepClocked(Run(capacity, Front(events)), Last(events));
    }
  }

  /** While ids are fresh, a live transaction waits on exactly one armed timer or
      one queued timeout, with deadlines of 1000, 2000 and 4000 milliseconds for
      its three attempts. */
  lemma TimedExactlyOnce(capacity: nat, events: seq<Event>, h: nat)
    requires Legal(capacity, events) && FreshIds(capacity, events)
    requires h < |Run(capacity, events).txs| && Run(capacity, events).txs[h].live
    ensures var s := Run(capacity, events);
            && s.txs[h].state == Waiting
            && (s.txs[h].timer.Armed? <==> CountTimeouts(s.queue, h) == 0)
            && CountTimeouts(s.queue, h) <= 1
            && (s.txs[h].timer.Armed? ==>
                  s.txs[h].timer.milliseconds ==
                  (if s.txs[h].sends == 1 then 1000 else if s.txs[h].sends == 2 then 2000 else 4000))
  {
    ClockedAlways(capacity, events);
    AttemptsAndErrors(capacity, events);
    var s := Run(capacity, events);
    assert Lived(s.txs[h]);
    assert (if s.txs[h].timer.Armed? then 1 else 0) + CountTimeouts(s.queue, h) == 1;
  }

  /** An insertion leaves every live transaction waiting for insertion or found
      under its id if and only if its own id is not in the table; otherwise the
      transaction that had the id is stranded. */
  lemma InsertStrandsIff(s: State)
    requires Consistent(s.pool) && Registered(s) && Reachable(s) && s.queue != [] && s.queue[0].Insert?
    ensures Reachable(RunHead(s)) <==> s.txs[s.queue[0].tx].id !in s.table
  {
    var h, t := s.queue[0].tx, RunHead(s);
    var id := s.txs[h].id;
    assert s.queue[0] in s.queue && s.queue == [s.queue[0]] + t.queue;
    if id in s.table {
      var other := s.table[id];
      assert t.txs[other].live && t.txs[other].id == id && Insert(other) !in t.queue && t.table[id] != other;
    } else {
      forall k | 0 <= k < |t.txs| && t.txs[k].live
        ensures Insert(k) in t.queue || (t.txs[k].id in t.table && t.table[t.txs[k].id] == k)
      {
        assert Insert(k) in s.queue ==> k == h || Insert(k) in t.queue;
      }
    }
  }
}
