/** Requests, responses and retries over the packet pool, as a state machine. The
    program runs its closures on serial queues; each closure, timer event and
    socket event is one atomic step here. */
module Transactions {
  import opened Basics
  import opened PoolModel

  const MAX_ID: nat := 0xFF
  const MAX_RETRIES: nat := 2
  const INITIAL_RTO: nat := 1000

  datatype TxState = Waiting | Acknowledged | Error | TimedOut

  datatype Timer = Disarmed | Armed(milliseconds: nat)

  /** A transaction and what it has done: `sends` counts its packets handed to
      the socket, `errors` its error callbacks. It is live until it is freed. */
  datatype Tx = Tx(id: nat, packet: nat, state: TxState, retries: nat, timer: Timer, live: bool, sends: nat,
      errors: nat)

  /** Closures waiting on the transactions queue. `Timeout` carries the id the
      code uses and, for the proofs, the transaction whose timer fired. */
  datatype Closure =
    | Insert(tx: nat)
    | Response(packet: nat, id: nat, success: bool)
    | Request(packet: nat)
    | Timeout(id: nat, tx: nat)
    | Enable
    | Disable

  /** The write side of the socket: packets in closures that will queue them,
      packets queued, and for the proofs all packets ever handed over and written. */
  datatype Socket = Socket(closures: seq<nat>, pending: seq<nat>, isSending: bool, handed: seq<nat>, written: seq<nat>)

  datatype State = State(
    pool: Pool,
    enabled: bool,
    cseq: nat,
    table: map<nat, nat>, // id to transaction
    txs: seq<Tx>, // every transaction ever allocated
    queue: seq<Closure>,
    callbacks: multiset<nat>, // received packets whose socket callback has not run
    socket: Socket,
    lost: multiset<nat>) // references that nothing will ever release

  datatype Content = IsResponse(id: nat, success: bool) | IsRequest(id: nat) | Invalid

  datatype Datagram = Good | Bad | Empty

  datatype Event =
    | StartRequest
    | RunClosure
    | FireTimer(tx: nat)
    | Arrival(datagram: Datagram)
    | Callback(packet: nat, content: Content)
    | RunPush
    | WriteReady
    | PostEnable
    | PostDisable

  function Initial(capacity: nat): State
  {
    State(New(capacity), true, 0, map[], [], [], multiset{}, Socket([], [], false, [], []), multiset{})
  }

  // ----- the pool, as the steps use it

  /** Retaining or releasing what nobody holds has no meaning; Balanced, below, shows it never happens. */
  function RetainPacket(p: Pool, x: nat): (q: Pool)
    requires Consistent(p)
    ensures Consistent(q) && |q.count| == |p.count|
  {
    if Live(p, x) then Retain(p, x) else p
  }

  function ReleasePacket(p: Pool, x: nat): (q: Pool)
    requires Consistent(p)
    ensures Consistent(q) && |q.count| == |p.count|
  {
    if Live(p, x) then Release(p, x) else p
  }

  function FreePacket(p: Pool, x: nat): (q: Pool)
    requires Consistent(p)
    ensures Consistent(q) && |q.count| == |p.count|
  {
    if Live(p, x) then Free(p, x) else p
  }

  /** The reference taken here belongs to the closure, then to the pending queue, until the packet is written. */
  function Send(s: State, x: nat): (t: State)
    requires Consistent(s.pool)
    ensures Consistent(t.pool)
  {
    s.(pool := RetainPacket(s.pool, x),
       socket := s.socket.(closures := s.socket.closures + [x], handed := s.socket.handed + [x]))
  }

  // ----- transactions

  function Deadline(retries: nat): nat
  {
    if retries == 0 then INITIAL_RTO else INITIAL_RTO * 2 * retries
  }

  /** A transaction with its packet, its id, and its insertion posted. */
  function Allocated(s: State): (t: State)
    requires Consistent(s.pool) && s.pool.free != []
    ensures Consistent(t.pool)
  {
    var x := s.pool.free[0];
    s.(pool := Alloc(s.pool).0,
       cseq := (s.cseq + 1) % MAX_ID,
       txs := s.txs + [Tx(s.cseq, x, Waiting, 0, Armed(Deadline(0)), true, 1, 0)],
       queue := s.queue + [Insert(|s.txs|)])
  }

  function StartTx(s: State): (t: State)
    requires Consistent(s.pool)
    ensures Consistent(t.pool)
  {
    if Alloc(s.pool).1.None? then s else Send(Allocated(s), Alloc(s.pool).1.value)
  }

  /** Freed: out of the table, timer destroyed, packet released. */
  function Retire(s: State, h: nat, state: TxState, notify: bool): (t: State)
    requires Consistent(s.pool) && h < |s.txs|
    ensures Consistent(t.pool)
  {
    var tx := s.txs[h];
    s.(pool := ReleasePacket(s.pool, tx.packet),
       table := s.table - {tx.id},
       txs := s.txs[h := tx.(state := state, timer := Disarmed, live := false,
           errors := tx.errors + if notify then 1 else 0)])
  }

  /** The table is walked slot by slot, in the order of the keys. */
  function RemoveKeys(s: State, keys: seq<nat>): (t: State)
    requires Consistent(s.pool)
    ensures Consistent(t.pool)
    decreases keys
  {
    if keys == [] then s
    else if keys[0] in s.table && s.table[keys[0]] < |s.txs|
    then RemoveKeys(Retire(s, s.table[keys[0]], s.txs[s.table[keys[0]]].state, false), keys[1..])
    else RemoveKeys(s, keys[1..])
  }

  function RemoveAll(s: State): (t: State)
    requires Consistent(s.pool)
    ensures Consistent(t.pool)
  {
    RemoveKeys(s, Upto(MAX_ID + 1))
  }

  /** One more attempt: counted, timed, and about to be sent. */
  function Retried(s: State, h: nat): State
    requires h < |s.txs|
  {
    var tx := s.txs[h];
    s.(txs := s.txs[h := tx.(retries := tx.retries + 1, timer := Armed(Deadline(tx.retries + 1)),
        sends := tx.sends + 1)])
  }

  function OnTimeout(s: State, id: nat): (t: State)
    requires Consistent(s.pool)
    ensures Consistent(t.pool)
  {
    if id in s.table && s.table[id] < |s.txs| && s.txs[s.table[id]].state == Waiting then
      var h := s.table[id];
      if s.txs[h].retries < MAX_RETRIES then Send(Retried(s, h), s.txs[h].packet)
      else Retire(s, h, TimedOut, true)
    else s
  }

  /** A response that matches no transaction keeps the packet it retained. */
  function OnResponse(s: State, packet: nat, id: nat, success: bool): (t: State)
    requires Consistent(s.pool)
    ensures Consistent(t.pool)
  {
    if id in s.table && s.table[id] < |s.txs| then
      var t := Retire(s, s.table[id], if success then Acknowledged else Error, !success);
      t.(pool := ReleasePacket(t.pool, packet))
    else s.(lost := s.lost + multiset{packet})
  }

  /** The response goes out in a packet of its own. */
  function OnRequest(s: State, packet: nat): (t: State)
    requires Consistent(s.pool)
    ensures Consistent(t.pool)
  {
    var (pool, x) := Alloc(s.pool);
    if x.None? then s
    else
      var t := Send(s.(pool := pool), x.value);
      t.(pool := ReleasePacket(ReleasePacket(t.pool, x.value), packet))
  }

  function OnInsert(s: State, h: nat): (t: State)
    requires Consistent(s.pool)
    ensures Consistent(t.pool)
  {
    if h < |s.txs| then s.(table := s.table[s.txs[h].id := h]) else s
  }

  function OnDisable(s: State): (t: State)
    requires Consistent(s.pool)
    ensures Consistent(t.pool)
  {
    if s.enabled then RemoveAll(s.(enabled := false)) else s
  }

  function Execute(s: State, c: Closure): (t: State)
    requires Consistent(s.pool)
    ensures Consistent(t.pool)
  {
    match c
    case Insert(h) => OnInsert(s, h)
    case Response(packet, id, success) => OnResponse(s, packet, id, success)
    case Request(packet) => OnRequest(s, packet)
    case Timeout(id, _) => OnTimeout(s, id)
    case Enable => s.(enabled := true)
    case Disable => OnDisable(s)
  }

  function RunHead(s: State): (t: State)
    requires Consistent(s.pool) && s.queue != []
    ensures Consistent(t.pool)
  {
    Execute(s.(queue := s.queue[1..]), s.queue[0])
  }

  // ----- the socket

  function Arrive(s: State, d: Datagram): (t: State)
    requires Consistent(s.pool)
    ensures Consistent(t.pool)
  {
    var (pool, x) := Alloc(s.pool);
    if x.None? then s
    else match d
         case Good => s.(pool := pool, callbacks := s.callbacks + multiset{x.value})
         case Bad => s.(pool := FreePacket(pool, x.value))
         case Empty => s.(pool := pool, lost := s.lost + multiset{x.value})
  }

  function ReceivedClosure(packet: nat, content: Content): Closure
    requires !content.Invalid?
  {
    if content.IsResponse? then Response(packet, content.id, content.success) else Request(packet)
  }

  function RunCallback(s: State, packet: nat, content: Content): (t: State)
    requires Consistent(s.pool)
    ensures Consistent(t.pool)
  {
    var q := s.(callbacks := s.callbacks - multiset{packet});
    if !s.enabled || content.Invalid? then q.(pool := ReleasePacket(q.pool, packet))
    else
      Post(q.(pool := ReleasePacket(RetainPacket(q.pool, packet), packet)), ReceivedClosure(packet, content))
  }

  function WriteOne(s: State): (t: State)
    requires Consistent(s.pool) && s.socket.pending != []
    ensures Consistent(t.pool) && |t.socket.pending| < |s.socket.pending|
  {
    var x := s.socket.pending[0];
    s.(pool := ReleasePacket(s.pool, x),
       socket := s.socket.(pending := s.socket.pending[1..], written := s.socket.written + [x]))
  }

  /** The write handler's loop: write and release until nothing is pending. */
  function Drain(s: State): (t: State)
    requires Consistent(s.pool)
    ensures Consistent(t.pool)
    decreases |s.socket.pending|
  {
    if s.socket.pending == [] then s else Drain(WriteOne(s))
  }

  // ----- steps

  /** The timer's handler posts a closure that knows only the id. */
  function Fire(s: State, h: nat): State
    requires h < |s.txs|
  {
    s.(txs := s.txs[h := s.txs[h].(timer := Disarmed)], queue := s.queue + [Timeout(s.txs[h].id, h)])
  }

  /** The socket closure: queue the packet and resume the write source. */
  function Push(s: State): State
    requires s.socket.closures != []
  {
    s.(socket := s.socket.(closures := s.socket.closures[1..], pending := s.socket.pending + [s.socket.closures[0]],
        isSending := true))
  }

  function WriteAll(s: State): (t: State)
    requires Consistent(s.pool)
    ensures Consistent(t.pool)
  {
    var t := Drain(s);
    t.(socket := t.socket.(isSending := false))
  }

  function Post(s: State, c: Closure): State
  {
    s.(queue := s.queue + [c])
  }

  predicate Enabled(s: State, e: Event)
  {
    match e
    case RunClosure => s.queue != [] && (s.queue[0].Request? ==> s.pool.free != [])
    case FireTimer(h) => h < |s.txs| && s.txs[h].live && s.txs[h].timer.Armed?
    case Callback(packet, _) => packet in s.callbacks
    case RunPush => s.socket.closures != []
    case WriteReady => s.socket.isSending
    case _ => true
  }

  function Step(s: State, e: Event): (t: State)
    requires Consistent(s.pool) && Enabled(s, e)
    ensures Consistent(t.pool)
  {
    match e
    case StartRequest => StartTx(s)
    case RunClosure => RunHead(s)
    case FireTimer(h) => Fire(s, h)
    case Arrival(d) => Arrive(s, d)
    case Callback(packet, content) => RunCallback(s, packet, content)
    case RunPush => Push(s)
    case WriteReady => WriteAll(s)
    case PostEnable => Post(s, Enable)
    case PostDisable => Post(s, Disable)
  }

  /** Every step taken was enabled, so `Run` is the state it leads to. */
  ghost predicate Legal(capacity: nat, events: seq<Event>)
    decreases |events|, 0
  {
    events == [] || (Legal(capacity, Front(events)) && Enabled(Run(capacity, Front(events)), Last(events)))
  }

  ghost function Run(capacity: nat, events: seq<Event>): (s: State)
    requires Legal(capacity, events)
    ensures Consistent(s.pool)
    decreases |events|, 1
  {
    if events == [] then Initial(capacity)
    else Step(Run(capacity, Front(events)), Last(events))
  }
}
