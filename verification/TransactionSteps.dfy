/** What one step does to each transaction, and the accounts this gives of whole
    runs: what was sent, how each transaction ended, and which closures ran. */
module TransactionSteps {
  import opened Basics
  import opened PoolModel
  import opened Transactions
  import opened PacketOwnership
  import opened TransactionLifecycle

  // ----- sends

  function SumSends(txs: seq<Tx>): nat
  {
    if txs == [] then 0 else SumSends(Front(txs)) + Last(txs).sends
  }

  lemma {:induction false} SumSendsUpdate(txs: seq<Tx>, h: nat, t: Tx)
    requires h < |txs|
    ensures SumSends(txs[h := t]) + txs[h].sends == SumSends(txs) + t.sends
  {
    if h == |txs| - 1 {
      assert Front(txs[h := t]) == Front(txs);
    } else {
      SumSendsUpdate(Front(txs), h, t);
      assert Front(txs[h := t]) == Front(txs)[h := t];
    }
  }

  lemma {:induction false} RemoveKeysSends(s: State, keys: seq<nat>)
    requires Consistent(s.pool)
    ensures SumSends(RemoveKeys(s, keys).txs) == SumSends(s.txs)
    decreases keys
  {
    hide SumSends;
    if keys != [] {
      if keys[0] in s.table && s.table[keys[0]] < |s.txs| {
        var h := s.table[keys[0]];
        var t := Retire(s, h, s.txs[h].state, false);
        SumSendsUpdate(s.txs, h, t.txs[h]);
        RemoveKeysSends(t, keys[1..]);
      } else {
        RemoveKeysSends(s, keys[1..]);
      }
    }
  }

  /** The step answers a request. */
  predicate Answers(s: State, e: Event)
    requires Enabled(s, e)
  {
    e.RunClosure? && s.queue[0].Request?
  }

  lemma ExecuteSends(s: State, c: Closure)
    requires Consistent(s.pool) && TableLive(s) && (c.Request? ==> s.pool.free != [])
    ensures var t := Execute(s, c);
            |t.socket.handed| + SumSends(s.txs) ==
            |s.socket.handed| + SumSends(t.txs) + if c.Request? then 1 else 0
  {
    hide SumSends, TableLive;
    var t := Execute(s, c);
    match c
    case Response(packet, id, success) =>
      if id in s.table && s.table[id] < |s.txs| {
        SumSendsUpdate(s.txs, s.table[id], t.txs[s.table[id]]);
      }
    case Timeout(id, _) =>
      if id in s.table && s.table[id] < |s.txs| {
        SumSendsUpdate(s.txs, s.table[id], t.txs[s.table[id]]);
      }
    case Disable =>
      if s.enabled {
        RemoveKeysFrame(s.(enabled := false), Upto(MAX_ID + 1));
        RemoveKeysSends(s.(enabled := false), Upto(MAX_ID + 1));
      }
    case _ =>
  }

  lemma StepSends(s: State, e: Event)
    requires Consistent(s.pool) && TableLive(s) && Enabled(s, e)
    ensures var t := Step(s, e);
            |t.socket.handed| + SumSends(s.txs) ==
            |s.socket.handed| + SumSends(t.txs) + if Answers(s, e) then 1 else 0
  {
    var t := Step(s, e);
    match e
    case StartRequest =>
      if s.pool.free != [] {
        assert Front(t.txs) == s.txs;
      }
    case RunClosure =>
      TableFrame(s, s.(queue := s.queue[1..]));
      ExecuteSends(s.(queue := s.queue[1..]), s.queue[0]);
    case FireTimer(h) => SumSendsUpdate(s.txs, h, t.txs[h]);
    case WriteReady => DrainFrame(s);
    case _ =>
  }

  ghost function AnswersIn(capacity: nat, events: seq<Event>): nat
    requires Legal(capacity, events)
  {
    if events == [] then 0
    else AnswersIn(capacity, Front(events)) + if Answers(Run(capacity, Front(events)), Last(events)) then 1 else 0
  }

  /** In every run the packets handed to the socket number the sends of all
      transactions and the requests answered: every attempt counted is an attempt made. */
  lemma {:induction false} SendsAreHanded(capacity: nat, events: seq<Event>)
    requires Legal(capacity, events)
    ensures var s := Run(capacity, events); |s.socket.handed| == SumSends(s.txs) + AnswersIn(capacity, events)
  {
    if events != [] {
      SendsAreHanded(capacity, Front(events));
      OwnedAlways(capacity, Front(events));
      StepSends(Run(capacity, Front(events)), Last(events));
    }
  }

  /** A new request and an answer each go out in a packet that was free. */
  lemma FreshPacketsSent(capacity: nat, events: seq<Event>, e: Event)
    requires Legal(capacity, events) && Enabled(Run(capacity, events), e)
    requires e.StartRequest? || Answers(Run(capacity, events), e)
    ensures var s := Run(capacity, events);
            var t := Step(s, e);
            && (s.pool.free != [] ==>
                  && t.socket.handed == s.socket.handed + [s.pool.free[0]]
                  && (e.StartRequest? ==>
                        && |t.txs| == |s.txs| + 1
                        && Last(t.txs).packet == s.pool.free[0] && Last(t.txs).live && Last(t.txs).sends == 1))
            && (s.pool.free == [] ==> t == s)
  {
  }

  // ----- one transaction, one step

  ghost predicate Under(s: State, id: nat, h: nat)
  {
    id in s.table && s.table[id] == h
  }

  /** The closure about to run is a timeout under the transaction's id, with an attempt left. */
  ghost predicate Retries(s: State, e: Event, h: nat)
    requires Enabled(s, e) && h < |s.txs|
  {
    e.RunClosure? && s.queue[0].Timeout? && Under(s, s.queue[0].id, h) && s.txs[h].retries < 2
  }

  /** The closure about to run ends the transaction so: a response under its id, a
      timeout with no attempt left, or a disable. */
  ghost predicate EndsAs(s: State, e: Event, h: nat, state: TxState)
    requires Enabled(s, e) && h < |s.txs|
  {
    e.RunClosure? &&
    match s.queue[0]
    case Response(_, id, success) => Under(s, id, h) && state == (if success then Acknowledged else Error)
    case Timeout(id, _) => Under(s, id, h) && s.txs[h].retries == 2 && state == TimedOut
    case Disable => s.enabled && Under(s, s.txs[h].id, h) && state == Waiting
    case _ => false
  }

  /** What a step makes of live transaction h. */
  ghost predicate Explained(s: State, e: Event, t: State, h: nat)
    requires Enabled(s, e) && h < |s.txs| <= |t.txs|
  {
    var x, y := s.txs[h], t.txs[h];
    && (y.sends != x.sends <==> Retries(s, e, h))
    && (y.sends != x.sends ==>
          && y == x.(retries := x.retries + 1, sends := x.sends + 1,
                     timer := Armed(if x.retries == 0 then 2000 else 4000))
          && t.socket.handed == s.socket.handed + [x.packet])
    && (forall state :: !y.live && y.state == state <==> EndsAs(s, e, h, state))
    && (!y.live ==> y == x.(live := false, timer := Disarmed, state := y.state,
                            errors := if y.state == Error || y.state == TimedOut then 1 else 0))
    && (y != x && y.live && y.sends == x.sends <==> e == FireTimer(h))
    && (e == FireTimer(h) ==> y == x.(timer := Disarmed) && t.queue == s.queue + [Timeout(x.id, h)])
  }

  lemma HeadExplained(s: State, h: nat)
    requires Consistent(s.pool) && TableLive(s) && AllLived(s) && IdsInRange(s) && Enabled(s, RunClosure)
    requires h < |s.txs| && s.txs[h].live
    ensures |s.txs| <= |RunHead(s).txs| && Explained(s, RunClosure, RunHead(s), h)
  {
    var q := s.(queue := s.queue[1..]);
    assert Lived(s.txs[h]);
    TableFrame(s, q);
    match s.queue[0]
    case Disable =>
      if s.enabled {
        DisableExplained(s, q.(enabled := false), h);
      }
    case _ => ClosureExplained(s, h);
  }

  lemma ClosureExplained(s: State, h: nat)
    requires Consistent(s.pool) && TableLive(s) && AllLived(s) && Enabled(s, RunClosure)
    requires h < |s.txs| && s.txs[h].live && !s.queue[0].Disable?
    ensures |s.txs| <= |RunHead(s).txs| && Explained(s, RunClosure, RunHead(s), h)
  {
    hide ReleasePacket, RetainPacket;
    assert Lived(s.txs[h]);
  }

  lemma DisableExplained(s: State, q: State, h: nat)
    requires Consistent(s.pool) && TableLive(s) && AllLived(s) && IdsInRange(s) && Enabled(s, RunClosure)
    requires s.queue[0].Disable? && s.enabled && q == s.(queue := s.queue[1..], enabled := false)
    requires h < |s.txs| && s.txs[h].live
    ensures |s.txs| <= |RunHead(s).txs| && Explained(s, RunClosure, RunHead(s), h)
  {
    var keys, id := Upto(MAX_ID + 1), s.txs[h].id;
    assert Lived(s.txs[h]);
    TableFrame(s, q);
    RemoveKeysEmpties(q, keys);
    RemoveKeysFrame(q, keys);
    if Under(s, id, h) {
      assert id in keys;
    } else {
      RemoveKeysSpares(q, keys, h);
    }
  }

  lemma StepExplained(s: State, e: Event, h: nat)
    requires Consistent(s.pool) && TableLive(s) && AllLived(s) && IdsInRange(s) && Enabled(s, e)
    requires h < |s.txs| && s.txs[h].live
    ensures |s.txs| <= |Step(s, e).txs| && Explained(s, e, Step(s, e), h)
  {
    match e
    case RunClosure => HeadExplained(s, h);
    case WriteReady => DrainFrame(s);
    case _ =>
  }

  /** In every run a live transaction is sent again exactly by its timeout with an
      attempt left, its packet then going to the socket once more; ends exactly by a
      response under its id, its last timeout or a disable, each with its own
      outcome; loses its timer exactly when that fires; and is not touched otherwise. */
  lemma EachStepExplained(capacity: nat, events: seq<Event>, e: Event, h: nat)
    requires Legal(capacity, events) && Enabled(Run(capacity, events), e)
    requires h < |Run(capacity, events).txs| && Run(capacity, events).txs[h].live
    ensures var s := Run(capacity, events);
            |s.txs| <= |Step(s, e).txs| && Explained(s, e, Step(s, e), h)
  {
    OwnedAlways(capacity, events);
    AttemptsAndErrors(capacity, events);
    InRangeAlways(capacity, events);
    StepExplained(Run(capacity, events), e, h);
  }

  lemma NewTxIsLive(s: State, e: Event, h: nat)
    requires Consistent(s.pool) && TableLive(s) && AllLived(s) && Enabled(s, e)
    requires |s.txs| <= h < |Step(s, e).txs|
    ensures Step(s, e).txs[h].live
  {
    match e
    case RunClosure =>
      var q := s.(queue := s.queue[1..]);
      TableFrame(s, q);
      if s.queue[0].Disable? && s.enabled {
        RemoveKeysEmpties(q.(enabled := false), Upto(MAX_ID + 1));
      }
    case WriteReady => DrainFrame(s);
    case _ =>
  }

  /** So in every run whatever outcome a transaction has, a step of the run gave it:
      it was acknowledged by a success under its id, and so on. */
  lemma {:induction false} OutcomeHasCause(capacity: nat, events: seq<Event>, h: nat) returns (n: nat)
    requires Legal(capacity, events) && h < |Run(capacity, events).txs| && !Run(capacity, events).txs[h].live
    ensures n < |events| && Legal(capacity, events[..n]) && h < |Run(capacity, events[..n]).txs|
    ensures Enabled(Run(capacity, events[..n]), events[n])
    ensures EndsAs(Run(capacity, events[..n]), events[n], h, Run(capacity, events).txs[h].state)
  {
    hide Step, Enabled, EndsAs, Lived, Consistent, TableLive;
    var before := Front(events);
    var s := Run(capacity, before);
    OwnedAlways(capacity, before);
    AttemptsAndErrors(capacity, before);
    StepLived(s, Last(events));
    if h >= |s.txs| {
      NewTxIsLive(s, Last(events), h);
      assert false;
    } else if s.txs[h].live {
      n := |before|;
      EachStepExplained(capacity, before, Last(events), h);
      assert events[..n] == before;
    } else {
      n := OutcomeHasCause(capacity, before, h);
      assert before[..n] == events[..n];
    }
  }

  // ----- closures

  /** The closures a step posts. */
  function Posts(s: State, e: Event): seq<Closure>
    requires Enabled(s, e)
  {
    match e
    case StartRequest => if s.pool.free == [] then [] else [Insert(|s.txs|)]
    case FireTimer(h) => [Timeout(s.txs[h].id, h)]
    case Callback(packet, content) =>
      if !s.enabled then []
      else (match content
            case IsResponse(id, success) => [Response(packet, id, success)]
            case IsRequest(_) => [Request(packet)]
            case Invalid => [])
    case PostEnable => [Enable]
    case PostDisable => [Disable]
    case _ => []
  }

  ghost function Posted(capacity: nat, events: seq<Event>): seq<Closure>
    requires Legal(capacity, events)
  {
    if events == [] then [] else Posted(capacity, Front(events)) + Posts(Run(capacity, Front(events)), Last(events))
  }

  /** The closures that have run. */
  ghost function Ran(capacity: nat, events: seq<Event>): seq<Closure>
    requires Legal(capacity, events)
  {
    if events == [] then []
    else Ran(capacity, Front(events)) +
         if Last(events).RunClosure? then [Run(capacity, Front(events)).queue[0]] else []
  }

  lemma StepPosts(s: State, e: Event)
    requires Consistent(s.pool) && Enabled(s, e)
    ensures (if e.RunClosure? then [s.queue[0]] else []) + Step(s, e).queue == s.queue + Posts(s, e)
  {
    match e
    case RunClosure => ExecutePosts(s.(queue := s.queue[1..]), s.queue[0]);
    case Callback(packet, content) => CallbackPosts(s, packet, content);
    case WriteReady => DrainFrame(s);
    case _ =>
  }

  lemma CallbackPosts(s: State, packet: nat, content: Content)
    requires Consistent(s.pool) && packet in s.callbacks
    ensures RunCallback(s, packet, content).queue == s.queue + Posts(s, Callback(packet, content))
  {
    hide ReleasePacket, RetainPacket;
    if s.enabled && !content.Invalid? {
      assert Posts(s, Callback(packet, content)) == [ReceivedClosure(packet, content)];
    } else {
      assert s.queue + [] == s.queue;
    }
  }

  lemma ExecutePosts(s: State, c: Closure)
    requires Consistent(s.pool)
    ensures Execute(s, c).queue == s.queue
  {
    if c.Disable? && s.enabled {
      RemoveKeysFrame(s.(enabled := false), Upto(MAX_ID + 1));
    }
  }

  /** Closures run in the order posted, none is lost, and while disabled no received packet posts one. */
  lemma {:induction false} ClosuresInOrder(capacity: nat, events: seq<Event>)
    requires Legal(capacity, events)
    ensures Posted(capacity, events) == Ran(capacity, events) + Run(capacity, events).queue
  {
    hide Enabled;
    if events != [] {
      hide Step, Posts;
      var before, e := Front(events), Last(events);
      var s := Run(capacity, before);
      ClosuresInOrder(capacity, before);
      StepPosts(s, e);
      var now := if e.RunClosure? then [s.queue[0]] else [];
      Regroup(Ran(capacity, before), s.queue, Posts(s, e), now, Step(s, e).queue);
    }
  }

  lemma Regroup(ran: seq<Closure>, queue: seq<Closure>, posted: seq<Closure>, now: seq<Closure>, left: seq<Closure>)
    requires now + left == queue + posted
    ensures ran + queue + posted == ran + now + left
  {
    assert ran + queue + posted == ran + (queue + posted);
    assert ran + now + left == ran + (now + left);
  }

  // ----- received packets

  /** The step brings a packet to the receive callback. */
  predicate Delivers(s: State, e: Event)
  {
    e == Arrival(Good) && s.pool.free != []
  }

  lemma StepCallbacks(s: State, e: Event)
    requires Consistent(s.pool) && Enabled(s, e)
    ensures |Step(s, e).callbacks| + (if e.Callback? then 1 else 0) ==
            |s.callbacks| + if Delivers(s, e) then 1 else 0
  {
    match e
    case RunClosure =>
      if s.queue[0].Disable? && s.enabled {
        RemoveKeysFrame(s.(queue := s.queue[1..], enabled := false), Upto(MAX_ID + 1));
      }
    case WriteReady => DrainFrame(s);
    case _ =>
  }

  ghost function Delivered(capacity: nat, events: seq<Event>): nat
    requires Legal(capacity, events)
  {
    if events == [] then 0
    else Delivered(capacity, Front(events)) + if Delivers(Run(capacity, Front(events)), Last(events)) then 1 else 0
  }

  function CallbacksRun(events: seq<Event>): nat
  {
    if events == [] then 0 else CallbacksRun(Front(events)) + if Last(events).Callback? then 1 else 0
  }

  /** Each good datagram that finds a packet is called back once, and no other is. */
  lemma {:induction false} CallbacksAccounted(capacity: nat, events: seq<Event>)
    requires Legal(capacity, events)
    ensures Delivered(capacity, events) == CallbacksRun(events) + |Run(capacity, events).callbacks|
  {
    if events != [] {
      CallbacksAccounted(capacity, Front(events));
      StepCallbacks(Run(capacity, Front(events)), Last(events));
    }
  }

  // ----- enabling

  /** The last enabling or disabling closure that has run; at the start it is enabled. */
  function LastSwitch(ran: seq<Closure>): bool
  {
    if ran == [] || Last(ran).Enable? then true
    else !Last(ran).Disable? && LastSwitch(Front(ran))
  }

  lemma StepSwitch(s: State, e: Event)
    requires Consistent(s.pool) && Enabled(s, e)
    ensures Step(s, e).enabled ==
            (if e.RunClosure? && s.queue[0].Enable? then true
             else if e.RunClosure? && s.queue[0].Disable? then false
             else s.enabled)
  {
    match e
    case RunClosure =>
      if s.queue[0].Disable? && s.enabled {
        RemoveKeysFrame(s.(queue := s.queue[1..], enabled := false), Upto(MAX_ID + 1));
      }
    case WriteReady => DrainFrame(s);
    case _ =>
  }

  lemma {:induction false} EnabledIsLastSwitch(capacity: nat, events: seq<Event>)
    requires Legal(capacity, events)
    ensures Run(capacity, events).enabled == LastSwitch(Ran(capacity, events))
  {
    if events != [] {
      var before := Front(events);
      EnabledIsLastSwitch(capacity, before);
      StepSwitch(Run(capacity, before), Last(events));
      if Last(events).RunClosure? {
        assert Front(Ran(capacity, events)) == Ran(capacity, before);
      } else {
        assert Ran(capacity, events) == Ran(capacity, before) + [] == Ran(capacity, before);
      }
    }
  }
}
